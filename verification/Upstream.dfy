/** The `UpstreamClient` of proxy/upstream_radius.py: one exchange with the auth server. */
module Upstream {
  import opened Prelude
  import opened Octets
  import opened Radius
  import opened SessionState
  import opened Sessions

  class UpstreamClient {
    // Whatever the server will do next; not ours to change.
    var server: Server

    constructor (server: Server)
      ensures this.server == server
    {
      this.server := server;
    }

    /** Sends one Access-Request for the session. None means the Timeout exception. */
    method SendEap(session: Session, eap: Bytes, caller: Caller, state: Option<Bytes>)
      returns (reply: Option<Reply>)
      requires session.Valid()
      modifies session
      ensures (session.ServerView(), reply)
           == SessionState.SendEap(server, old(session.ServerView()), caller, state, eap)
      ensures session.View() == old(session.View()).(server := session.ServerView())
    {
      hide Absorb, AnswerTo, Chunks, ReplyOf;
      var request := Request(session.lastApAuthenticator, caller.username,
                             Truthy(caller.calling), Truthy(caller.called), state, SplitEap(eap));
      ghost var leg := session.ServerView();
      assert request == RequestFor(leg, caller, state, eap);
      var arrived := Transmit(session, request);
      if arrived.None? {
        return None;
      }
      Capture(session, arrived.value);
      return Some(ReplyOf(arrived.value));
    }

    /** pyrad's SendPacket over the wire: counted before it is sent, logged with its answer. */
    method Transmit(session: Session, request: Request) returns (arrived: Option<Answer>)
      requires session.Valid()
      modifies session`requests, session`answers, session`upstreamRoundTrips
      ensures arrived == AnswerTo(server, old(session.requests) + [request])
      ensures session.ServerView()
           == old(session.ServerView()).(requests := old(session.requests) + [request],
                                         answers := old(session.answers) + [arrived],
                                         roundTrips := old(session.upstreamRoundTrips) + 1)
      ensures session.View() == old(session.View()).(server := session.ServerView())
    {
      session.requests := session.requests + [request];
      session.upstreamRoundTrips := session.upstreamRoundTrips + 1;
      arrived := if |session.requests| <= server.lifetime then server.answer(session.requests) else None;
      session.answers := session.answers + [arrived];
    }

    /** Keeps the Identifier of a Request and, from an Access-Accept, the key blobs. */
    method Capture(session: Session, answer: Answer)
      requires session.Valid()
      modifies session`upstreamLastEapReqId, session`msMppeSendKey, session`msMppeRecvKey
      ensures session.ServerView() == Absorb(old(session.ServerView()), answer)
      ensures session.View() == old(session.View()).(server := session.ServerView())
    {
      var eapMessage := ConcatEap(answer.attrs);
      if eapMessage.Some? && |eapMessage.value| >= 2 && eapMessage.value[0] == 1 {
        session.upstreamLastEapReqId := Some(eapMessage.value[1]);
      }
      if answer.code == ACCESS_ACCEPT {
        if Lookup(answer.attrs, MPPE_SEND_KEY) != [] {
          session.msMppeSendKey := Some(Lookup(answer.attrs, MPPE_SEND_KEY)[0]);
        }
        if Lookup(answer.attrs, MPPE_RECV_KEY) != [] {
          session.msMppeRecvKey := Some(Lookup(answer.attrs, MPPE_RECV_KEY)[0]);
        }
      }
    }
  }
}
