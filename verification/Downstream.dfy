/** The `DownstreamServer` of proxy/downstream_server.py, from a decoded request to the reply. */
module Downstream {
  import opened Prelude
  import opened Octets
  import opened EapTls
  import opened Radius
  import opened SessionState
  import opened MediatorSpec
  import opened Sessions
  import opened SessionTables
  import opened Upstream
  import opened Mediators
  import Spec = DownstreamSpec
  import opened DownstreamSpec

  class DownstreamServer {
    const mediator: Mediator
    const upstream: UpstreamClient
    const table: SessionTable

    constructor (upstream: UpstreamClient, table: SessionTable)
      ensures this.upstream == upstream && this.table == table && mediator.upstream == upstream
    {
      this.upstream := upstream;
      this.table := table;
      mediator := new Mediator(upstream);
    }

    ghost predicate Valid()
      reads table, set key | key in table.sessions :: table.sessions[key]
    {
      mediator.upstream == upstream && table.Valid()
    }

    method PassthroughNonTls(session: Session, eap: Bytes, caller: Caller) returns (handled: Handled)
      requires session.Valid() && mediator.upstream == upstream
      modifies session
      ensures (session.View(), handled)
           == Spec.PassthroughNonTls(upstream.server, old(session.View()), caller, eap)
    {
      var reply := mediator.Exchange(session, eap, caller);
      if reply.None? {
        return Err(UpstreamTimeout);
      }
      if reply.value.Accept() {
        session.Finish(Accepted);
        return Ok(Outcome(ActAccept, reply.value.eap, None));
      }
      if reply.value.Reject() {
        session.Finish(Rejected);
        return Ok(Outcome(ActReject, reply.value.eap, None));
      }
      return Ok(Outcome(ActChallenge, reply.value.eap, None));
    }

    method Route(session: Session, eap: Bytes, caller: Caller) returns (handled: Handled)
      requires session.Valid() && mediator.upstream == upstream
      modifies session.Repr()
      ensures (session.View(), handled) == Spec.Route(upstream.server, old(session.View()), caller, eap)
    {
      if |eap| >= 5 && eap[4] == EAP_TYPE_TLS {
        handled := mediator.HandleSupplicantEap(session, eap, caller);
      } else {
        handled := PassthroughNonTls(session, eap, caller);
      }
    }

    /**
     One decoded datagram. `token` is what the random source would yield. No reply means that the
     datagram was ignored, or that the exception it caused was logged.
     */
    method HandleDatagram(req: Incoming, token: Bytes) returns (reply: Option<Outgoing>)
      requires Valid()
      modifies table, table.Objects()
      ensures Valid()
      ensures (table.View(), reply)
           == Spec.HandleDatagram(upstream.server, table.settings, old(table.View()), req, token)
    {
      hide Spec.HandleDatagram, Spec.Route, KeyFor, ReplyFor, SessionAt, Mirrored, Minted, Filed;
      ghost var before := table.View();
      if req.Dropped() {
        DroppedLeavesTable(upstream.server, table.settings, before, req, token);
        return None;
      }
      var session, _ := LookupSession(req);
      var key := session.key;
      ghost var found := session.View();
      var handled := Serve(key, session, req);
      ghost var s := session.View();
      Overwritten(before, key, found, s);
      ServedDatagram(upstream.server, table.settings, before, req, token);
      if handled.Err? {
        return None;
      }
      reply := Respond(key, session, handled.value, token);
      FiledOver(before, key, s, handled.value, token);
    }

    /** The session this request belongs to, and whether it came without a State. */
    method LookupSession(req: Incoming) returns (session: Session, wasNew: bool)
      requires Valid()
      modifies table`sessions
      ensures Valid() && session.key == KeyFor(req) && wasNew == req.state.None?
      ensures KeyFor(req) in table.sessions && table.sessions[KeyFor(req)] == session
      ensures session.View() == old(SessionAt(table.settings, table.View(), KeyFor(req)))
      ensures table.View() == old(table.View())[KeyFor(req) := session.View()]
      ensures session.Repr() <= old(table.Objects()) || fresh(session.Repr())
    {
      hide StateKey, FirstKey;
      var key := if req.state.Some? then StateKey(req.state.value) else FirstKey(req);
      if key in table.sessions {
        table.Holds(key);
      }
      session := table.GetOrCreate(key);
      wasNew := req.state.None?;
    }

    /** Everything a datagram does to its own session before the reply is built. */
    method Serve(key: string, session: Session, req: Incoming) returns (handled: Handled)
      requires Valid() && key in table.sessions && table.sessions[key] == session
      modifies session.Repr()
      ensures Valid() && table.sessions == old(table.sessions)
      ensures (session.View(), handled)
           == Spec.Route(upstream.server, Mirrored(old(session.View()), req.authenticator), req.Caller(), req.Eap())
      ensures table.View() == old(table.View())[key := session.View()]
    {
      hide Spec.Route, Mirrored, Session.ServerView, Session.SupplicantView;
      ghost var before := table.View();
      handled := ServeAlone(session, req);
      forall k | k in table.sessions && k != key
        ensures table.sessions[k].View() == before[k] && table.sessions[k].key == k
      {
        assert table.sessions[k].Apart(session);
      }
      table.Differs(key, before);
    }

    /** The same with no regard to the table. */
    method ServeAlone(session: Session, req: Incoming) returns (handled: Handled)
      requires session.Valid() && mediator.upstream == upstream
      modifies session.Repr()
      ensures (session.View(), handled)
           == Spec.Route(upstream.server, Mirrored(old(session.View()), req.authenticator), req.Caller(), req.Eap())
      ensures session.key == old(session.key)
    {
      hide Spec.Route;
      session.lastApAuthenticator := Some(req.authenticator);
      assert session.View() == Mirrored(old(session.View()), req.authenticator);
      handled := Route(session, req.Eap(), req.Caller());
    }

    /** Builds the reply and drops the session if it has ended. */
    method Respond(key: string, session: Session, o: Outcome, token: Bytes) returns (reply: Option<Outgoing>)
      requires Valid() && key in table.sessions && table.sessions[key] == session
      modifies table`sessions, session
      ensures Valid()
      ensures reply == Some(ReplyFor(Minted(old(session.View()), o, token), o))
      ensures table.View() == Filed(old(table.View()), key, old(session.View()), o, token)
    {
      hide ReplyFor, Minted, KeyAfter, Rekey;
      reply := BuildReply(key, session, o, token);
      if session.result.Some? {
        table.Drop(session.key);
      }
    }

    /** Builds the reply; the first challenge of a session mints its State and rekeys the table. */
    method BuildReply(key: string, session: Session, o: Outcome, token: Bytes) returns (reply: Option<Outgoing>)
      requires Valid() && key in table.sessions && table.sessions[key] == session
      modifies table`sessions, session
      ensures Valid()
      ensures reply == Some(ReplyFor(Minted(old(session.View()), o, token), o))
      ensures session.key == KeyAfter(key, old(session.View()), o, token)
      ensures session.result == old(session.result)
      ensures table.View() == Rekey(old(table.View())[key := Minted(old(session.View()), o, token)], key, session.key)
    {
      if (o.action.ActAck? || o.action.ActChallenge?) && session.downstreamState.None? {
        Mint(key, session, token);
      }
      var eapMessages := if o.eap.Some? && o.eap.value != [] then SplitEap(o.eap.value) else [];
      match o.action
      case ActAccept =>
        reply := Some(Outgoing(ACCESS_ACCEPT, None, eapMessages, session.msMppeSendKey, session.msMppeRecvKey));
      case ActReject =>
        reply := Some(Outgoing(ACCESS_REJECT, None, eapMessages, None, None));
      case _ =>
        reply := Some(Outgoing(ACCESS_CHALLENGE, session.downstreamState, eapMessages, None, None));
    }

    /** Gives the session its State and files it under the State's key. */
    method Mint(key: string, session: Session, token: Bytes)
      requires Valid() && key in table.sessions && table.sessions[key] == session
      modifies table`sessions, session
      ensures Valid() && session.key == StateKey(token)
      ensures session.View() == old(session.View()).(downstreamState := Some(token), key := StateKey(token))
      ensures table.View()
           == Rekey(old(table.View())[key := old(session.View()).(downstreamState := Some(token))], key, session.key)
    {
      ghost var before, minted := table.View(), session.View().(downstreamState := Some(token));
      session.downstreamState := Some(token);
      assert session.View() == minted;
      forall k | k in table.sessions && k != key ensures table.sessions[k].View() == before[k] {
        assert table.sessions[k].Apart(session);
      }
      table.Differs(key, before);
      table.Rekey(session.key, StateKey(token));
    }
  }

  lemma DroppedLeavesTable(server: Server, settings: Settings, before: Table, req: Incoming, token: Bytes)
    requires req.Dropped()
    ensures Spec.HandleDatagram(server, settings, before, req, token) == (before, None)
  {
  }

  lemma FiledOver(table: Table, key: string, s: SessionView, o: Outcome, token: Bytes)
    ensures Filed(table[key := s], key, s, o, token) == Filed(table, key, s, o, token)
  {
    hide Rekey, Minted, KeyAfter;
    Overwritten(table, key, s, Minted(s, o, token));
  }

  lemma ServedDatagram(server: Server, settings: Settings, before: Table, req: Incoming, token: Bytes)
    requires !req.Dropped()
    ensures var key := KeyFor(req);
            var s0 := Mirrored(SessionAt(settings, before, key), req.authenticator);
            var (s, handled) := Spec.Route(server, s0, req.Caller(), req.Eap());
            Spec.HandleDatagram(server, settings, before, req, token)
            == if handled.Err? then (before[key := s], None)
               else (Filed(before, key, s, handled.value, token),
                     Some(ReplyFor(Minted(s, handled.value, token), handled.value)))
  {
    hide Spec.Route, Filed, ReplyFor;
    var s0 := Mirrored(SessionAt(settings, before, KeyFor(req)), req.authenticator);
    var handled := Spec.Route(server, s0, req.Caller(), req.Eap()).1;
    assert handled.Ok? || handled.Err?;
  }
}
