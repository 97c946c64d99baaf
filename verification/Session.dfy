/** The `Session` object of proxy/session.py. */
module Sessions {
  import opened Prelude
  import opened Octets
  import opened SessionState
  import opened Reassemblers

  class Session {
    var key: string
    const settings: Settings
    var radiusState: Option<Bytes>
    var downstreamState: Option<Bytes>
    var msMppeSendKey: Option<Bytes>
    var msMppeRecvKey: Option<Bytes>
    var lastApAuthenticator: Option<Bytes>
    var upstreamLastEapReqId: Option<byte>
    var downLastReqId: Option<byte>
    const upReasm: Reassembler
    const downReasm: Reassembler
    var downOutbox: seq<(nat, Bytes)>
    var downTotal: nat
    var downNchunks: nat
    var upNextId: byte
    var downNextId: byte
    var up: Metrics
    var down: Metrics
    var upstreamRoundTrips: nat
    var result: Option<Verdict>
    var pendingSuccess: Option<Bytes>
    var pendingFailure: Option<Bytes>
    // The conversation with the auth server so far, kept to state what it promises.
    var requests: seq<Request>
    var answers: seq<Option<Answer>>

    ghost function Repr(): set<object> {
      {this, upReasm, downReasm}
    }

    /** The two directions share nothing, and each reassembler got the session's limit. */
    ghost predicate Valid() {
      && upReasm != downReasm
      && upReasm.maxMessageLen == downReasm.maxMessageLen == settings.maxMessageLen
    }

    /** Two sessions share no object. */
    ghost predicate Apart(other: Session) {
      && this != other
      && upReasm != other.upReasm && upReasm != other.downReasm
      && downReasm != other.upReasm && downReasm != other.downReasm
    }

    ghost function View(): SessionView
      reads Repr()
    {
      SessionView(
        key, settings, downstreamState, ServerView(), SupplicantView(),
        upReasm.View(), downReasm.View(), up, down, result, pendingSuccess, pendingFailure)
    }

    ghost function ServerView(): ServerLeg
      reads this
    {
      ServerLeg(radiusState, upstreamLastEapReqId, upNextId, msMppeSendKey, msMppeRecvKey,
                lastApAuthenticator, upstreamRoundTrips, requests, answers)
    }

    ghost function SupplicantView(): SupplicantLeg
      reads this
    {
      SupplicantLeg(downLastReqId, downNextId, downOutbox, downTotal, downNchunks)
    }

    constructor (key: string, settings: Settings)
      ensures Valid() && fresh(Repr())
      ensures View() == NewSession(key, settings) && this.key == key && this.settings == settings
    {
      this.key, this.settings := key, settings;
      radiusState, downstreamState, msMppeSendKey, msMppeRecvKey := None, None, None, None;
      lastApAuthenticator, upstreamLastEapReqId, downLastReqId := None, None, None;
      downOutbox, downTotal, downNchunks := [], 0, 0;
      upNextId, downNextId, upstreamRoundTrips := 0, 0, 0;
      result, pendingSuccess, pendingFailure := None, None, None;
      requests, answers := [], [];
      up, down := NO_METRICS, NO_METRICS;
      upReasm := new Reassembler(settings.maxMessageLen);
      downReasm := new Reassembler(settings.maxMessageLen);
    }

    method NextDownId() returns (id: byte)
      modifies `downNextId
      ensures id == downNextId == NextId(old(downNextId))
    {
      downNextId := (downNextId + 1) % 0x100;
      return downNextId;
    }

    method NextUpId() returns (id: byte)
      modifies `upNextId
      ensures id == upNextId == NextId(old(upNextId))
    {
      upNextId := (upNextId + 1) % 0x100;
      return upNextId;
    }

    method Finish(verdict: Verdict)
      modifies `result
      ensures result == Some(verdict)
    {
      result := Some(verdict);
    }

    /** `self.key = key`, done by the table when it rekeys. */
    method SetKey(key: string)
      modifies `key
      ensures View() == old(View()).(key := key) && this.key == key
    {
      this.key := key;
    }
  }
}
