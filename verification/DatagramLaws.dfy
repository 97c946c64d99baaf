/**
 What one datagram does, in the terms of the wire: which are served, what is asked of the server on their
 behalf, and what goes back to the NAS; against any auth server whatever.
 */
module DatagramLaws {
  import opened Prelude
  import opened Octets
  import opened EapTls
  import opened Radius
  import opened SessionState
  import opened MediatorSpec
  import opened DownstreamSpec
  import opened ServerLegLaws
  import opened VerdictLaws
  import opened DownstreamLaws

  /** An Access-Request with an EAP-Message and a good Message-Authenticator. */
  predicate Servable(req: Incoming) {
    req.code == 1 && req.eapMessages != [] && req.authentic
  }

  /**
   Any other datagram changes nothing and draws no reply. A servable one draws a reply if and only if its packet
   is handled without an exception, and after an exception its session stays as the exception left it.
   */
  lemma ServedExactly(server: Server, settings: Settings, table: Table, req: Incoming, token: Bytes)
    ensures var (table', reply) := HandleDatagram(server, settings, table, req, token);
            if !Servable(req) then table' == table && reply.None?
            else
              var (s, handled) := Route(server, Subject(settings, table, req), req.Caller(), req.Eap());
              && (reply.Some? <==> handled.Ok?)
              && (handled.Err? ==> table' == table[KeyFor(req) := s])
  {
    hide Route, KeyFor, Filed, ReplyFor, Minted;
    var handled := Route(server, Subject(settings, table, req), req.Caller(), req.Eap()).1;
    assert handled.Ok? || handled.Err?;
  }

  /**
   The reply: an Access-Accept, Access-Reject or Access-Challenge, the first two just when the session has
   accepted or been rejected. It has a State if and only if it is a challenge, which is the one the session had
   or, if it had none, the fresh token. It has key blobs only as an Access-Accept, and then those of the session.
   */
  lemma ReplyFields(server: Server, settings: Settings, table: Table, req: Incoming, token: Bytes)
    requires TableAtRest(table, settings)
    ensures var reply := HandleDatagram(server, settings, table, req, token).1;
            var before, t := Subject(settings, table, req), Concluded(server, settings, table, req);
            reply.Some? ==>
              var out := reply.value;
              && out.code == (match t.result case Some(Accepted) => 2 case Some(Rejected) => 3 case None => 11)
              && out.state == (if out.code != 11 then None
                               else if before.downstreamState.Some? then before.downstreamState else Some(token))
              && out.msMppeSendKey == (if out.code == 2 then t.server.msMppeSendKey else None)
              && out.msMppeRecvKey == (if out.code == 2 then t.server.msMppeRecvKey else None)
  {
    hide Route, KeyFor, Filed, TableAtRest, AtRest, SplitEap;
    var s0 := Subject(settings, table, req);
    SubjectIsSound(settings, table, req);
    SubjectIsUnread(settings, table, req);
    SubjectIsFaithful(settings, table, req);
    EveryRouteIsSound(server, s0, req.Caller(), req.Eap());
    var (s, handled) := Route(server, s0, req.Caller(), req.Eap());
    assert s.result.Some? ==> s.result.value.Accepted? || s.result.value.Rejected?;
  }

  lemma SubjectIsFaithful(settings: Settings, table: Table, req: Incoming)
    requires TableAtRest(table, settings)
    ensures Subject(settings, table, req).result.None? && Faithful(Subject(settings, table, req).server)
  {
    hide Faithful;
    SubjectIsSound(settings, table, req);
  }

  /**
   Every request that a datagram makes of the server bears the datagram's authenticator and user name, and each
   station identifier that the datagram names, none that it does not.
   */
  lemma RequestsSpeakForTheDatagram(server: Server, settings: Settings, table: Table, req: Incoming)
    requires TableAtRest(table, settings)
    ensures var before, leg := Subject(settings, table, req).server, Concluded(server, settings, table, req).server;
            && before.requests <= leg.requests
            && forall i :: |before.requests| <= i < |leg.requests| ==>
                 var request := leg.requests[i];
                 && request.authenticator == Some(req.authenticator) && request.username == req.username
                 && PassedOn(request.calling, req.calling) && PassedOn(request.called, req.called)
  {
    hide Route, TableAtRest, Faithful, KeyFor;
    var s0 := Subject(settings, table, req);
    SubjectIsSound(settings, table, req);
    SubjectIsFaithful(settings, table, req);
    EveryRouteIsSound(server, s0, req.Caller(), req.Eap());
    var leg := Concluded(server, settings, table, req).server;
    forall i | |s0.server.requests| <= i < |leg.requests| ensures SentFor(leg.requests[i], s0.server, req.Caller()) {
    }
  }

  /** The first request of a new session that has no Request to echo has Identifier 1. */
  lemma FirstIdentifierIsOne(server: Server, settings: Settings, table: Table, req: Incoming)
    requires KeyFor(req) !in table && settings.mode.Reassemble? && IsTls(req.Eap())
    ensures var leg := Concluded(server, settings, table, req).server;
            leg.requests != [] ==> |leg.requests[0].Eap()| >= 2 && leg.requests[0].Eap()[1] == 1
  {
    hide HandleSupplicantEap, KeyFor, ConcatEap;
    var s0 := Subject(settings, table, req);
    assert s0.server.requests == [] && s0.server.answers == [] && s0.server.nextId == 0;
    HandlerIsFaithful(server, s0, req.Caller(), req.Eap());
    var leg := Concluded(server, settings, table, req).server;
    if leg.requests != [] {
      assert Echoes(s0.server, leg, 0);
      assert leg.answers[..0] == [];
    }
  }

  // ---- Relaying -----------------------------------------------------------

  /** An EAP-TLS packet by its type octet. */
  predicate IsTls(eap: Bytes) {
    |eap| >= 5 && eap[4] == 13
  }

  /** The EAP octets of an answer, none if it has no EAP. */
  function EapOf(answer: Answer): Bytes {
    match answer.Eap()
    case Some(eap) => eap
    case None => []
  }

  lemma ReplyCarriesEap(s: SessionView, o: Outcome)
    ensures Join(ReplyFor(s, o).eapMessages) == if o.eap.Some? then o.eap.value else []
  {
    if o.eap.Some? && o.eap.value != [] {
      ChunksCutExactly(o.eap.value, MAX_VALUE);
    }
  }

  /** A malformed EAP-TLS packet, in either mode: no request, no reply, and nothing but the authenticator is noted. */
  lemma MalformedIsIgnored(server: Server, settings: Settings, table: Table, req: Incoming, token: Bytes)
    requires Servable(req) && IsTls(req.Eap()) && Parse(req.Eap()).Err?
    ensures HandleDatagram(server, settings, table, req, token)
         == (table[KeyFor(req) := Subject(settings, table, req)], None)
  {
    hide HandleSupplicantEap, Parse, KeyFor;
    MalformedIsRefused(server, Subject(settings, table, req), req.Caller(), req.Eap());
  }

  /** What relaying one packet does to a session, whatever the server answers. */
  predicate Relayed(s: SessionView, t: SessionView, eap: Bytes) {
    var n, tls := |s.server.requests|, IsTls(eap);
    && |t.server.requests| == |t.server.answers| == n + 1 && s.server.requests <= t.server.requests
    && t.server.requests[n].Eap() == eap
    && t == s.(server := t.server, supplicant := t.supplicant, up := t.up, down := t.down, result := t.result)
    && t.supplicant == (if tls then s.supplicant.(nextId := eap[1]) else s.supplicant)
    && t.up == (if tls then AddMetrics(s.up, Metrics(1, 1, 0, 0)) else s.up)
    && match t.server.answers[n]
       case None => t.result == s.result && t.down == s.down
       case Some(answer) =>
         && t.result == (if answer.code == 2 then Some(Accepted) else if answer.code == 3 then Some(Rejected) else s.result)
         && t.down == (if tls && t.result == s.result && answer.Eap().Some? then AddMetrics(s.down, Metrics(0, 1, 0, 0))
                       else s.down)
  }

  lemma RelayRoute(server: Server, s: SessionView, caller: Caller, eap: Bytes)
    requires s.settings.mode.Passthrough? || !IsTls(eap)
    requires Aligned(s.server) && s.result.None? && (IsTls(eap) ==> Parse(eap).Ok?)
    ensures var (t, handled) := Route(server, s, caller, eap);
            && Relayed(s, t, eap)
            && var answer := t.server.answers[|s.server.answers|];
            && (handled.Ok? <==> answer.Some?)
            && (handled.Ok? ==>
                  (if handled.value.eap.Some? then handled.value.eap.value else [])
                  == if answer.value.code == 3 && IsTls(eap) then [] else EapOf(answer.value))
  {
    hide Parse, ConcatEap, Exchange;
    ExchangeLogs(server, s.server, caller, eap);
    if IsTls(eap) {
      ParseReads(eap);
    }
  }

  /**
   Relaying, octet for octet, against any server: in passthrough mode every packet, and in either mode every packet
   that is not EAP-TLS. A servable datagram makes one request with the very EAP packet that came, and is replied
   to if and only if the server answers; the code is the verdict's, or Access-Challenge, and the EAP packet of the
   answer goes back as it is, save that of an Access-Reject to an EAP-TLS packet, which is dropped.
   */
  lemma RelayIsExact(server: Server, settings: Settings, table: Table, req: Incoming, token: Bytes)
    requires TableAtRest(table, settings) && Servable(req)
    requires settings.mode.Passthrough? || !IsTls(req.Eap())
    requires IsTls(req.Eap()) ==> Parse(req.Eap()).Ok?
    ensures var reply := HandleDatagram(server, settings, table, req, token).1;
            var before, t := Subject(settings, table, req), Concluded(server, settings, table, req);
            && Relayed(before, t, req.Eap())
            && var answer := t.server.answers[|before.server.answers|];
            && (reply.Some? <==> answer.Some?)
            && (reply.Some? ==>
                  && reply.value.code == (if answer.value.code in [2, 3] then answer.value.code else 11)
                  && Join(reply.value.eapMessages)
                  == if answer.value.code == 3 && IsTls(req.Eap()) then [] else EapOf(answer.value))
  {
    hide Parse, ConcatEap, SplitEap, Route, KeyFor, TableAtRest, AtRest;
    var s0 := Subject(settings, table, req);
    SubjectIsSound(settings, table, req);
    SubjectIsUnread(settings, table, req);
    RelayRoute(server, s0, req.Caller(), req.Eap());
    ReplyFields(server, settings, table, req, token);
    ServedExactly(server, settings, table, req, token);
    var (s, handled) := Route(server, s0, req.Caller(), req.Eap());
    if handled.Ok? {
      ReplyCarriesEap(Minted(s, handled.value, token), handled.value);
    }
  }

  // ---- The clock ----------------------------------------------------------

  /**
   A sweep takes exactly the overdue sessions without a result, which in a table at rest are all the overdue ones,
   and touches no other.
   */
  lemma SweepIsExact(settings: Settings, table: Table, overdue: set<string>)
    ensures var swept := DownstreamLaws.After(settings, table, Reap(overdue));
            && (forall key :: key in swept <==> key in table && (key !in overdue || table[key].result.Some?))
            && (forall key :: key in swept ==> swept[key] == table[key])
            && (TableAtRest(table, settings) ==> forall key :: key in swept <==> key in table && key !in overdue)
  {
    hide AtRest;
    if TableAtRest(table, settings) {
      forall key | key in table ensures table[key].result.None? {
        RestsWithoutResult(key, table[key], settings);
      }
    }
  }

  lemma RestsWithoutResult(key: string, s: SessionView, settings: Settings)
    requires AtRest(key, s, settings)
    ensures s.result.None?
  {
  }
}
