/**
 A scenario that meets every condition of the theorems on whole runs, worked through in both modes:
 two messages each cut in two, and a verdict.
 */
module Example {
  import opened Prelude
  import opened Octets
  import opened SessionState
  import opened Endpoints
  import opened Authentication
  import opened Transparency
  import opened ProxyRun

  const HELLO := [Frag([1], Some(2)), Frag([2], None)]
  const FLIGHT := [Frag([3], None), Frag([4], None)]

  function ClientSays(heard: seq<Bytes>): Act {
    if heard == [] then Say(HELLO) else Quiet
  }

  function ServerSays(said: seq<Option<Bytes>>): Turn {
    if |said| == 1 then Flight(FLIGHT) else Close(Accepted)
  }

  const STACKS := Tls(heard => ActMeans(ClientSays(heard)), said => TurnMeans(ServerSays(said)))

  function Case(mode: Mode): Scenario {
    Scenario(heard => ClientSays(heard), said => ServerSays(said), n => n % 0x100, n => Some([5]),
             Settings(mode, 1000, 1, 4096), Caller("alice", Some("00-11-22-33-44-55"), None), [2, 0, 0, 5, 1],
             n => [], 300, 10)
  }

  lemma Contents()
    ensures Content(HELLO) == [1, 2] && Content(FLIGHT) == [3, 4]
    ensures WellCut(HELLO, 300) && WellCut(FLIGHT, 300) && WithinLimit(HELLO, 4096) && WithinLimit(FLIGHT, 4096)
  {
    assert Payloads(HELLO) == [[1], [2]] && Payloads(FLIGHT) == [[3], [4]];
    assert Join([[1], [2]]) == [1] + Join([[2]]) && Join([[2]]) == [2] + Join([]);
    assert Join([[3], [4]]) == [3] + Join([[4]]) && Join([[4]]) == [4] + Join([]);
  }

  /** Both ends cut properly, and run the same stacks in either mode. */
  lemma CaseIsSound(mode: Mode)
    ensures Sound(Case(mode)) && Runs(Case(mode), STACKS)
  {
    Contents();
  }

  const AFTER_ONE := Dialogue([Some([1, 2])], [[3, 4]], None)
  const DIALOGUE := Dialogue([Some([1, 2]), None], [[3, 4]], Some(Accepted))

  lemma StacksWorkedThrough()
    ensures Ideal(STACKS, 0) == START && Ideal(STACKS, 1) == AFTER_ONE && Ideal(STACKS, 2) == DIALOGUE
  {
    Contents();
    assert Ideal(STACKS, 1) == AFTER_ONE;
  }

  lemma TurnsWorkedThrough(mode: Mode)
    requires Sound(Case(mode))
    ensures TurnBill(Case(mode), START).exchanges == if mode.Reassemble? then 2 else 3
    ensures TurnBill(Case(mode), AFTER_ONE).exchanges == 1
  {
    hide Content, Sound, R.TurnBill, ChunkCount;
    var sc := Case(mode);
    Contents();
    ActsWorkedThrough(mode);
    if mode.Reassemble? {
      R.TurnBillCosts(sc, START);
      R.TurnBillCosts(sc, AFTER_ONE);
      assert ChunkCount(2, 1000) == 1 by { ChunkCountIsCeiling(2, 1000); }
    }
  }

  lemma ActsWorkedThrough(mode: Mode)
    ensures var sc := Case(mode);
            && sc.client(START.heard) == Say(HELLO)
            && sc.serve(START.said + [Some(Content(HELLO))]) == Flight(FLIGHT)
            && sc.client(AFTER_ONE.heard) == Quiet
            && sc.serve(AFTER_ONE.said + [None]) == Close(Accepted)
  {
    hide Content;
  }

  lemma CaseTotals(mode: Mode)
    requires Sound(Case(mode)) && Runs(Case(mode), STACKS)
    ensures Total(Case(mode), 2).exchanges == if mode.Reassemble? then 3 else 4
  {
    hide Sound, Runs, TurnBill, Ideal, NextDialogue, DialogueOf;
    StacksWorkedThrough();
    TurnsWorkedThrough(mode);
    DialogueIsIdeal(Case(mode), STACKS, 0);
    DialogueIsIdeal(Case(mode), STACKS, 1);
  }

  /** What a run of it takes: four round trips in reassemble mode against five in passthrough. */
  lemma CaseWorkedThrough(mode: Mode, key: string)
    ensures Sound(Case(mode))
    ensures var end := Authenticate(Case(mode), key, Datagrams(Case(mode), 2));
            && end.Some?
            && end.value.peer.heard == [[3, 4]] && end.value.peer.verdict == Some(Accepted)
            && end.value.session.server.roundTrips == if mode.Reassemble? then 4 else 5
  {
    hide Sound, Runs, Authenticate, Datagrams, Total, Ideal;
    CaseIsSound(mode);
    CaseTotals(mode);
    StacksWorkedThrough();
    AuthenticationIsIdeal(Case(mode), STACKS, key, 2);
  }

  /** So it goes through the proxy in either mode. */
  lemma CaseGoesThrough(mode: Mode, nas: Nas, around: Around)
    requires Alone(around)
    ensures Sound(Case(mode))
    ensures var sc := Case(mode);
            var end := Conversation(sc, nas, map[], around, Datagrams(sc, 2));
            end.Some? && end.value.peer.heard == [[3, 4]] && end.value.peer.verdict == Some(Accepted)
  {
    hide Sound, Runs, Conversation, Datagrams, Total, Ideal;
    CaseIsSound(mode);
    CaseTotals(mode);
    StacksWorkedThrough();
    LoneAuthenticationIsIdeal(Case(mode), STACKS, nas, around, 2);
  }
}
