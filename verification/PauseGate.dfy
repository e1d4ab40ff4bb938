/**
 Pausing one service (chainsynker/coordinator.go; processors/trade/coordinator.go
 is the case of a single chain): a command thread that raises or lowers a flag and
 waits for every chain's status, and one handler per chain that passes a gate
 before it processes a block. Every read of the flag and every write of a status
 is a step of its own, and steps interleave freely.
 */
module PauseGate {

  type Chain = int

  /** "pause" and "resume". */
  datatype Status = Paused | Running

  /** Where a handler is: `willPauseOperation` runs from AtGate until Past. */
  datatype Place = Outside | AtGate | SawPause | SawResume | Past

  /** What the command thread is executing. */
  datatype Command = Idle | Pausing | Resuming

  datatype Gate = Gate(flag: bool, command: Command, status: map<Chain, Status>, place: map<Chain, Place>)

  datatype Action =
    | BeginPause | FinishPause | BeginResume | FinishResume
    | Enter(chain: Chain) | ReadFlag(chain: Chain) | WriteStatus(chain: Chain) | Leave(chain: Chain)

  ghost predicate All(g: Gate, s: Status) {
    forall c :: c in g.status ==> g.status[c] == s
  }

  /** A service starts with the flag up, every status "pause" and no block in hand. */
  ghost predicate Init(g: Gate) {
    && g.flag && g.command == Idle && g.status.Keys == g.place.Keys && (exists c :: c in g.place)
    && All(g, Paused)
    && forall c :: c in g.place ==> g.place[c] == Outside
  }

  ghost predicate Enabled(g: Gate, a: Action) {
    match a
    case BeginPause => g.command == Idle
    case FinishPause => g.command == Pausing && All(g, Paused)
    case BeginResume => g.command == Idle
    case FinishResume => g.command == Resuming && All(g, Running)
    case Enter(c) => c in g.place && g.place[c] == Outside
    case ReadFlag(c) => c in g.place && g.place[c] == AtGate
    case WriteStatus(c) => c in g.place && g.place[c] in {SawPause, SawResume}
    case Leave(c) => c in g.place && g.place[c] == Past
  }

  ghost function Step(g: Gate, a: Action): Gate
    requires Enabled(g, a)
  {
    match a
    case BeginPause => g.(flag := true, command := Pausing)
    case FinishPause => g.(command := Idle)
    case BeginResume => g.(flag := false, command := Resuming)
    case FinishResume => g.(command := Idle)
    case Enter(c) => g.(place := g.place[c := AtGate])
    case ReadFlag(c) => g.(place := g.place[c := if g.flag then SawPause else SawResume])
    case WriteStatus(c) =>
      if g.place[c] == SawPause then g.(status := g.status[c := Paused], place := g.place[c := AtGate])
      else g.(status := g.status[c := Running], place := g.place[c := Past])
    case Leave(c) => g.(place := g.place[c := Outside])
  }

  ghost predicate Inv(g: Gate) {
    && g.status.Keys == g.place.Keys && (exists c :: c in g.place)
    && (g.command == Pausing ==> g.flag) && (g.command == Resuming ==> !g.flag)
    && (g.command == Idle ==> All(g, if g.flag then Paused else Running))
    && (forall c :: c in g.place ==>
          && (g.place[c] == Past ==> g.status[c] == Running)
          && (g.flag && g.status[c] == Paused ==> g.place[c] != SawResume)
          && (!g.flag && g.place[c] == SawPause ==> g.status[c] == Paused))
  }

  lemma StepKeepsInv(g: Gate, a: Action)
    requires Inv(g) && Enabled(g, a)
    ensures Inv(Step(g, a))
  {
    var c :| c in g.place;
    assert c in Step(g, a).place;
  }

  /** Every state a sequence of steps can lead to. */
  ghost predicate IsRun(g: Gate, actions: seq<Action>, last: Gate)
    decreases |actions|
  {
    if actions == [] then last == g
    else Enabled(g, actions[0]) && IsRun(Step(g, actions[0]), actions[1..], last)
  }

  lemma {:induction false} RunKeepsInv(g: Gate, actions: seq<Action>, last: Gate)
    requires Inv(g) && IsRun(g, actions, last)
    ensures Inv(last)
    decreases |actions|
  {
    if actions != [] {
      StepKeepsInv(g, actions[0]);
      RunKeepsInv(Step(g, actions[0]), actions[1..], last);
    }
  }

  /** Acknowledged a pause, and no resume begun since: what the service is also taken to be when it starts. */
  ghost predicate PauseInForce(g: Gate) {
    g.command == Idle && g.flag
  }

  /** At or before the gate, without having seen the flag lowered. */
  ghost predicate Parked(g: Gate, c: Chain) {
    c in g.place && g.place[c] !in {SawResume, Past}
  }

  /**
   In every interleaving of any number of chains: from the acknowledgement of a
   pause until the next command begins, every handler is parked.
   */
  lemma NoHandlerPastGate(init: Gate, actions: seq<Action>, last: Gate)
    requires Init(init) && IsRun(init, actions, last) && PauseInForce(last)
    ensures forall c :: c in last.place ==> Parked(last, c)
  {
    RunKeepsInv(init, actions, last);
  }

  /** Nor does any step of a handler, or of another pause, let one through: only a resume does. */
  lemma ParkedUntilResume(g: Gate, a: Action)
    requires Inv(g) && g.flag && All(g, Paused) && Enabled(g, a) && a != BeginResume
    ensures Step(g, a).flag && All(Step(g, a), Paused)
    ensures forall c :: c in g.place ==> Parked(Step(g, a), c)
  {
    StepKeepsInv(g, a);
  }

  lemma {:induction false} StaysParked(g: Gate, actions: seq<Action>, last: Gate)
    requires Inv(g) && g.flag && All(g, Paused) && IsRun(g, actions, last) && BeginResume !in actions
    ensures Inv(last) && last.flag && All(last, Paused)
    decreases |actions|
  {
    hide Inv, All, Enabled, Step;
    if actions != [] {
      assert actions[0] in actions;
      ParkedUntilResume(g, actions[0]);
      StepKeepsInv(g, actions[0]);
      StaysParked(Step(g, actions[0]), actions[1..], last);
    }
  }

  /**
   So along every run, from the acknowledgement of a pause until a resume begins,
   whatever else the command thread is given, every handler is parked.
   */
  lemma ParkedFromAcknowledgement(init: Gate, before: seq<Action>, acknowledged: Gate, after: seq<Action>, last: Gate)
    requires Init(init) && IsRun(init, before, acknowledged) && PauseInForce(acknowledged)
    requires IsRun(acknowledged, after, last) && BeginResume !in after
    ensures forall c :: c in last.place ==> Parked(last, c)
  {
    RunKeepsInv(init, before, acknowledged);
    StaysParked(acknowledged, after, last);
  }

  /** What the command thread answers to "get": "resume" if any chain has resumed. */
  ghost function Report(g: Gate): Status {
    if exists c :: c in g.status && g.status[c] == Running then Running else Paused
  }

  /** Between commands the answer says which command was carried out last. */
  lemma ReportIsExact(g: Gate)
    requires Inv(g) && g.command == Idle
    ensures Report(g) == if g.flag then Paused else Running
  {
    var c :| c in g.place;
    assert c in g.status;
  }
}
