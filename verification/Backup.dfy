/**
 The backup coordinator (coordinator/coordinator.go and coordinator/api.go) and the
 services it pauses, as interleaved steps. Commands and status messages travel
 over one FIFO link each way per service; no service joins or leaves during a run.

 Backups are numbered, so that two requests that overlap can be told apart. The
 coordinator keeps a single backup context; `contextSet` is what `backupContext != nil` reads.
 */
module Backup {
  import opened PauseGate

  type Id = nat

  datatype Cmd = Pause | Resume | Get

  /** A service, its entry in the coordinator and the two links between them. */
  datatype Service = Service(gate: Gate, isPause: bool, inbox: seq<Cmd>, outbox: seq<Status>)

  /** startBackup: checking and pausing in turns, dumping, resuming. */
  datatype Phase =
    | Check(todo: set<Id>)
    | SendPause(todo: set<Id>)
    | Dump
    | ResumeAll(todo: set<Id>, quiet: bool)

  /** The main loop of StartCoordinator; it resumes services under the read lock of the backup context. */
  datatype Main = Sleep | SendGet(todo: set<Id>) | MainResume(todo: set<Id>, quiet: bool)

  datatype State = State(
    services: map<Id, Service>, required: set<Id>,
    contextSet: bool, backups: map<nat, Phase>, main: Main)

  datatype Action =
    // a service: a step of its gate, the next command, the next status message read by the coordinator
    | Handler(id: Id, step: PauseGate.Action) | NextCommand(id: Id) | Deliver(id: Id)
    // the main loop
    | Wake | AskStatus(id: Id) | Decide | MainPass(id: Id) | MainPassEnd
    // a backup: its request, the scan of IsPause flags, the pause messages, the dump, the resume loop
    | Request(b: nat) | Scan(b: nat, id: Id) | ScanEnd(b: nat) | Tell(b: nat, id: Id) | TellEnd(b: nat)
    | DumpDone(b: nat) | Cancelled(b: nat) | Pass(b: nat, id: Id) | PassEnd(b: nat)

  /** Nothing has been sent, and the coordinator takes the services a backup needs to be paused. */
  ghost predicate Quiet(s: State) {
    && !s.contextSet && s.backups == map[] && s.main == Sleep && s.required <= s.services.Keys
    && forall id :: id in s.required && id in s.services ==>
         s.services[id].isPause && s.services[id].inbox == [] && s.services[id].outbox == []
  }

  /** And they have started paused; the others are free. */
  ghost predicate Init(s: State) {
    Quiet(s) && forall id :: id in s.required && id in s.services ==> PauseGate.Init(s.services[id].gate)
  }

  ghost predicate HandlerStep(a: PauseGate.Action) {
    a.Enter? || a.ReadFlag? || a.WriteStatus? || a.Leave?
  }

  /** A service's command thread takes the first message when it is idle, and otherwise finishes the one in hand. */
  ghost predicate CommandEnabled(v: Service) {
    if v.gate.command == Idle then v.inbox != []
    else Enabled(v.gate, if v.gate.command == Pausing then FinishPause else FinishResume)
  }

  ghost function CommandStep(v: Service): Service
    requires CommandEnabled(v)
  {
    match v.gate.command
    case Pausing => v.(gate := Step(v.gate, FinishPause), outbox := v.outbox + [Paused])
    case Resuming => v.(gate := Step(v.gate, FinishResume), outbox := v.outbox + [Running])
    case Idle =>
      match v.inbox[0]
      case Pause => v.(gate := Step(v.gate, BeginPause), inbox := v.inbox[1..])
      case Resume => v.(gate := Step(v.gate, BeginResume), inbox := v.inbox[1..])
      case Get => v.(outbox := v.outbox + [Report(v.gate)], inbox := v.inbox[1..])
  }

  ghost predicate InPhase(s: State, b: nat, ok: Phase -> bool) {
    b in s.backups && ok(s.backups[b])
  }

  /** `exclusive` is whether a request is only taken when no backup is running when the context is set. */
  ghost predicate CanAct(s: State, a: Action, exclusive: bool) {
    match a
    case Handler(id, step) => id in s.services && HandlerStep(step) && Enabled(s.services[id].gate, step)
    case NextCommand(id) => id in s.services && CommandEnabled(s.services[id])
    case Deliver(id) => id in s.services && s.services[id].outbox != []
    case Wake => s.main == Sleep
    case AskStatus(id) => s.main.SendGet? && id in s.main.todo && id in s.services
    case Decide => s.main == SendGet({})
    case MainPass(id) => s.main.MainResume? && id in s.main.todo && id in s.services
    case MainPassEnd => s.main.MainResume? && s.main.todo == {}
    case Request(b) => !s.main.MainResume? && b !in s.backups && (exclusive ==> !s.contextSet)
    case Scan(b, id) => InPhase(s, b, (p: Phase) => p.Check? && id in p.todo) && id in s.services
    case ScanEnd(b) => InPhase(s, b, (p: Phase) => p == Check({}))
    case Tell(b, id) => InPhase(s, b, (p: Phase) => p.SendPause? && id in p.todo) && id in s.services
    case TellEnd(b) => InPhase(s, b, (p: Phase) => p == SendPause({}))
    case DumpDone(b) => InPhase(s, b, (p: Phase) => p == Dump)
    case Cancelled(b) => InPhase(s, b, (p: Phase) => p == Dump)
    case Pass(b, id) => InPhase(s, b, (p: Phase) => p.ResumeAll? && id in p.todo) && id in s.services
    case PassEnd(b) => InPhase(s, b, (p: Phase) => p.ResumeAll? && p.todo == {})
  }

  ghost function Send(s: State, id: Id, c: Cmd): State
    requires id in s.services
  {
    var v := s.services[id];
    s.(services := s.services[id := v.(inbox := v.inbox + [c])])
  }

  ghost function EndBackup(s: State, b: nat): State {
    s.(backups := s.backups - {b}, contextSet := false)
  }

  ghost function Act(s: State, a: Action, exclusive: bool): State
    requires CanAct(s, a, exclusive)
  {
    match a
    case Handler(id, step) =>
      var v := s.services[id];
      s.(services := s.services[id := v.(gate := Step(v.gate, step))])
    case NextCommand(id) => s.(services := s.services[id := CommandStep(s.services[id])])
    case Deliver(id) =>
      var v := s.services[id];
      s.(services := s.services[id := v.(isPause := v.outbox[0] == Paused, outbox := v.outbox[1..])])
    case Wake => s.(main := SendGet(s.services.Keys))
    case AskStatus(id) => Send(s, id, Get).(main := SendGet(s.main.todo - {id}))
    case Decide => s.(main := if s.contextSet then Sleep else MainResume(s.services.Keys, true))
    case MainPass(id) =>
      if !s.services[id].isPause then s.(main := MainResume(s.main.todo - {id}, s.main.quiet))
      else Send(s, id, Resume).(main := MainResume(s.main.todo - {id}, false))
    case MainPassEnd => s.(main := if s.main.quiet then Sleep else MainResume(s.services.Keys, true))
    case Request(b) => s.(contextSet := true, backups := s.backups[b := Check(s.required)])
    case Scan(b, id) =>
      var p := if s.services[id].isPause then Check(s.backups[b].todo - {id}) else SendPause(s.required);
      s.(backups := s.backups[b := p])
    case ScanEnd(b) => s.(backups := s.backups[b := Dump])
    case Tell(b, id) => Send(s, id, Pause).(backups := s.backups[b := SendPause(s.backups[b].todo - {id})])
    case TellEnd(b) => s.(backups := s.backups[b := Check(s.required)])
    case DumpDone(b) => s.(backups := s.backups[b := ResumeAll(s.services.Keys, true)])
    case Cancelled(b) => EndBackup(s, b)
    case Pass(b, id) =>
      var p := s.backups[b];
      if !s.services[id].isPause then s.(backups := s.backups[b := ResumeAll(p.todo - {id}, p.quiet)])
      else Send(s, id, Resume).(backups := s.backups[b := ResumeAll(p.todo - {id}, false)])
    case PassEnd(b) =>
      if s.backups[b].quiet then EndBackup(s, b)
      else s.(backups := s.backups[b := ResumeAll(s.services.Keys, true)])
  }

  /** While a backup dumps, every handler of every required service is parked. */
  ghost predicate Safe(s: State) {
    forall b, id, c ::
      (b in s.backups && s.backups[b] == Dump && id in s.required && id in s.services
       && c in s.services[id].gate.place) ==> Parked(s.services[id].gate, c)
  }

  // ---------- one service and its links ----------

  /** The coordinator's view of a service, from the newest value it holds to the last message on its way. */
  ghost function View(v: Service): seq<Status> {
    [if v.isPause then Paused else Running] + v.outbox
  }

  ghost predicate NoneBefore<T>(s: seq<T>, a: T, b: T) {
    forall i, j :: 0 <= i < j < |s| && s[i] == a ==> s[j] != b
  }

  /** Nothing but pauses on the way, and paused; or nothing but resumes, and not. */
  ghost predicate Uniform(v: Service) {
    && Inv(v.gate)
    && if v.gate.flag then Resume !in v.inbox && Running !in View(v) && All(v.gate, Paused)
       else Pause !in v.inbox && Paused !in View(v)
  }

  /** While a backup scans and sends pauses: what says "pause" is behind every resume, and is true. */
  ghost predicate Pausable(v: Service) {
    && Inv(v.gate)
    && NoneBefore(v.inbox, Pause, Resume) && (Resume in v.inbox ==> !v.gate.flag)
    && NoneBefore(View(v), Paused, Running)
    && (Paused in View(v) ==> v.gate.flag && All(v.gate, Paused))
  }

  /** While services are being resumed: what says "resume" is behind every pause. */
  ghost predicate Resumable(v: Service) {
    && Inv(v.gate)
    && NoneBefore(v.inbox, Resume, Pause) && (!v.gate.flag ==> Pause !in v.inbox)
    && NoneBefore(View(v), Running, Paused)
    && (Running in View(v) ==> !v.gate.flag)
  }

  lemma UniformImplies(v: Service)
    requires Uniform(v)
    ensures Pausable(v) && Resumable(v)
  {
  }

  /** A service that is taken to be paused and is fit to be paused is paused. */
  lemma PausableAndPaused(v: Service)
    requires Pausable(v) && v.isPause
    ensures Uniform(v) && v.gate.flag
  {
    assert View(v)[0] == Paused;
    assert forall i :: 0 < i < |View(v)| ==> View(v)[i] != Running;
  }

  /** A service that is taken to be resumed, after resumes have been sent, is resumed. */
  lemma ResumableAndResumed(v: Service)
    requires Resumable(v) && !v.isPause
    ensures Uniform(v) && !v.gate.flag
  {
    assert View(v)[0] == Running;
    assert forall i :: 0 < i < |View(v)| ==> View(v)[i] != Paused;
  }

  // ---------- steps of a service ----------

  ghost predicate IsReport(v: Service, v': Service) {
    && v'.gate.flag == v.gate.flag && v'.gate.status == v.gate.status && v'.isPause == v.isPause
    && (v'.inbox == v.inbox || (v.inbox != [] && v'.inbox == v.inbox[1..]))
    && All(v.gate, if v.gate.flag then Paused else Running)
    && v'.outbox == v.outbox + [if v.gate.flag then Paused else Running]
  }

  ghost predicate IsTake(v: Service, v': Service, c: Cmd) {
    && v.inbox != [] && v.inbox[0] == c && v'.inbox == v.inbox[1..]
    && v'.gate.flag == (c == Pause) && v'.gate.status == v.gate.status
    && v'.isPause == v.isPause && v'.outbox == v.outbox
  }

  lemma CommandKinds(v: Service)
    requires Inv(v.gate) && CommandEnabled(v)
    ensures var v' := CommandStep(v); Inv(v'.gate) && (IsReport(v, v') || IsTake(v, v', Pause) || IsTake(v, v', Resume))
  {
    if v.gate.command == Idle {
      ReportIsExact(v.gate);
      if v.inbox[0] == Pause { StepKeepsInv(v.gate, BeginPause); }
      if v.inbox[0] == Resume { StepKeepsInv(v.gate, BeginResume); }
    } else if v.gate.command == Pausing {
      StepKeepsInv(v.gate, FinishPause);
    } else {
      StepKeepsInv(v.gate, FinishResume);
    }
  }

  lemma CommandKeeps(v: Service)
    requires CommandEnabled(v)
    ensures Uniform(v) ==> Uniform(CommandStep(v))
    ensures Pausable(v) ==> Pausable(CommandStep(v))
    ensures Resumable(v) ==> Resumable(CommandStep(v))
  {
    if Inv(v.gate) {
      var v' := CommandStep(v);
      CommandKinds(v);
      if IsReport(v, v') {
        ReportKeeps(v, v');
      } else if IsTake(v, v', Pause) {
        TakeKeeps(v, v', Pause);
      } else {
        TakeKeeps(v, v', Resume);
      }
    }
  }

  lemma ReportKeeps(v: Service, v': Service)
    requires IsReport(v, v') && Inv(v'.gate)
    ensures Uniform(v) ==> Uniform(v')
    ensures Pausable(v) ==> Pausable(v')
    ensures Resumable(v) ==> Resumable(v')
  {
    var r := if v.gate.flag then Paused else Running;
    assert View(v') == View(v) + [r];
    assert forall x :: x in View(v') <==> x in View(v) || x == r;
    assert forall c :: c in v'.inbox ==> c in v.inbox;
  }

  lemma TakeKeeps(v: Service, v': Service, c: Cmd)
    requires IsTake(v, v', c) && Inv(v'.gate) && c != Get
    ensures Uniform(v) ==> Uniform(v')
    ensures Pausable(v) ==> Pausable(v')
    ensures Resumable(v) ==> Resumable(v')
  {
    assert View(v') == View(v);
    assert v.inbox[0] in v.inbox;
    assert forall x :: x in v'.inbox ==> exists j :: 0 < j < |v.inbox| && v.inbox[j] == x;
  }

  lemma DeliverKeeps(v: Service)
    requires v.outbox != []
    ensures var v' := v.(isPause := v.outbox[0] == Paused, outbox := v.outbox[1..]);
      && (Uniform(v) ==> Uniform(v')) && (Pausable(v) ==> Pausable(v')) && (Resumable(v) ==> Resumable(v'))
  {
    var v' := v.(isPause := v.outbox[0] == Paused, outbox := v.outbox[1..]);
    assert View(v') == View(v)[1..];
    assert forall x :: x in View(v') ==> x in View(v);
  }

  lemma HandlerKeeps(v: Service, a: PauseGate.Action)
    requires HandlerStep(a) && Enabled(v.gate, a)
    ensures var v' := v.(gate := Step(v.gate, a));
      && (Uniform(v) ==> Uniform(v')) && (Pausable(v) ==> Pausable(v')) && (Resumable(v) ==> Resumable(v'))
  {
    var v' := v.(gate := Step(v.gate, a));
    assert View(v') == View(v);
    if Inv(v.gate) {
      StepKeepsInv(v.gate, a);
      if v.gate.flag && All(v.gate, Paused) { ParkedUntilResume(v.gate, a); }
    }
  }

  lemma SendKeeps(v: Service, c: Cmd)
    ensures var v' := v.(inbox := v.inbox + [c]);
      && (c == Get ==> (Uniform(v) ==> Uniform(v')) && (Pausable(v) ==> Pausable(v')) && (Resumable(v) ==> Resumable(v')))
      && (c == Pause && Pausable(v) ==> Pausable(v'))
      && (c == Resume && Resumable(v) ==> Resumable(v'))
  {
    var v' := v.(inbox := v.inbox + [c]);
    assert View(v') == View(v);
  }

  // ---------- the whole system ----------

  /** Of the services a backup needs; nothing is asked of the others. */
  ghost predicate Every(s: State, p: Service -> bool) {
    forall id :: id in s.required && id in s.services ==> p(s.services[id])
  }

  ghost predicate TakenPaused(s: State, ids: set<Id>) {
    forall id :: id in ids && id in s.services ==> s.services[id].isPause
  }

  ghost predicate TakenResumed(s: State, ids: set<Id>) {
    forall id :: id in ids && id in s.services ==> !s.services[id].isPause
  }

  /** What holds in each phase of the only backup there is. */
  ghost predicate PhaseInv(s: State, p: Phase) {
    match p
    case Check(todo) => FitToPause(s) && TakenPaused(s, s.required - todo)
    case SendPause(todo) => FitToPause(s) && todo <= s.required
    case Dump => Every(s, v => Uniform(v)) && TakenPaused(s, s.required)
    case ResumeAll(todo, quiet) =>
      Every(s, v => Resumable(v)) && (quiet ==> TakenResumed(s, s.required - todo))
  }

  ghost predicate FitToPause(s: State) {
    Every(s, v => Pausable(v))
  }

  ghost predicate SystemInv(s: State) {
    && s.required <= s.services.Keys
    && (s.contextSet <==> s.backups != map[])
    && (forall b, b' :: b in s.backups && b' in s.backups ==> b == b')
    && (s.main.MainResume? ==> s.backups == map[])
    && (forall b :: b in s.backups ==> PhaseInv(s, s.backups[b]))
    && (s.backups == map[] ==>
          if s.main.MainResume?
          then Every(s, v => Resumable(v)) && (s.main.quiet ==> TakenResumed(s, s.required - s.main.todo))
          else Every(s, v => Uniform(v)))
  }

  lemma InitInv(s: State)
    requires Init(s)
    ensures SystemInv(s)
  {
  }

  /** A step inside a service and its links keeps what the system relies on. */
  ghost predicate Keeps(v: Service, v': Service) {
    && (Uniform(v) ==> Uniform(v') && v'.isPause == v.isPause)
    && (Pausable(v) ==> Pausable(v') && (v.isPause ==> v'.isPause))
    && (Resumable(v) ==> Resumable(v') && (!v.isPause ==> !v'.isPause))
  }

  lemma ServiceStepKeeps(s: State, a: Action)
    requires a.Handler? || a.NextCommand? || a.Deliver?
    requires CanAct(s, a, true)
    ensures var s' := Act(s, a, true);
      && s'.services.Keys == s.services.Keys && s' == s.(services := s'.services)
      && forall id :: id in s.services ==> Keeps(s.services[id], s'.services[id])
  {
    var s' := Act(s, a, true);
    forall id | id in s.services ensures Keeps(s.services[id], s'.services[id]) {
      var v := s.services[id];
      match a
      case Handler(i, step) => if i == id { HandlerKeeps(v, step); }
      case NextCommand(i) => if i == id { CommandKeeps(v); }
      case Deliver(i) => if i == id { DeliverKeeps(v); DeliverView(v); }
    }
  }

  lemma DeliverView(v: Service)
    requires v.outbox != []
    ensures Uniform(v) ==> (v.outbox[0] == Paused <==> v.isPause)
    ensures Pausable(v) && v.isPause ==> v.outbox[0] == Paused
    ensures Resumable(v) && !v.isPause ==> v.outbox[0] == Running
  {
    assert View(v)[0] in View(v) && View(v)[1] in View(v);
    assert View(v)[1] == v.outbox[0];
  }

  lemma ServiceStepInv(s: State, a: Action)
    requires a.Handler? || a.NextCommand? || a.Deliver?
    requires SystemInv(s) && CanAct(s, a, true)
    ensures SystemInv(Act(s, a, true))
  {
    hide Uniform, Pausable, Resumable, CanAct, Act;
    ServiceStepKeeps(s, a);
    var s' := Act(s, a, true);
    forall b | b in s'.backups ensures PhaseInv(s', s'.backups[b]) {
      assert PhaseInv(s, s.backups[b]);
    }
  }

  lemma SendInv(s: State, id: Id, c: Cmd)
    requires id in s.services
    ensures var s' := Send(s, id, c);
      && s'.services.Keys == s.services.Keys && s' == s.(services := s'.services)
      && (forall i :: i in s.services ==> s'.services[i].isPause == s.services[i].isPause)
      && (forall i :: i in s.services && i != id ==> s'.services[i] == s.services[i])
      && (c == Get ==> forall i :: i in s.services ==> Keeps(s.services[i], s'.services[i]))
      && (c == Pause && Pausable(s.services[id]) ==> Pausable(s'.services[id]))
      && (c == Resume && Resumable(s.services[id]) ==> Resumable(s'.services[id]))
  {
    SendKeeps(s.services[id], c);
  }

  lemma UniformIsFit(s: State)
    requires Every(s, v => Uniform(v))
    ensures FitToPause(s) && Every(s, v => Resumable(v))
  {
    forall id | id in s.required && id in s.services ensures Pausable(s.services[id]) && Resumable(s.services[id]) {
      UniformImplies(s.services[id]);
    }
  }

  lemma ResumedIsUniform(s: State)
    requires Every(s, v => Resumable(v)) && TakenResumed(s, s.required)
    ensures Every(s, v => Uniform(v))
  {
    forall id | id in s.required && id in s.services ensures Uniform(s.services[id]) {
      ResumableAndResumed(s.services[id]);
    }
  }

  lemma MainStepInv(s: State, a: Action)
    requires a.Wake? || a.AskStatus? || a.Decide? || a.MainPass? || a.MainPassEnd?
    requires SystemInv(s) && CanAct(s, a, true)
    ensures SystemInv(Act(s, a, true))
  {
    hide Uniform, Pausable, Resumable, Send;
    var s' := Act(s, a, true);
    match a
    case AskStatus(id) =>
      SendInv(s, id, Get);
      forall b | b in s'.backups ensures PhaseInv(s', s'.backups[b]) {
        assert PhaseInv(s, s.backups[b]);
      }
    case Decide =>
      if !s.contextSet { UniformIsFit(s); }
    case MainPass(id) =>
      if s.services[id].isPause { SendInv(s, id, Resume); }
    case MainPassEnd =>
      if s.main.quiet {
        assert s.required - s.main.todo == s.required;
        ResumedIsUniform(s);
      }
    case Wake =>
  }

  lemma ScanStepInv(s: State, a: Action)
    requires a.Request? || a.Scan? || a.ScanEnd? || a.Tell? || a.TellEnd?
    requires SystemInv(s) && CanAct(s, a, true)
    ensures SystemInv(Act(s, a, true))
  {
    hide Uniform, Pausable, Resumable, Send;
    var s' := Act(s, a, true);
    match a
    case Request(b) =>
      UniformIsFit(s);
    case Scan(b, id) =>
      assert PhaseInv(s, s.backups[b]);
    case ScanEnd(b) =>
      assert PhaseInv(s, s.backups[b]);
      assert s.required - {} == s.required;
      forall id | id in s.required ensures Uniform(s.services[id]) {
        PausableAndPaused(s.services[id]);
      }
    case Tell(b, id) =>
      assert PhaseInv(s, s.backups[b]);
      SendInv(s, id, Pause);
    case TellEnd(b) =>
      assert PhaseInv(s, s.backups[b]);
  }

  lemma ResumeStepInv(s: State, a: Action)
    requires a.DumpDone? || a.Cancelled? || a.Pass? || a.PassEnd?
    requires SystemInv(s) && CanAct(s, a, true)
    ensures SystemInv(Act(s, a, true))
  {
    hide Uniform, Pausable, Resumable, Send;
    var s' := Act(s, a, true);
    match a
    case DumpDone(b) =>
      assert PhaseInv(s, s.backups[b]);
      UniformIsFit(s);
    case Cancelled(b) =>
      assert PhaseInv(s, s.backups[b]);
      assert s'.backups == map[];
    case Pass(b, id) =>
      assert PhaseInv(s, s.backups[b]);
      if s.services[id].isPause { SendInv(s, id, Resume); }
    case PassEnd(b) =>
      assert PhaseInv(s, s.backups[b]);
      if s.backups[b].quiet {
        assert s.required - {} == s.required;
        ResumedIsUniform(s);
        assert s'.backups == map[];
      }
  }

  ghost predicate IsRun(s: State, actions: seq<Action>, exclusive: bool, last: State)
    decreases |actions|
  {
    if actions == [] then last == s
    else CanAct(s, actions[0], exclusive) && IsRun(Act(s, actions[0], exclusive), actions[1..], exclusive, last)
  }

  lemma ActInv(s: State, a: Action)
    requires SystemInv(s) && CanAct(s, a, true)
    ensures SystemInv(Act(s, a, true))
  {
    hide *;
    if a.Handler? || a.NextCommand? || a.Deliver? {
      ServiceStepInv(s, a);
    } else if a.Wake? || a.AskStatus? || a.Decide? || a.MainPass? || a.MainPassEnd? {
      MainStepInv(s, a);
    } else if a.Request? || a.Scan? || a.ScanEnd? || a.Tell? || a.TellEnd? {
      ScanStepInv(s, a);
    } else {
      ResumeStepInv(s, a);
    }
  }

  lemma {:induction false} RunInv(s: State, actions: seq<Action>, last: State)
    requires SystemInv(s) && IsRun(s, actions, true, last)
    ensures SystemInv(last)
    decreases |actions|
  {
    hide SystemInv, CanAct, Act;
    if actions != [] {
      ActInv(s, actions[0]);
      RunInv(Act(s, actions[0], true), actions[1..], last);
    }
  }

  /**
   As long as a backup is requested only when none is running: in every run, from
   the moment a backup has seen every required service paused until it starts to
   resume them, no handler of a required service is past its gate or about to pass
   it, whatever commands and status messages are still on their way.
   */
  lemma DumpIsSafe(init: State, actions: seq<Action>, last: State)
    requires Init(init) && IsRun(init, actions, true, last)
    ensures Safe(last)
  {
    InitInv(init);
    RunInv(init, actions, last);
    forall b, id, c |
      (b in last.backups && last.backups[b] == Dump && id in last.required && id in last.services
       && c in last.services[id].gate.place)
      ensures Parked(last.services[id].gate, c)
    {
      var v := last.services[id];
      assert PhaseInv(last, Dump);
      assert Uniform(v) && v.isPause;
      assert View(v)[0] in View(v);
    }
  }

  // ---------- runs that are not safe ----------

  lemma {:induction false} RunsJoin(s: State, before: seq<Action>, mid: State, after: seq<Action>, exclusive: bool, last: State)
    requires IsRun(s, before, exclusive, mid) && IsRun(mid, after, exclusive, last)
    ensures IsRun(s, before + after, exclusive, last)
    decreases |before|
  {
    hide CanAct, Act;
    if before == [] {
      assert before + after == after;
    } else {
      RunsJoin(Act(s, before[0], exclusive), before[1..], mid, after, exclusive, last);
      assert (before + after)[1..] == before[1..] + after;
    }
  }

  lemma OneAction(s: State, a: Action, exclusive: bool)
    requires CanAct(s, a, exclusive)
    ensures IsRun(s, [a], exclusive, Act(s, a, exclusive))
  {
    hide CanAct, Act;
    assert [a][1..] == [];
  }

  /** Appends an action to a run. */
  lemma Then(s: State, actions: seq<Action>, mid: State, a: Action, exclusive: bool)
    requires IsRun(s, actions, exclusive, mid) && CanAct(mid, a, exclusive)
    ensures IsRun(s, actions + [a], exclusive, Act(mid, a, exclusive))
  {
    hide *;
    OneAction(mid, a, exclusive);
    RunsJoin(s, actions, mid, [a], exclusive, Act(mid, a, exclusive));
  }

  ghost predicate AllTaken(s: State) {
    s.required <= s.services.Keys && TakenPaused(s, s.required)
  }

  ghost function InBackup(s: State, b: nat, p: Phase): State { s.(backups := s.backups[b := p]) }

  /** A scan that finds every service it still looks at paused goes on to the dump. */
  lemma {:induction false} ScanAll(s: State, b: nat, todo: set<Id>, exclusive: bool) returns (actions: seq<Action>)
    requires AllTaken(s) && todo <= s.required
    ensures IsRun(InBackup(s, b, Check(todo)), actions, exclusive, InBackup(s, b, Dump))
    decreases todo
  {
    var now := InBackup(s, b, Check(todo));
    assert (forall x :: x !in todo) ==> todo == {};
    if todo == {} {
      OneAction(now, ScanEnd(b), exclusive);
      assert Act(now, ScanEnd(b), exclusive) == InBackup(s, b, Dump);
      actions := [ScanEnd(b)];
    } else {
      var id :| id in todo;
      var rest := ScanAll(s, b, todo - {id}, exclusive);
      OneAction(now, Scan(b, id), exclusive);
      assert Act(now, Scan(b, id), exclusive) == InBackup(s, b, Check(todo - {id}));
      RunsJoin(now, [Scan(b, id)], InBackup(s, b, Check(todo - {id})), rest, exclusive, InBackup(s, b, Dump));
      actions := [Scan(b, id)] + rest;
    }
  }

  /** A request taken while all required services are taken to be paused leads to a dump. */
  lemma Dumps(s: State, b: nat, exclusive: bool) returns (actions: seq<Action>)
    requires AllTaken(s) && CanAct(s, Request(b), exclusive)
    ensures IsRun(s, actions, exclusive, InBackup(s.(contextSet := true), b, Dump))
  {
    var asked := s.(contextSet := true);
    var rest := ScanAll(asked, b, s.required, exclusive);
    OneAction(s, Request(b), exclusive);
    assert Act(s, Request(b), exclusive) == InBackup(asked, b, Check(s.required));
    RunsJoin(s, [Request(b)], InBackup(asked, b, Check(s.required)), rest, exclusive, InBackup(asked, b, Dump));
    actions := [Request(b)] + rest;
  }

  ghost function WithGate(s: State, id: Id, g: Gate): State
    requires id in s.services
  {
    s.(services := s.services[id := s.services[id].(gate := g)])
  }

  /** With its flag down a handler comes through the gate. */
  lemma ComesThrough(s: State, id: Id, c: Chain, exclusive: bool) returns (actions: seq<Action>, last: State)
    requires id in s.services && c in s.services[id].gate.place && c in s.services[id].gate.status
    requires !s.services[id].gate.flag && s.services[id].gate.place[c] == Outside
    ensures IsRun(s, actions, exclusive, last)
    ensures last.services.Keys == s.services.Keys && last.required == s.required && last.backups == s.backups
    ensures c in last.services[id].gate.place && last.services[id].gate.place[c] == Past
  {
    var g0 := s.services[id].gate;
    var g1 := g0.(place := g0.place[c := AtGate]);
    var g2 := g0.(place := g0.place[c := SawResume]);
    var g3 := g0.(status := g0.status[c := Running], place := g0.place[c := Past]);
    var s1, s2, s3 := WithGate(s, id, g1), WithGate(s, id, g2), WithGate(s, id, g3);
    GateAction(s, id, g0, Enter(c), g1, exclusive);
    GateAction(s, id, g1, ReadFlag(c), g2, exclusive);
    GateAction(s, id, g2, WriteStatus(c), g3, exclusive);
    assert WithGate(s, id, g0) == s;
    var a1, a2, a3 := Handler(id, Enter(c)), Handler(id, ReadFlag(c)), Handler(id, WriteStatus(c));
    RunsJoin(s, [a1], s1, [a2], exclusive, s2);
    RunsJoin(s, [a1] + [a2], s2, [a3], exclusive, s3);
    actions, last := [a1] + [a2] + [a3], s3;
  }

  lemma GateAction(s: State, id: Id, g: Gate, step: PauseGate.Action, g': Gate, exclusive: bool)
    requires id in s.services && HandlerStep(step) && Enabled(g, step) && Step(g, step) == g'
    ensures IsRun(WithGate(s, id, g), [Handler(id, step)], exclusive, WithGate(s, id, g'))
  {
    var now := WithGate(s, id, g);
    OneAction(now, Handler(id, step), exclusive);
    assert Act(now, Handler(id, step), exclusive) == WithGate(s, id, g');
  }

  // ---------- overlapping requests ----------

  /** The first backup to finish sends a resume to a service that the second one still needs paused. */
  lemma FirstResumes(s: State, id: Id) returns (actions: seq<Action>, last: State)
    requires s.backups == map[1 := Dump, 2 := Dump] && id in s.services
    requires var v := s.services[id]; v.isPause && v.inbox == [] && v.gate.command == Idle
    ensures IsRun(s, actions, false, last)
    ensures last.services.Keys == s.services.Keys && last.required == s.required
    ensures 2 in last.backups && last.backups[2] == Dump
    ensures last.services[id].gate == s.services[id].gate.(flag := false, command := Resuming)
  {
    var v := s.services[id];
    var s1 := Act(s, DumpDone(1), false);
    OneAction(s, DumpDone(1), false);
    assert s1.services == s.services && s1.backups[1] == ResumeAll(s.services.Keys, true) && s1.backups[2] == Dump;
    var s2 := Act(s1, Pass(1, id), false);
    Then(s, [DumpDone(1)], s1, Pass(1, id), false);
    var v2 := v.(inbox := [] + [Resume]);
    assert s2.services == s.services[id := v2] && s2.backups[2] == Dump;
    assert v2.inbox[0] == Resume;
    last := Act(s2, NextCommand(id), false);
    Then(s, [DumpDone(1)] + [Pass(1, id)], s2, NextCommand(id), false);
    actions := [DumpDone(1)] + [Pass(1, id)] + [NextCommand(id)];
  }

  /**
   The handler looks at the context before it takes the lock under which it sets
   it, so two requests can both start a backup. From every start, the first one to
   finish then lets any handler of any required service run under the second one's dump.
   */
  lemma OverlappingRequestsAreUnsafe(init: State, id: Id, c: Chain) returns (actions: seq<Action>, last: State)
    requires Init(init) && id in init.required && c in init.services[id].gate.place
    ensures IsRun(init, actions, false, last)
    ensures last.required == init.required && last.services.Keys == init.services.Keys
    ensures (exists b :: b in last.backups && last.backups[b] == Dump)
         && c in last.services[id].gate.place && last.services[id].gate.place[c] == Past
    ensures !Safe(last)
  {
    hide IsRun, Act;
    var none: map<nat, Phase> := map[];
    var asked := init.(contextSet := true);
    var one := InBackup(asked, 1, Dump);
    var two := InBackup(one, 2, Dump);
    var first := Dumps(init, 1, false);
    var second := Dumps(one, 2, false);
    assert one.(contextSet := true) == one;
    RunsJoin(init, first, one, second, false, two);
    assert two.backups == map[1 := Dump, 2 := Dump];
    var third, mid := FirstResumes(two, id);
    RunsJoin(init, first + second, two, third, false, mid);
    var fourth;
    fourth, last := ComesThrough(mid, id, c, false);
    RunsJoin(init, first + second + third, mid, fourth, false, last);
    actions := first + second + third + fourth;
    assert last.backups[2] == Dump && !Parked(last.services[id].gate, c);
  }

  ghost predicate AlwaysSafe(init: State, exclusive: bool) {
    forall actions, last :: IsRun(init, actions, exclusive, last) ==> Safe(last)
  }

  /** A backup that needs any service at all is safe exactly when requests do not overlap. */
  lemma SafeExactlyWithoutOverlap(init: State, exclusive: bool)
    requires Init(init) && init.required != {}
    ensures AlwaysSafe(init, exclusive) <==> exclusive
  {
    hide IsRun, Safe;
    if exclusive {
      forall actions, last | IsRun(init, actions, exclusive, last) ensures Safe(last) {
        DumpIsSafe(init, actions, last);
      }
    } else {
      var id, c := SomeHandler(init);
      var actions, last := OverlappingRequestsAreUnsafe(init, id, c);
    }
  }

  lemma SomeHandler(init: State) returns (id: Id, c: Chain)
    requires Init(init) && init.required != {}
    ensures id in init.required && c in init.services[id].gate.place
  {
    assert (forall x :: x !in init.required) ==> init.required == {};
    id :| id in init.required;
    assert exists d :: d in init.services[id].gate.place;
    c :| c in init.services[id].gate.place;
  }

  // ---------- services that start resumed ----------

  /** A service that starts with the flag down and every status "resume", as an index worker does. */
  ghost predicate StartsResumed(g: Gate) {
    && !g.flag && g.command == Idle && g.status.Keys == g.place.Keys && (exists c :: c in g.place)
    && All(g, Running)
    && forall c :: c in g.place ==> g.place[c] == Outside
  }

  /** The coordinator takes every service that has just connected to be paused, so a backup does not wait for this one. */
  lemma RunningServiceIsUnsafe(init: State, id: Id, c: Chain) returns (actions: seq<Action>, last: State)
    requires Quiet(init) && id in init.required && StartsResumed(init.services[id].gate) && c in init.services[id].gate.place
    ensures IsRun(init, actions, true, last)
    ensures last.services.Keys == init.services.Keys && last.required == init.required
    ensures 1 in last.backups && last.backups[1] == Dump
         && c in last.services[id].gate.place && last.services[id].gate.place[c] == Past
    ensures !Safe(last)
  {
    hide IsRun, Act;
    var one := InBackup(init.(contextSet := true), 1, Dump);
    var first := Dumps(init, 1, true);
    var second;
    second, last := ComesThrough(one, id, c, true);
    RunsJoin(init, first, one, second, true, last);
    actions := first + second;
    assert !Parked(last.services[id].gate, c);
  }

  /** Where every service a backup needs starts paused or resumed, single backups are safe exactly when all start paused. */
  lemma SafeExactlyIfAllStartPaused(init: State)
    requires Quiet(init)
    requires forall id :: id in init.required ==> PauseGate.Init(init.services[id].gate) || StartsResumed(init.services[id].gate)
    ensures AlwaysSafe(init, true) <==> forall id :: id in init.required ==> PauseGate.Init(init.services[id].gate)
  {
    hide IsRun, Safe;
    if id :| id in init.required && !PauseGate.Init(init.services[id].gate) {
      var c :| c in init.services[id].gate.place;
      var actions, last := RunningServiceIsUnsafe(init, id, c);
    } else {
      forall actions, last | IsRun(init, actions, true, last) ensures Safe(last) {
        DumpIsSafe(init, actions, last);
      }
    }
  }
}
