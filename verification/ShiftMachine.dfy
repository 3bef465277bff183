/** Parser shifts on the code's own phase states: `ParserShift` over `PhaseMachine`, batches left out.

    `rest` says that an action starts only when every session is back at REST. The code does not check it:
    ApplyParserShift swaps system_state_ alone, and CompleteAction returns as soon as that is back at REST.
    With `rest` every step is a step of `ParserShift`. Without it a session still in PS_PENDING from one
    shift takes the next one for the same, acknowledges it and keeps its parser. */
module ShiftMachine {
  import M = PhaseMachine
  import P = PhaseSpec
  import S = ParserShift

  datatype State = State(
    m: M.State, shifting: bool, stage: S.Stage, states: seq<set<S.Psf>>, system: nat, actions: seq<S.Change>,
    parserNos: seq<nat>)

  datatype Step =
    | Machine(ms: M.Step, actions: seq<S.Change>)
    | TakeAddress
    | ApplySpare
    | Switch
    | ApplyOther(t: nat)

  predicate Init(s: State, n: nat) {
    M.Init(s.m, n) && s == State(s.m, false, S.NoShift, [{}, {}], 0, [], seq(n, _ => 0))
  }

  predicate NextStep(s: State, s': State, step: Step, rest: bool) {
    && |s.states| == 2 && s.system < 2
    && match step
       case Machine(ms, actions) => MachineStep(s, s', ms, actions, rest)
       case TakeAddress => s.stage.Claimed? && s.m.starter.Prepared? && s' == s.(stage := S.AddressTaken)
       case ApplySpare => s.stage.AddressTaken? && s' == s.(stage := S.Applied, states := Applied(s))
       case Switch => s.stage.Applied? && s' == s.(stage := S.Switched, system := 1 - s.system)
       case ApplyOther(t) =>
         && s.stage.Switched? && t < |s.m.sessions|
         && s.m.sessions[t].pc.Won? && s.m.sessions[t].pc.cur.phase.PS_PENDING?
         && s' == s.(stage := S.BothApplied, states := Applied(s))
  }

  /** The actions applied to the state the system is not on. */
  function Applied(s: State): seq<set<S.Psf>>
    requires |s.states| == 2 && s.system < 2
  {
    s.states[1 - s.system := S.Apply(s.states[1 - s.system], s.actions)]
  }

  predicate MachineStep(s: State, s': State, ms: M.Step, actions: seq<S.Change>, rest: bool) {
    && (if ms.StartCas? && !rest then M.Starts(s.m, s'.m, ms.a) else M.NextStep(s.m, s'.m, ms))
    && match ms
       case StartCas(a) =>
         s' == if a.ParserShift? then s.(m := s'.m, shifting := true, stage := S.Claimed, actions := actions)
               else s.(m := s'.m, shifting := false)
       case StartStore => (s.shifting ==> s.stage.Switched?) && s' == s.(m := s'.m)
       case Ack(t) =>
         s' == if Rebuilds(s.m, t) && t < |s.parserNos| then s.(m := s'.m, parserNos := s.parserNos[t := s.system])
               else s.(m := s'.m)
       case Effect(t) =>
         if t < |s.m.sessions| && s.m.sessions[t].pc.Won? && s.m.sessions[t].pc.cur.phase.PS_PENDING?
         then s.stage.BothApplied? && s' == s.(m := s'.m, stage := S.NoShift)
         else s' == s.(m := s'.m)
       case _ => s' == s.(m := s'.m)
  }

  /** RebuildParser: out of REST into PS_PENDING. */
  predicate Rebuilds(m: M.State, t: nat) {
    && t < |m.sessions| && m.sessions[t].pc.Handling?
    && m.sessions[t].pc.cur.phase.PS_PENDING? && m.sessions[t].pc.prev.phase.REST?
  }

  // ---------------------------------------------------------------- with `rest`: refinement of ParserShift

  /** Before its first action the machine matches a finished shift that never was. */
  predicate Idle(h: P.State) { !h.open && forall t | 0 <= t < |h.sessions| :: !P.InHandler(h.sessions[t].pc) }

  predicate SameShift(s: State, q: S.State) {
    && q.shifting == s.shifting && q.stage == s.stage && q.states == s.states && q.system == s.system
    && q.actions == s.actions && |q.sessions| == |s.parserNos|
    && forall t | 0 <= t < |s.parserNos| :: q.sessions[t].parserNo == s.parserNos[t]
  }

  /** Which table the machine is in. */
  predicate TableOk(s: State, tab: seq<M.SystemState>, h: P.State) {
    && |tab| > 0 && (s.shifting ==> tab[0].action.ParserShift?)
    && (tab[0].action.ParserShift? ==> s.shifting || Idle(h))
  }

  ghost predicate Refined(s: State, tab: seq<M.SystemState>, q: S.State) {
    M.Matches(s.m, tab, q.ph) && S.Inv(q) && SameShift(s, q) && TableOk(s, tab, q.ph)
  }

  /** PS_PENDING is position 1 of a shift and of nothing else. */
  lemma OnlyShiftsPend(tab: seq<M.SystemState>, cfg: P.Config, v: nat, k: nat)
    requires M.IsTable(tab, cfg, v) && k < cfg.length
    ensures tab[k].phase.PS_PENDING? ==> tab[0].action.ParserShift?
    ensures tab[0].action.ParserShift? && k == 1 ==> tab[k].phase.PS_PENDING?
  {
    if k > 0 { assert M.GetNextState(tab[k - 1]) == tab[k]; }
  }

  /** What a handling session is at. */
  lemma AtPosition(s: State, tab: seq<M.SystemState>, q: S.State, t: nat)
    requires Refined(s, tab, q) && t < |s.m.sessions| && M.InHandler(s.m.sessions[t].pc)
    ensures |q.ph.sessions| == |s.m.sessions| && P.InHandler(q.ph.sessions[t].pc)
    ensures s.m.sessions[t].pc.cur.phase.PS_PENDING? <==> s.shifting
    ensures s.shifting && s.m.sessions[t].pc.Handling? ==>
              (s.m.sessions[t].pc.prev.phase.REST? <==> q.ph.sessions[t].c == 0)
  {
    var h := q.ph.sessions[t];
    assert M.SessionMatches(tab, s.m.sessions[t], h) && P.SessionInv(q.ph, h);
    OnlyShiftsPend(tab, q.ph.cfg, q.ph.version, h.k);
    if h.c > 0 && h.c < q.ph.cfg.length { OnlyShiftsPend(tab, q.ph.cfg, q.ph.version, h.c); }
  }

  lemma OtherRefines(s: State, s': State, t: nat, tab: seq<M.SystemState>, q: S.State) returns (q': S.State)
    requires Refined(s, tab, q) && NextStep(s, s', ApplyOther(t), true)
    ensures SameShift(s', q') && q'.ph == q.ph && S.NextStep(q, q', S.ApplyOther(t))
  {
    AtPosition(s, tab, q, t);
    assert M.SessionMatches(tab, s.m.sessions[t], q.ph.sessions[t]);
    q' := q.(stage := S.BothApplied, states := Applied(s));
  }

  lemma StarterRefines(s: State, s': State, step: Step, q: S.State) returns (q': S.State, starter: S.Step)
    requires S.Sizes(q) && SameShift(s, q) && NextStep(s, s', step, true) && !step.Machine? && !step.ApplyOther?
    ensures SameShift(s', q') && q'.ph == q.ph && S.NextStep(q, q', starter)
  {
    match step
    case TakeAddress =>
      q', starter := q.(stage := S.AddressTaken, unregisters := q.unregisters + [|q.log|]), S.TakeAddress;
    case ApplySpare =>
      q', starter := q.(stage := S.Applied, states := Applied(s)), S.ApplySpare;
    case Switch =>
      q' := q.(stage := S.Switched, system := 1 - q.system,
               gens := q.gens + [S.Apply(q.gens[|q.gens| - 1], q.actions)], acts := q.acts + [q.actions]);
      starter := S.Switch;
  }

  lemma ShiftRefines(s: State, s': State, step: Step, tab: seq<M.SystemState>, q: S.State) returns (q': S.State)
    requires Refined(s, tab, q) && NextStep(s, s', step, true) && !step.Machine?
    ensures Refined(s', tab, q') && exists shiftStep :: S.NextStep(q, q', shiftStep)
  {
    if step.ApplyOther? {
      q' := OtherRefines(s, s', step.t, tab, q);
      S.InvInductive(q, q', S.ApplyOther(step.t));
    } else {
      var starter;
      q', starter := StarterRefines(s, s', step, q);
      S.InvInductive(q, q', starter);
    }
  }

  /** The state of ParserShift after a session's step. */
  function SessionNext(q: S.State, h: P.State, p: P.Step): S.State
    requires !p.Start? && !p.Publish? && p.t < |q.sessions| == |q.ph.sessions| && |q.gens| > 0
  {
    if q.shifting && p.Ack? && q.ph.sessions[p.t].c == 0
    then S.Put(q, p.t, q.sessions[p.t].(parserNo := q.system, gen := |q.gens| - 1)).(ph := h)
    else if q.shifting && p.Effect?
    then q.(ph := h, stage := S.NoShift, registers := q.registers + [|q.log|])
    else q.(ph := h)
  }

  /** What relates a session's step to ParserShift's. */
  predicate Facts(s: State, q: S.State, ms: M.Step)
    requires !M.StarterStep(ms)
  {
    && ms.t < |q.sessions| == |q.ph.sessions| == |s.m.sessions| && |q.gens| > 0
    && (M.InHandler(s.m.sessions[ms.t].pc) ==> (s.m.sessions[ms.t].pc.cur.phase.PS_PENDING? <==> s.shifting))
    && (s.shifting && s.m.sessions[ms.t].pc.Handling? ==>
          (s.m.sessions[ms.t].pc.prev.phase.REST? <==> q.ph.sessions[ms.t].c == 0))
  }

  lemma StepFacts(s: State, ms: M.Step, tab: seq<M.SystemState>, q: S.State)
    requires Refined(s, tab, q) && !M.StarterStep(ms) && ms.t < |s.m.sessions|
    ensures Facts(s, q, ms)
  {
    if M.InHandler(s.m.sessions[ms.t].pc) { AtPosition(s, tab, q, ms.t); }
  }

  lemma SessionPhases(s: State, s': State, ms: M.Step, actions: seq<S.Change>, q: S.State, h: P.State)
    requires SameShift(s, q) && NextStep(s, s', Machine(ms, actions), true) && !M.StarterStep(ms) && Facts(s, q, ms)
    requires P.NextStep(q.ph, h, M.AbsStep(s.m, ms))
    ensures S.PhaseStep(q, SessionNext(q, h, M.AbsStep(s.m, ms)), M.AbsStep(s.m, ms), false, [])
  {
  }

  lemma SessionShifts(s: State, s': State, ms: M.Step, actions: seq<S.Change>, q: S.State, h: P.State)
    requires SameShift(s, q) && NextStep(s, s', Machine(ms, actions), true) && !M.StarterStep(ms) && Facts(s, q, ms)
    ensures SameShift(s', SessionNext(q, h, M.AbsStep(s.m, ms)))
  {
  }

  lemma WorkRefines(s: State, s': State, ms: M.Step, actions: seq<S.Change>, tab: seq<M.SystemState>, q: S.State,
                    h: P.State) returns (q': S.State)
    requires Refined(s, tab, q) && NextStep(s, s', Machine(ms, actions), true) && !M.StarterStep(ms)
    requires ms.t < |s.m.sessions| && P.NextStep(q.ph, h, M.AbsStep(s.m, ms))
    ensures SameShift(s', q') && q'.ph == h && S.NextStep(q, q', S.Phase(M.AbsStep(s.m, ms), false, []))
  {
    StepFacts(s, ms, tab, q);
    SessionPhases(s, s', ms, actions, q, h);
    SessionShifts(s, s', ms, actions, q, h);
    q' := SessionNext(q, h, M.AbsStep(s.m, ms));
  }

  lemma IdleStays(h: P.State, h': P.State, p: P.Step)
    requires P.Inv(h) && Idle(h) && P.NextStep(h, h', p) && !p.Start?
    ensures Idle(h')
  {
  }

  lemma StartRefines(s: State, s': State, a: M.Action, actions: seq<S.Change>, tab: seq<M.SystemState>, q: S.State,
                     h: P.State) returns (q': S.State)
    requires Refined(s, tab, q) && NextStep(s, s', Machine(M.StartCas(a), actions), true)
    requires P.NextStep(q.ph, h, P.Start(M.ConfigOf(a)))
    ensures SameShift(s', q') && q'.ph == h
    ensures S.NextStep(q, q', S.Phase(P.Start(M.ConfigOf(a)), a.ParserShift?, actions))
  {
    q' := if a.ParserShift? then q.(ph := h, shifting := true, stage := S.Claimed, actions := actions)
          else q.(ph := h, shifting := false);
  }

  lemma PublishRefines(s: State, s': State, actions: seq<S.Change>, q: S.State, h: P.State) returns (q': S.State)
    requires SameShift(s, q) && |q.gens| > 0 && NextStep(s, s', Machine(M.StartStore, actions), true)
    requires P.NextStep(q.ph, h, P.Publish)
    ensures SameShift(s', q') && q'.ph == h && S.NextStep(q, q', S.Phase(P.Publish, false, []))
  {
    q' := q.(ph := h);
  }

  /** A step of the phase machine that PhaseSpec sees. */
  lemma VisibleRefines(s: State, s': State, ms: M.Step, actions: seq<S.Change>, tab: seq<M.SystemState>, q: S.State,
                       h: P.State, p: P.Step) returns (q': S.State, step: S.Step)
    requires Refined(s, tab, q) && NextStep(s, s', Machine(ms, actions), true) && P.NextStep(q.ph, h, p)
    requires ms.StartCas? || ms.StartStore? || !M.StarterStep(ms)
    requires ms.StartCas? ==> p == P.Start(M.ConfigOf(ms.a))
    requires ms.StartStore? ==> p.Publish?
    requires !M.StarterStep(ms) ==> ms.t < |s.m.sessions| && p == M.AbsStep(s.m, ms)
    ensures SameShift(s', q') && q'.ph == h && S.NextStep(q, q', step)
  {
    if ms.StartCas? {
      q' := StartRefines(s, s', ms.a, actions, tab, q, h);
      step := S.Phase(p, ms.a.ParserShift?, actions);
    } else if ms.StartStore? {
      q' := PublishRefines(s, s', actions, q, h);
      step := S.Phase(p, false, []);
    } else {
      q' := WorkRefines(s, s', ms, actions, tab, q, h);
      step := S.Phase(p, false, []);
    }
  }

  lemma TableKept(s: State, s': State, ms: M.Step, actions: seq<S.Change>, tab: seq<M.SystemState>, h: P.State,
                  tab': seq<M.SystemState>, h': P.State, p: P.Step)
    requires P.Inv(h) && TableOk(s, tab, h) && NextStep(s, s', Machine(ms, actions), true) && P.NextStep(h, h', p)
    requires p.Start? <==> ms.StartCas?
    requires if ms.StartCas? then tab' == M.Table(ms.a, s.m.sys.version) else tab' == tab
    ensures TableOk(s', tab', h')
  {
    if !ms.StartCas? && Idle(h) { IdleStays(h, h', p); }
  }

  lemma MachineRefines(s: State, s': State, ms: M.Step, actions: seq<S.Change>, tab: seq<M.SystemState>, q: S.State)
      returns (tab': seq<M.SystemState>, q': S.State)
    requires Refined(s, tab, q) && NextStep(s, s', Machine(ms, actions), true)
    ensures Refined(s', tab', q') && (q' == q || exists step :: S.NextStep(q, q', step))
  {
    var h, p;
    tab', h, p := M.Refines(s.m, s'.m, ms, tab, q.ph);
    if ms.Reset? || ms.StartWork? {
      q' := q;
    } else {
      var step;
      q', step := VisibleRefines(s, s', ms, actions, tab, q, h, p);
      S.InvInductive(q, q', step);
      TableKept(s, s', ms, actions, tab, q.ph, tab', h, p);
    }
  }

  lemma Refines(s: State, s': State, step: Step, tab: seq<M.SystemState>, q: S.State)
      returns (tab': seq<M.SystemState>, q': S.State)
    requires Refined(s, tab, q) && NextStep(s, s', step, true)
    ensures Refined(s', tab', q') && (q' == q || exists shiftStep :: S.NextStep(q, q', shiftStep))
  {
    if step.Machine? {
      tab', q' := MachineRefines(s, s', step.ms, step.actions, tab, q);
    } else {
      tab' := tab;
      q' := ShiftRefines(s, s', step, tab, q);
    }
  }

  // ---------------------------------------------------------------- runs

  predicate IsRun(run: seq<State>, steps: seq<Step>, n: nat, rest: bool) {
    && |run| == |steps| + 1 && Init(run[0], n)
    && forall i {:trigger steps[i]} | 0 <= i < |steps| :: NextStep(run[i], run[i + 1], steps[i], rest)
  }

  lemma InitRefined(s: State, n: nat) returns (tab: seq<M.SystemState>, q: S.State)
    requires Init(s, n)
    ensures Refined(s, tab, q)
  {
    tab := M.Table(M.ParserShift, 1);
    M.TableIsTable(M.ParserShift, 1);
    var h := P.State(P.Config(2, 100, [true, true]), 1, 2, false, false,
                     seq(n, _ => P.Session(P.Working, 2, 2, 2, 1)), 0);
    q := S.State(h, false, S.NoShift, [{}, {}], 0, [], seq(n, _ => S.Session(0, 0, S.Idle)), [], [{}], [], [], []);
    S.InitInv(q, n);
    assert h.cfg == M.ConfigOf(M.ParserShift);
    assert M.Matches(s.m, tab, h);
  }

  lemma {:induction false} RunRefined(run: seq<State>, steps: seq<Step>, n: nat, i: nat)
      returns (tab: seq<M.SystemState>, q: S.State)
    requires IsRun(run, steps, n, true) && i < |run|
    ensures Refined(run[i], tab, q)
  {
    if i == 0 {
      tab, q := InitRefined(run[0], n);
    } else {
      tab, q := RunRefined(run, steps, n, i - 1);
      assert NextStep(run[i - 1], run[i], steps[i - 1], true);
      tab, q := Refines(run[i - 1], run[i], steps[i - 1], tab, q);
    }
  }

  /** No parser state that a session is on changes. */
  predicate Undisturbed(s: State, s': State) {
    forall x, t | 0 <= t < |s.parserNos| && s.parserNos[t] == x < |s.states| && x < |s'.states| ::
      s'.states[x] == s.states[x]
  }

  lemma UndisturbedStep(s: State, s': State, step: Step, tab: seq<M.SystemState>, q: S.State)
    requires Refined(s, tab, q) && NextStep(s, s', step, true)
    ensures Undisturbed(s, s')
  {
    var tab', q' := Refines(s, s', step, tab, q);
    if q' != q {
      var shiftStep :| S.NextStep(q, q', shiftStep);
      forall x, t | 0 <= t < |s.parserNos| && s.parserNos[t] == x < 2 ensures s'.states[x] == s.states[x] {
        if s'.states[x] != s.states[x] { S.UnusedNow(q, q', shiftStep, x, t); }
      }
    }
  }

  // ---------------------------------------------------------------- without `rest`

  ghost predicate Reachable(s: State) {
    exists run, steps :: IsRun(run, steps, 1, false) && run[|run| - 1] == s
  }

  lemma Then(s: State, step: Step, s': State)
    requires Reachable(s) && NextStep(s, s', step, false)
    ensures Reachable(s')
  {
    var run, steps :| IsRun(run, steps, 1, false) && run[|run| - 1] == s;
    var run', steps' := run + [s'], steps + [step];
    forall i | 0 <= i < |steps'| ensures NextStep(run'[i], run'[i + 1], steps'[i], false) {
      if i < |steps| { assert NextStep(run[i], run[i + 1], steps[i], false); }
    }
    assert IsRun(run', steps', 1, false);
  }

  /** A step of the phase machine that the shift takes no notice of. */
  lemma ThenWork(s: State, ms: M.Step, m: M.State) returns (s': State)
    requires Reachable(s) && |s.states| == 2 && s.system < 2 && M.NextStep(s.m, m, ms)
    requires !ms.StartCas? && !ms.StartStore? && !ms.Ack? && !ms.Effect?
    ensures s' == s.(m := m) && Reachable(s')
  {
    s' := s.(m := m);
    Then(s, Machine(ms, []), s');
  }

  function Sys(a: M.Action, phase: M.Phase): M.SystemState { M.SystemState(a, phase, 1) }

  /** One session; the system state, the session's phase and program counter, its acknowledgement. */
  function One(sys: M.SystemState, phase: M.Phase, pc: M.Pc, ack: M.Phase, starter: M.Starter): M.State {
    M.State(sys, [M.Session(M.Context(phase, 1), pc)], [ack], starter)
  }

  predicate Quiet(s: State, phase: M.Phase, ack: M.Phase) {
    && s.m == One(Sys(M.NoAction, M.REST), phase, M.Working, ack, M.NoStarter)
    && s.stage.NoShift? && |s.states| == 2 && s.system < 2 && |s.parserNos| == 1
  }

  /** A shift claims the system state, whatever phase the session is in. */
  lemma Claims(s: State, actions: seq<S.Change>, phase: M.Phase, ack: M.Phase) returns (s': State)
    requires Reachable(s) && Quiet(s, phase, ack)
    ensures Reachable(s')
    ensures s' == s.(m := One(Sys(M.ParserShift, M.REST), phase, M.Working, ack, M.Resetting(0)), shifting := true,
                     stage := S.Claimed, actions := actions)
  {
    s' := s.(m := One(Sys(M.ParserShift, M.REST), phase, M.Working, ack, M.Resetting(0)), shifting := true,
             stage := S.Claimed, actions := actions);
    Then(s, Machine(M.StartCas(M.ParserShift), actions), s');
  }

  /** And is published. */
  lemma Publishes(s: State, actions: seq<S.Change>, phase: M.Phase, ack: M.Phase) returns (s': State)
    requires Reachable(s) && Quiet(s, phase, ack)
    ensures Reachable(s')
    ensures s' == State(One(Sys(M.ParserShift, M.PS_PENDING), phase, M.Working, M.REST, M.NoStarter), true, S.Switched,
                        Applied(s.(actions := actions)), 1 - s.system, actions, s.parserNos)
  {
    var a := Claims(s, actions, phase, ack);
    var b := Resets(a, phase, ack);
    s' := Stores(b, phase);
  }

  lemma Resets(s: State, phase: M.Phase, ack: M.Phase) returns (s': State)
    requires Reachable(s) && s.m == One(Sys(M.ParserShift, M.REST), phase, M.Working, ack, M.Resetting(0))
    requires |s.states| == 2 && s.system < 2
    ensures Reachable(s') && s' == s.(m := One(Sys(M.ParserShift, M.REST), phase, M.Working, M.REST, M.Prepared))
  {
    var sys := Sys(M.ParserShift, M.REST);
    var a := ThenWork(s, M.Reset, One(sys, phase, M.Working, M.REST, M.Resetting(1)));
    s' := ThenWork(a, M.StartWork, One(sys, phase, M.Working, M.REST, M.Prepared));
  }

  lemma Stores(s: State, phase: M.Phase) returns (s': State)
    requires Reachable(s) && s.m == One(Sys(M.ParserShift, M.REST), phase, M.Working, M.REST, M.Prepared)
    requires s.shifting && s.stage.Claimed? && |s.states| == 2 && s.system < 2 && |s.parserNos| == 1
    ensures Reachable(s')
    ensures s' == State(One(Sys(M.ParserShift, M.PS_PENDING), phase, M.Working, M.REST, M.NoStarter), true, S.Switched,
                        Applied(s), 1 - s.system, s.actions, s.parserNos)
  {
    var a := s.(stage := S.AddressTaken);
    Then(s, TakeAddress, a);
    var b := a.(stage := S.Applied, states := Applied(s));
    Then(a, ApplySpare, b);
    var c := b.(stage := S.Switched, system := 1 - s.system);
    Then(b, Switch, c);
    s' := c.(m := One(Sys(M.ParserShift, M.PS_PENDING), phase, M.Working, M.REST, M.NoStarter));
    Then(c, Machine(M.StartStore, []), s');
  }

  lemma Enters(s: State, phase: M.Phase) returns (s': State)
    requires Reachable(s) && s.m == One(Sys(M.ParserShift, M.PS_PENDING), phase, M.Working, M.REST, M.NoStarter)
    requires (phase.REST? || phase.PS_PENDING?) && |s.states| == 2 && s.system < 2
    ensures Reachable(s')
    ensures var pending, prev := Sys(M.ParserShift, M.PS_PENDING), Sys(M.ParserShift, phase);
            s' == s.(m := One(pending, phase, M.Handling(pending, prev, pending), M.REST, M.NoStarter))
  {
    var pending, prev := Sys(M.ParserShift, M.PS_PENDING), Sys(M.ParserShift, phase);
    var a := ThenWork(s, M.Refresh(0), One(pending, phase, M.Entering, M.REST, M.NoStarter));
    s' := ThenWork(a, M.LoadFinal(0), One(pending, phase, M.Handling(pending, prev, pending), M.REST, M.NoStarter));
  }

  /** The session handles PS_PENDING: it rebuilds its parser only if it comes from REST, and acknowledges. */
  lemma Acknowledges(s: State, phase: M.Phase) returns (s': State)
    requires Reachable(s) && s.m == One(Sys(M.ParserShift, M.PS_PENDING), phase, M.Working, M.REST, M.NoStarter)
    requires (phase.REST? || phase.PS_PENDING?) && |s.states| == 2 && s.system < 2 && |s.parserNos| == 1
    ensures Reachable(s')
    ensures var pending := Sys(M.ParserShift, M.PS_PENDING);
            s' == s.(m := One(pending, phase, M.Scanning(pending, pending, 0), M.PS_PENDING, M.NoStarter),
                     parserNos := if phase.REST? then [s.system] else s.parserNos)
  {
    var pending := Sys(M.ParserShift, M.PS_PENDING);
    var a := Enters(s, phase);
    s' := s.(m := One(pending, phase, M.Scanning(pending, pending, 0), M.PS_PENDING, M.NoStarter),
             parserNos := if phase.REST? then [s.system] else s.parserNos);
    Then(a, Machine(M.Ack(0), []), s');
  }

  lemma Compares(s: State, phase: M.Phase) returns (s': State)
    requires var pending := Sys(M.ParserShift, M.PS_PENDING);
             Reachable(s) && s.m == One(pending, phase, M.Scanning(pending, pending, 0), M.PS_PENDING, M.NoStarter)
    requires |s.states| == 2 && s.system < 2
    ensures Reachable(s')
    ensures var pending := Sys(M.ParserShift, M.PS_PENDING);
            s' == s.(m := One(pending, phase, M.Moving(pending, pending), M.PS_PENDING, M.NoStarter))
  {
    var pending := Sys(M.ParserShift, M.PS_PENDING);
    var a := ThenWork(s, M.Compare(0), One(pending, phase, M.Scanning(pending, pending, 1), M.PS_PENDING, M.NoStarter));
    s' := ThenWork(a, M.Compare(0), One(pending, phase, M.Moving(pending, pending), M.PS_PENDING, M.NoStarter));
  }

  /** And, being the only one, moves the system on. */
  lemma Moves(s: State, phase: M.Phase) returns (s': State)
    requires var pending := Sys(M.ParserShift, M.PS_PENDING);
             Reachable(s) && s.m == One(pending, phase, M.Scanning(pending, pending, 0), M.PS_PENDING, M.NoStarter)
    requires |s.states| == 2 && s.system < 2
    ensures Reachable(s')
    ensures var pending := Sys(M.ParserShift, M.PS_PENDING);
            s' == s.(m := One(Sys(M.ParserShift, M.REST), phase, M.Won(pending, pending), M.PS_PENDING, M.NoStarter))
  {
    var pending := Sys(M.ParserShift, M.PS_PENDING);
    var a := Compares(s, phase);
    s' := ThenWork(a, M.Move(0),
                   One(Sys(M.ParserShift, M.REST), phase, M.Won(pending, pending), M.PS_PENDING, M.NoStarter));
  }

  /** A whole shift up to the moment the other state is about to be changed. */
  lemma Shifts(s: State, actions: seq<S.Change>, phase: M.Phase, ack: M.Phase) returns (s': State)
    requires Reachable(s) && Quiet(s, phase, ack) && (phase.REST? || phase.PS_PENDING?)
    ensures Reachable(s')
    ensures var pending := Sys(M.ParserShift, M.PS_PENDING);
            s' == State(One(Sys(M.ParserShift, M.REST), phase, M.Won(pending, pending), M.PS_PENDING, M.NoStarter),
                        true, S.Switched, Applied(s.(actions := actions)), 1 - s.system, actions,
                        if phase.REST? then [1 - s.system] else s.parserNos)
  {
    var a := Publishes(s, actions, phase, ack);
    var b := Acknowledges(a, phase);
    s' := Moves(b, phase);
  }

  /** It changes the other state and stores NoAction, but stays in PS_PENDING itself. */
  lemma Finishes(s: State, phase: M.Phase) returns (s': State)
    requires var pending := Sys(M.ParserShift, M.PS_PENDING);
             && Reachable(s)
             && s.m == One(Sys(M.ParserShift, M.REST), phase, M.Won(pending, pending), M.PS_PENDING, M.NoStarter)
    requires s.stage.Switched? && |s.states| == 2 && s.system < 2
    ensures Reachable(s')
    ensures s' == s.(m := One(Sys(M.NoAction, M.REST), M.PS_PENDING, M.Working, M.PS_PENDING, M.NoStarter),
                     stage := S.NoShift, states := Applied(s))
  {
    var pending := Sys(M.ParserShift, M.PS_PENDING);
    var a := s.(stage := S.BothApplied, states := Applied(s));
    Then(s, ApplyOther(0), a);
    var b := a.(m := One(Sys(M.NoAction, M.REST), phase, M.Closing(pending, pending), M.PS_PENDING, M.NoStarter),
                stage := S.NoShift);
    Then(a, Machine(M.Effect(0), []), b);
    s' := ThenWork(b, M.Close(0), One(Sys(M.NoAction, M.REST), M.PS_PENDING, M.Working, M.PS_PENDING, M.NoStarter));
  }

  lemma Begin() returns (s: State)
    ensures Reachable(s) && Quiet(s, M.REST, M.REST) && s.states == [{}, {}] && s.system == 0 && s.parserNos == [0]
  {
    s := State(One(Sys(M.NoAction, M.REST), M.REST, M.Working, M.REST, M.NoStarter), false, S.NoShift, [{}, {}], 0, [],
               [0]);
    assert IsRun([s], [], 1, false);
  }

  /** The first shift registers f. */
  lemma FirstShift(f: S.Psf) returns (s: State)
    ensures Reachable(s) && Quiet(s, M.PS_PENDING, M.PS_PENDING)
    ensures s.states == [{f}, {f}] && s.system == 1 && s.parserNos == [1]
  {
    var s0 := Begin();
    var s1 := Shifts(s0, [S.Register(f)], M.REST, M.REST);
    s := Finishes(s1, M.REST);
    assert S.Apply({}, [S.Register(f)]) == {f};
  }

  /** The second shift deregisters f before the session has refreshed. The session acknowledges without
      changing parsers, and its parser state is changed under it. */
  lemma LateSessionDisturbed(f: S.Psf) returns (s: State, s': State, step: Step)
    ensures Reachable(s) && NextStep(s, s', step, false) && !Undisturbed(s, s')
  {
    var s0 := FirstShift(f);
    s := Shifts(s0, [S.Deregister(f)], M.PS_PENDING, M.PS_PENDING);
    step := ApplyOther(0);
    assert S.Apply({f}, [S.Deregister(f)]) == {};
    s' := s.(stage := S.BothApplied, states := Applied(s));
    assert s.parserNos[0] == 1 && s.states[1] == {f} && s'.states[1] == {};
  }

  /** In every run sessions keep their parser states. */
  ghost predicate Safe(rest: bool) {
    forall run: seq<State>, steps: seq<Step>, n: nat, i: nat
      {:trigger IsRun(run, steps, n, rest), steps[i]}
      | IsRun(run, steps, n, rest) && i < |steps| :: Undisturbed(run[i], run[i + 1])
  }

  /** No parser state is changed while a session is on it, in any run, if and only if actions start with all
      sessions at REST. */
  lemma SafeExactly(rest: bool)
    ensures Safe(rest) <==> rest
  {
    if rest {
      forall run: seq<State>, steps: seq<Step>, n: nat, i: nat | IsRun(run, steps, n, rest) && i < |steps|
        ensures Undisturbed(run[i], run[i + 1])
      {
        var tab, q := RunRefined(run, steps, n, i);
        assert NextStep(run[i], run[i + 1], steps[i], true);
        UndisturbedStep(run[i], run[i + 1], steps[i], tab, q);
      }
    } else {
      var s, s', step := LateSessionDisturbed(S.Inline(0));
      var run, steps :| IsRun(run, steps, 1, false) && run[|run| - 1] == s;
      var run', steps' := run + [s'], steps + [step];
      forall i | 0 <= i < |steps'| ensures NextStep(run'[i], run'[i + 1], steps'[i], false) {
        if i < |steps| { assert NextStep(run[i], run[i + 1], steps[i], false); }
      }
      assert IsRun(run', steps', 1, false) && steps'[|steps|] == step;
      assert !Undisturbed(run'[|steps|], run'[|steps| + 1]);
    }
  }
}
