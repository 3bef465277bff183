/** Registering and deregistering PSFs while sessions ingest (src/core/fishstore.h: ApplyParserShift,
    ParserStateApplyActions, the PS_PENDING cases of HandleSpecialPhases and GlobalMoveToNextState,
    and the use of parser_states in BatchInsert).

    Two parser states are kept. A shift applies its actions to the one nobody uses, makes it the
    system's, waits for every session to move to it, and then applies the actions to the other.
    Sessions handle phases between batches and also inside one, as the Refresh in BlockAllocate does.
    A session that changes parsers inside a batch still inserts records it parsed before; whether such a
    record lacks a key pointer it should have is stated exactly (IndexedExactly, StaleExactly). Log
    addresses are numbered in allocation order. */
module ParserShift {
  import P = PhaseSpec

  datatype Psf = Inline(id: nat) | General(id: nat)
  datatype Change = Register(psf: Psf) | Deregister(psf: Psf)

  /** ParserStateApplyActions on the two sets of registered PSFs, taken as one tagged set. */
  function Apply(psfs: set<Psf>, actions: seq<Change>): set<Psf> {
    if actions == [] then psfs
    else
      var last := actions[|actions| - 1];
      var before := Apply(psfs, actions[..|actions| - 1]);
      if last.Register? then before + {last.psf} else before - {last.psf}
  }

  /** A parsed record: the PSFs with a non-null value on it, and those given a key pointer. `gen` is
      history: the number of shifts its session's parser had seen. */
  datatype Record = Record(values: set<Psf>, pointers: set<Psf>, gen: nat)

  /** A record in the log. `at` is history: what its session's parser had seen when it was inserted. */
  datatype Logged = Logged(rec: Record, at: nat)

  datatype Op = Idle | Batch(parsed: seq<Record>)
  datatype Session = Session(parserNo: nat, gen: nat, op: Op)

  /** Where a shift is: not running; system state claimed; unregister address taken; actions applied to
      the spare state; system_parser_no_ changed; actions applied to the other state as well. */
  datatype Stage = NoShift | Claimed | AddressTaken | Applied | Switched | BothApplied

  /** `gens`, `acts`, `unregisters` and `registers` are history: the set after each shift, its actions,
      and the two addresses it reported. */
  datatype State = State(
    ph: P.State, shifting: bool, stage: Stage, states: seq<set<Psf>>, system: nat, actions: seq<Change>,
    sessions: seq<Session>, log: seq<Logged>,
    gens: seq<set<Psf>>, acts: seq<seq<Change>>, unregisters: seq<nat>, registers: seq<nat>)

  predicate Init(s: State, n: nat) {
    && P.Init(s.ph, n)
    && s == State(s.ph, false, NoShift, [{}, {}], 0, [], seq(n, _ => Session(0, 0, Idle)), [], [{}], [], [], [])
  }

  datatype Step =
    | Phase(p: P.Step, shift: bool, actions: seq<Change>)
    | TakeAddress
    | ApplySpare
    | Switch
    | ApplyOther(t: nat)
    | StartBatch(t: nat)
    | Parse(t: nat, values: set<Psf>)
    | Insert(t: nat)
    | EndBatch(t: nat)

  function Put(s: State, t: nat, me: Session): State
    requires t < |s.sessions|
  {
    s.(sessions := s.sessions[t := me])
  }

  predicate NextStep(s: State, s': State, step: Step) {
    && |s.states| == 2 && s.system < 2 && |s.gens| > 0
    && match step
       case Phase(p, shift, actions) => PhaseStep(s, s', p, shift, actions)
       case TakeAddress =>
         s.stage.Claimed? && s' == s.(stage := AddressTaken, unregisters := s.unregisters + [|s.log|])
       case ApplySpare =>
         && s.stage.AddressTaken?
         && s' == s.(stage := Applied, states := s.states[1 - s.system := Apply(s.states[1 - s.system], s.actions)])
       case Switch =>
         && s.stage.Applied?
         && s' == s.(stage := Switched, system := 1 - s.system,
                     gens := s.gens + [Apply(s.gens[|s.gens| - 1], s.actions)], acts := s.acts + [s.actions])
       case ApplyOther(t) =>
         && s.stage.Switched? && s.shifting && t < |s.ph.sessions| && s.ph.sessions[t].pc.Won?
         && s' == s.(stage := BothApplied, states := s.states[1 - s.system := Apply(s.states[1 - s.system], s.actions)])
       case _ =>
         && step.t < |s.sessions| == |s.ph.sessions| && s.ph.sessions[step.t].pc.Working?
         && BatchStep(s, s', step, step.t, s.sessions[step.t])
  }

  predicate BatchStep(s: State, s': State, step: Step, t: nat, me: Session)
    requires t < |s.sessions| && |s.states| == 2 && (step.StartBatch? || step.Parse? || step.Insert? || step.EndBatch?)
  {
    match step
    case StartBatch(_) => me.op.Idle? && s' == Put(s, t, me.(op := Batch([])))
    case Parse(_, values) =>
      && me.op.Batch? && me.parserNo < 2
      && s' == Put(s, t, me.(op := Batch(me.op.parsed + [Record(values, s.states[me.parserNo] * values, me.gen)])))
    case Insert(_) =>
      && me.op.Batch? && |me.op.parsed| > 0
      && s' == Put(s, t, me.(op := Batch(me.op.parsed[1..]))).(log := s.log + [Logged(me.op.parsed[0], me.gen)])
    case EndBatch(_) => me.op.Batch? && me.op.parsed == [] && s' == Put(s, t, me.(op := Idle))
  }

  /** PS_PENDING is position 1; its handler always acknowledges (PhaseMachine.MustAck). */
  predicate PhaseStep(s: State, s': State, p: P.Step, shift: bool, actions: seq<Change>)
    requires |s.gens| > 0
  {
    && P.NextStep(s.ph, s'.ph, p)
    && match p
       case Start(cfg) =>
         && (shift ==> cfg.length == 2 && cfg.shift > 2)
         && s' == s.(ph := s'.ph, shifting := shift, stage := if shift then Claimed else s.stage,
                     actions := if shift then actions else s.actions)
       case Publish => (s.shifting ==> s.stage.Switched?) && s' == s.(ph := s'.ph)
       case _ => p.t < |s.sessions| == |s.ph.sessions| && SessionPhase(s, s', p, p.t)
  }

  predicate SessionPhase(s: State, s': State, p: P.Step, t: nat)
    requires |s.gens| > 0 && t < |s.sessions| == |s.ph.sessions|
  {
    if s.shifting && p.Ack? && s.ph.sessions[t].c == 0 then
      // Out of REST: rebuild the parser on the system's state.
      s' == Put(s, t, s.sessions[t].(parserNo := s.system, gen := |s.gens| - 1)).(ph := s'.ph)
    else if s.shifting && p.Effect? then
      // PS_PENDING to REST: report the tail.
      s.stage.BothApplied? && s' == s.(ph := s'.ph, stage := NoShift, registers := s.registers + [|s.log|])
    else
      (s.shifting ==> !p.Skip?) && s' == s.(ph := s'.ph)
  }

  // ---------------------------------------------------------------- invariant

  predicate Sizes(s: State) {
    && |s.states| == 2 && s.system < 2 && |s.gens| > 0 && |s.sessions| == |s.ph.sessions|
    && |s.acts| == |s.gens| - 1
    && |s.unregisters| == |s.gens| - (if s.stage.AddressTaken? || s.stage.Applied? then 0 else 1)
    && |s.registers| == |s.gens| - (if s.stage.Switched? || s.stage.BothApplied? then 2 else 1)
    && (s.stage.Switched? || s.stage.BothApplied? ==> |s.gens| >= 2)
    && (forall g | 0 < g < |s.gens| :: s.gens[g] == Apply(s.gens[g - 1], s.acts[g - 1]))
  }

  predicate StageOk(s: State)
    requires Sizes(s)
  {
    && (!s.stage.NoShift? ==> s.shifting && s.ph.open)
    && (s.shifting ==> s.ph.cfg.length == 2 && s.ph.cfg.shift > 2)
    && (s.stage.Claimed? || s.stage.AddressTaken? || s.stage.Applied? ==> s.ph.starting)
    && (s.shifting && s.ph.open ==> !s.stage.NoShift?)
    && (s.stage.BothApplied? ==> s.ph.pos == 2)
  }

  /** The system's state holds the latest set; the other one lags from Switch until ApplyOther. */
  predicate StatesOk(s: State)
    requires Sizes(s)
  {
    var g := |s.gens| - 1;
    && (if s.stage.Applied? then s.states[1 - s.system] == Apply(s.gens[g], s.actions)
        else if s.stage.Switched?
        then g > 0 && s.states[1 - s.system] == s.gens[g - 1] && s.gens[g] == Apply(s.gens[g - 1], s.actions)
        else s.states[1 - s.system] == s.gens[g])
    && s.states[s.system] == s.gens[g]
  }

  predicate Pending(s: State) { s.stage.Switched? || s.stage.BothApplied? }

  /** A session that has not acknowledged a pending shift is on the other state, one generation behind. */
  predicate SessionOk(s: State, t: nat)
    requires Sizes(s) && t < |s.sessions|
  {
    var me, h, g := s.sessions[t], s.ph.sessions[t], |s.gens| - 1;
    && (if Pending(s) && h.a == 0 then g > 0 && me.parserNo == 1 - s.system && me.gen == g - 1
        else me.parserNo == s.system && me.gen == g)
    && (s.shifting && (h.c >= 1 || (P.InHandler(h.pc) && !h.pc.Handling?)) ==> h.a == 1)
    && (me.op.Batch? ==> forall i | 0 <= i < |me.op.parsed| ::
                           me.op.parsed[i].gen <= me.gen && RecordOk(s, me.op.parsed[i]))
  }

  predicate RecordOk(s: State, r: Record) { r.gen < |s.gens| && r.pointers == s.gens[r.gen] * r.values }

  /** The addresses a shift reports separate the generations. */
  predicate LogOk(s: State)
    requires Sizes(s)
  {
    && (forall a | 0 <= a < |s.log| :: RecordOk(s, s.log[a].rec) && s.log[a].rec.gen <= s.log[a].at < |s.gens|)
    && (forall a, j | 0 <= a < |s.log| && 0 <= j < |s.unregisters| && a < s.unregisters[j] :: s.log[a].at <= j)
    && (forall a, j | 0 <= a < |s.log| && 0 <= j < |s.registers| && a >= s.registers[j] :: s.log[a].at > j)
    && (forall j | 0 <= j < |s.unregisters| :: s.unregisters[j] <= |s.log|)
    && (forall j | 0 <= j < |s.registers| :: s.registers[j] <= |s.log|)
  }

  predicate Inv(s: State) {
    && P.Inv(s.ph) && Sizes(s) && StageOk(s) && StatesOk(s) && LogOk(s)
    && forall t | 0 <= t < |s.sessions| :: SessionOk(s, t)
  }

  // ---------------------------------------------------------------- proof

  lemma StarterInductive(s: State, s': State, step: Step)
    requires Inv(s) && NextStep(s, s', step) && (step.TakeAddress? || step.ApplySpare? || step.Switch?)
    ensures Inv(s')
  {
    assert s.ph.pos == 0;
    forall t | 0 <= t < |s'.sessions| ensures SessionOk(s', t) {
      assert SessionOk(s, t);
    }
  }

  lemma EverybodyMoved(s: State, t: nat)
    requires Inv(s) && s.shifting && s.ph.pos == 2 && t < |s.sessions|
    ensures s.ph.sessions[t].a == 1
  {
    assert P.SessionInv(s.ph, s.ph.sessions[t]);
    assert s.ph.cfg.barrier[1] && s.ph.sessions[t].a >= 1;
  }

  lemma OtherInductive(s: State, s': State, step: Step)
    requires Inv(s) && NextStep(s, s', step) && step.ApplyOther?
    ensures Inv(s')
  {
    assert P.SessionInv(s.ph, s.ph.sessions[step.t]);
    forall t | 0 <= t < |s'.sessions| ensures SessionOk(s', t) {
      assert SessionOk(s, t);
    }
  }

  predicate BatchKind(step: Step) { step.StartBatch? || step.Parse? || step.Insert? || step.EndBatch? }

  lemma BatchOther(s: State, s': State, step: Step, u: nat)
    requires Sizes(s) && NextStep(s, s', step) && BatchKind(step) && u < |s.sessions| && SessionOk(s, u) && u != step.t
    ensures Sizes(s') && |s'.sessions| == |s.sessions| && SessionOk(s', u)
  {
  }

  lemma BatchMover(s: State, s': State, step: Step)
    requires Sizes(s) && StatesOk(s) && NextStep(s, s', step) && BatchKind(step) && SessionOk(s, step.t)
    requires s.stage.BothApplied? ==> s.ph.sessions[step.t].a > 0
    ensures Sizes(s') && |s'.sessions| == |s.sessions| && SessionOk(s', step.t)
  {
  }

  lemma BatchSession(s: State, s': State, step: Step, u: nat)
    requires Inv(s) && NextStep(s, s', step) && BatchKind(step) && u < |s.sessions|
    ensures Sizes(s') && |s'.sessions| == |s.sessions| && SessionOk(s', u)
  {
    assert SessionOk(s, u);
    if s.stage.BothApplied? { EverybodyMoved(s, u); }
    if u == step.t { BatchMover(s, s', step); } else { BatchOther(s, s', step, u); }
  }

  lemma BatchLog(s: State, s': State, step: Step)
    requires Inv(s) && NextStep(s, s', step) && BatchKind(step)
    ensures Sizes(s') && LogOk(s')
  {
    assert SessionOk(s, step.t);
    if step.Insert? {
      var r := s.sessions[step.t].op.parsed[0];
      assert RecordOk(s, r);
      assert s.sessions[step.t].gen >= |s.registers|;
    }
  }

  lemma BatchInductive(s: State, s': State, step: Step)
    requires Inv(s) && NextStep(s, s', step) && BatchKind(step)
    ensures Inv(s')
  {
    BatchLog(s, s', step);
    forall t | 0 <= t < |s'.sessions| ensures SessionOk(s', t) {
      BatchSession(s, s', step, t);
    }
  }

  lemma PhaseStage(s: State, s': State, p: P.Step, shift: bool, actions: seq<Change>)
    requires P.Inv(s.ph) && Sizes(s) && StageOk(s) && StatesOk(s) && PhaseStep(s, s', p, shift, actions)
    requires P.SystemInv(s'.ph) && (!p.Start? ==> s'.ph.cfg == s.ph.cfg)
    ensures Sizes(s') && StageOk(s') && StatesOk(s')
  {
    if !p.Start? && !p.Publish? { assert P.SessionInv(s.ph, s.ph.sessions[p.t]); }
  }

  lemma PhaseSystem(s: State, s': State, p: P.Step, shift: bool, actions: seq<Change>)
    requires Inv(s) && |s.gens| > 0 && PhaseStep(s, s', p, shift, actions)
    ensures P.Inv(s'.ph) && Sizes(s') && StageOk(s') && StatesOk(s')
  {
    P.InvInductive(s.ph, s'.ph, p);
    if !p.Start? { P.SystemInductive(s.ph, s'.ph, p); }
    PhaseStage(s, s', p, shift, actions);
  }

  lemma SessionStable(s: State, s': State, p: P.Step, shift: bool, actions: seq<Change>, u: nat)
    requires P.SystemInv(s.ph) && Sizes(s) && Sizes(s') && StageOk(s) && StageOk(s')
    requires PhaseStep(s, s', p, shift, actions) && u < |s.sessions|
    requires SessionOk(s, u) && P.SessionInv(s.ph, s.ph.sessions[u]) && (p.Start? || p.Publish? || p.t != u)
    requires Pending(s) && !Pending(s') ==> s.ph.sessions[u].a == 1
    ensures |s'.sessions| == |s.sessions| && SessionOk(s', u)
  {
  }

  lemma SessionMover(s: State, s': State, p: P.Step, shift: bool, actions: seq<Change>, u: nat)
    requires P.SystemInv(s.ph) && Sizes(s) && Sizes(s') && StageOk(s) && StageOk(s')
    requires PhaseStep(s, s', p, shift, actions) && u < |s.sessions|
    requires SessionOk(s, u) && P.SessionInv(s.ph, s.ph.sessions[u]) && !p.Start? && !p.Publish? && p.t == u
    requires s.shifting && s.ph.pos == 2 ==> s.ph.sessions[u].a == 1
    ensures |s'.sessions| == |s.sessions| && SessionOk(s', u)
  {
  }

  lemma PhaseSession(s: State, s': State, p: P.Step, shift: bool, actions: seq<Change>, u: nat)
    requires Inv(s) && |s.gens| > 0 && PhaseStep(s, s', p, shift, actions) && u < |s.sessions|
    ensures Sizes(s') && |s'.sessions| == |s.sessions| && SessionOk(s', u)
  {
    PhaseSystem(s, s', p, shift, actions);
    assert SessionOk(s, u) && P.SessionInv(s.ph, s.ph.sessions[u]);
    if Pending(s) && !Pending(s') { assert P.SessionInv(s.ph, s.ph.sessions[p.t]); }
    if s.shifting && s.ph.pos == 2 { EverybodyMoved(s, u); }
    if p.Start? || p.Publish? || p.t != u {
      SessionStable(s, s', p, shift, actions, u);
    } else {
      SessionMover(s, s', p, shift, actions, u);
    }
  }

  lemma PhaseLog(s: State, s': State, p: P.Step, shift: bool, actions: seq<Change>)
    requires Inv(s) && |s.gens| > 0 && PhaseStep(s, s', p, shift, actions)
    ensures Sizes(s') && LogOk(s')
  {
    PhaseSystem(s, s', p, shift, actions);
  }

  lemma PhaseInductive(s: State, s': State, p: P.Step, shift: bool, actions: seq<Change>)
    requires Inv(s) && |s.gens| > 0 && PhaseStep(s, s', p, shift, actions)
    ensures Inv(s')
  {
    PhaseSystem(s, s', p, shift, actions);
    PhaseLog(s, s', p, shift, actions);
    forall t | 0 <= t < |s'.sessions| ensures SessionOk(s', t) {
      PhaseSession(s, s', p, shift, actions, t);
    }
  }

  lemma InvInductive(s: State, s': State, step: Step)
    requires Inv(s) && NextStep(s, s', step)
    ensures Inv(s')
  {
    match step
    case Phase(p, shift, actions) => PhaseInductive(s, s', p, shift, actions);
    case ApplyOther(_) => OtherInductive(s, s', step);
    case TakeAddress => StarterInductive(s, s', step);
    case ApplySpare => StarterInductive(s, s', step);
    case Switch => StarterInductive(s, s', step);
    case _ => BatchInductive(s, s', step);
  }

  lemma InitInv(s: State, n: nat)
    requires Init(s, n)
    ensures Inv(s)
  {
    P.InitInv(s.ph, n);
  }

  predicate IsRun(run: seq<State>, steps: seq<Step>, n: nat) {
    && |run| == |steps| + 1 && Init(run[0], n)
    && forall i {:trigger steps[i]} | 0 <= i < |steps| :: NextStep(run[i], run[i + 1], steps[i])
  }

  lemma {:induction false} RunInv(run: seq<State>, steps: seq<Step>, n: nat, i: nat)
    requires IsRun(run, steps, n) && i < |run|
    ensures Inv(run[i])
  {
    if i == 0 {
      InitInv(run[0], n);
    } else {
      RunInv(run, steps, n, i - 1);
      assert NextStep(run[i - 1], run[i], steps[i - 1]);
      InvInductive(run[i - 1], run[i], steps[i - 1]);
    }
  }

  // ---------------------------------------------------------------- what a shift guarantees

  /** The last thing the actions say about a PSF is to register it. */
  predicate Registers(actions: seq<Change>, f: Psf) {
    exists i :: 0 <= i < |actions| && actions[i] == Register(f) && Deregister(f) !in actions[i + 1..]
  }

  lemma {:induction false} ApplyKeeps(psfs: set<Psf>, actions: seq<Change>, f: Psf)
    requires f in psfs && Deregister(f) !in actions
    ensures f in Apply(psfs, actions)
  {
    if actions != [] {
      assert actions == actions[..|actions| - 1] + [actions[|actions| - 1]];
      ApplyKeeps(psfs, actions[..|actions| - 1], f);
    }
  }

  lemma {:induction false} ApplyRegisters(psfs: set<Psf>, actions: seq<Change>, f: Psf)
    requires Registers(actions, f)
    ensures f in Apply(psfs, actions)
  {
    var n := |actions| - 1;
    var i :| 0 <= i < |actions| && actions[i] == Register(f) && Deregister(f) !in actions[i + 1..];
    if i < n {
      assert actions[i + 1..] == actions[..n][i + 1..] + [actions[n]];
      assert actions[..n][i] == Register(f);
      ApplyRegisters(psfs, actions[..n], f);
    }
  }

  predicate Concerns(action: Change, f: Psf) { action.psf == f }

  /** The last action on f, if there is one, is the one at i. */
  predicate LastOn(actions: seq<Change>, f: Psf, i: nat) {
    i < |actions| && Concerns(actions[i], f) && forall k | i < k < |actions| :: !Concerns(actions[k], f)
  }

  predicate Untouched(actions: seq<Change>, f: Psf) { forall k | 0 <= k < |actions| :: !Concerns(actions[k], f) }

  /** What the actions make of a set: f is in if the last action on it registers it, out if that deregisters it,
      and as before if there is none. */
  lemma {:induction false} ApplyExactly(psfs: set<Psf>, actions: seq<Change>, f: Psf)
    ensures f in Apply(psfs, actions) <==>
              || (exists i: nat :: LastOn(actions, f, i) && actions[i] == Register(f))
              || (f in psfs && Untouched(actions, f))
  {
    if actions != [] {
      var n := |actions| - 1;
      var before := actions[..n];
      ApplyExactly(psfs, before, f);
      if Concerns(actions[n], f) {
        assert LastOn(actions, f, n);
        assert forall i: nat | LastOn(actions, f, i) :: i == n;
      } else {
        assert forall i: nat | i < n :: before[i] == actions[i];
        assert forall i: nat :: LastOn(actions, f, i) <==> LastOn(before, f, i);
        assert Untouched(actions, f) <==> Untouched(before, f);
      }
    }
  }

  /** The last thing the actions say about a PSF is to deregister it. */
  ghost predicate Deregisters(actions: seq<Change>, f: Psf) {
    exists i: nat :: LastOn(actions, f, i) && actions[i] == Deregister(f)
  }

  lemma ApplyDeregisters(psfs: set<Psf>, actions: seq<Change>, f: Psf)
    requires Deregisters(actions, f)
    ensures f !in Apply(psfs, actions)
  {
    ApplyExactly(psfs, actions, f);
    var i: nat :| LastOn(actions, f, i) && actions[i] == Deregister(f);
    assert forall j: nat | LastOn(actions, f, j) :: j == i;
  }

  lemma ApplyLeavesOut(psfs: set<Psf>, actions: seq<Change>, f: Psf)
    requires f !in psfs && Register(f) !in actions
    ensures f !in Apply(psfs, actions)
  {
    ApplyExactly(psfs, actions, f);
  }

  /** Shift r deregisters f and no shift up to the j-th registers it. */
  ghost predicate Gone(s: State, f: Psf, r: nat, j: nat)
    requires r < |s.acts|
  {
    r < j <= |s.acts| && Deregisters(s.acts[r], f) && forall m | r < m < j :: Register(f) !in s.acts[m]
  }

  lemma {:induction false} GoneGens(s: State, f: Psf, r: nat, j: nat, g: nat)
    requires Sizes(s) && r < |s.acts| && Gone(s, f, r, j) && r < g <= j
    ensures f !in s.gens[g]
  {
    assert s.gens[g] == Apply(s.gens[g - 1], s.acts[g - 1]);
    if g == r + 1 {
      ApplyDeregisters(s.gens[r], s.acts[r], f);
    } else {
      GoneGens(s, f, r, j, g - 1);
      ApplyLeavesOut(s.gens[g - 1], s.acts[g - 1], f);
    }
  }

  /** Shift r registers f and no shift up to the j-th deregisters it. */
  predicate Standing(s: State, f: Psf, r: nat, j: nat)
    requires r < |s.acts|
  {
    r < j <= |s.acts| && Registers(s.acts[r], f) && forall m | r < m < j :: Deregister(f) !in s.acts[m]
  }

  lemma {:induction false} StandingGens(s: State, f: Psf, r: nat, j: nat, g: nat)
    requires Sizes(s) && r < |s.acts| && Standing(s, f, r, j) && r < g <= j
    ensures f in s.gens[g]
  {
    assert s.gens[g] == Apply(s.gens[g - 1], s.acts[g - 1]);
    if g == r + 1 {
      ApplyRegisters(s.gens[r], s.acts[r], f);
    } else {
      StandingGens(s, f, r, j, g - 1);
      ApplyKeeps(s.gens[g - 1], s.acts[g - 1], f);
    }
  }

  /** A record from the safe register address of the shift that registers f to the safe unregister address
      of a later shift, with no shift in between deregistering f, carries f's key pointer if f has a value on
      it and its session had moved to that shift's parser when it parsed the record; if the session had
      not, exactly if f had been registered before. It had certainly moved when it inserted the record. */
  lemma IndexedExactly(run: seq<State>, steps: seq<Step>, n: nat, i: nat, f: Psf, r: nat, j: nat, a: nat)
    requires IsRun(run, steps, n) && i < |run| && r < j < |run[i].unregisters| && r < |run[i].registers|
    requires r < |run[i].acts|
    requires Standing(run[i], f, r, j) && a < |run[i].log| && run[i].registers[r] <= a < run[i].unregisters[j]
    requires f in run[i].log[a].rec.values
    ensures run[i].log[a].rec.gen <= run[i].log[a].at < |run[i].gens| && run[i].log[a].at > r
    ensures f in run[i].log[a].rec.pointers <==> run[i].log[a].rec.gen > r || f in run[i].gens[run[i].log[a].rec.gen]
  {
    RunInv(run, steps, n, i);
    var s := run[i];
    assert r < s.log[a].at <= j && RecordOk(s, s.log[a].rec);
    if s.log[a].rec.gen > r { StandingGens(s, f, r, j, s.log[a].rec.gen); }
  }

  /** The same up to the end of the log if no shift has deregistered f since. */
  lemma StillIndexedExactly(run: seq<State>, steps: seq<Step>, n: nat, i: nat, f: Psf, r: nat, a: nat)
    requires IsRun(run, steps, n) && i < |run| && r < |run[i].registers| && r < |run[i].acts|
    requires Standing(run[i], f, r, |run[i].acts|) && run[i].registers[r] <= a < |run[i].log|
    requires f in run[i].log[a].rec.values
    ensures run[i].log[a].rec.gen <= run[i].log[a].at < |run[i].gens| && run[i].log[a].at > r
    ensures f in run[i].log[a].rec.pointers <==> run[i].log[a].rec.gen > r || f in run[i].gens[run[i].log[a].rec.gen]
  {
    RunInv(run, steps, n, i);
    var s := run[i];
    assert r < s.log[a].at && RecordOk(s, s.log[a].rec);
    if s.log[a].rec.gen > r { StandingGens(s, f, r, |s.acts|, s.log[a].rec.gen); }
  }

  /** A record that its session parsed after moving past a shift that deregisters f, and before any later shift
      that registers it again, has no key pointer for f, wherever in the log it is. */
  lemma GoneUnindexed(run: seq<State>, steps: seq<Step>, n: nat, i: nat, f: Psf, r: nat, a: nat)
    requires IsRun(run, steps, n) && i < |run| && a < |run[i].log| && r < |run[i].acts|
    requires r < run[i].log[a].rec.gen && Gone(run[i], f, r, run[i].log[a].rec.gen)
    ensures f !in run[i].log[a].rec.pointers
  {
    RunInv(run, steps, n, i);
    var s := run[i];
    assert RecordOk(s, s.log[a].rec);
    GoneGens(s, f, r, s.log[a].rec.gen, s.log[a].rec.gen);
  }

  /** So no record behind a shift's safe register address has one for a PSF the shift deregisters, as long as it
      is not registered again and the record was not parsed before. */
  lemma DeregisteredWindow(run: seq<State>, steps: seq<Step>, n: nat, i: nat, f: Psf, r: nat, a: nat)
    requires IsRun(run, steps, n) && i < |run| && r < |run[i].registers| && r < |run[i].acts|
    requires Gone(run[i], f, r, |run[i].acts|) && run[i].registers[r] <= a < |run[i].log| && !Changed(run, steps, i)
    ensures f !in run[i].log[a].rec.pointers
  {
    RunInv(run, steps, n, i);
    StaleExactly(run, steps, n, i);
    var s := run[i];
    assert s.log[a].at > r && s.log[a].rec.gen == s.log[a].at && RecordOk(s, s.log[a].rec);
    GoneGens(s, f, r, |s.acts|, s.log[a].rec.gen);
  }

  /** A record has a key pointer only for PSFs with a value on it, and for those exactly if the set in force when
      it was parsed has them. That set is the outcome of the shifts its session had moved past. */
  lemma PointersExactly(run: seq<State>, steps: seq<Step>, n: nat, i: nat, f: Psf, a: nat)
    requires IsRun(run, steps, n) && i < |run| && a < |run[i].log|
    ensures run[i].log[a].rec.gen < |run[i].gens| && run[i].gens[0] == {}
    ensures forall g | 0 < g < |run[i].gens| && g <= |run[i].acts| ::
              run[i].gens[g] == Apply(run[i].gens[g - 1], run[i].acts[g - 1])
    ensures var rec := run[i].log[a].rec;
            f in rec.pointers <==> f in rec.values && f in run[i].gens[rec.gen]
  {
    RunInv(run, steps, n, i);
    FirstGen(run, steps, n, i);
    assert RecordOk(run[i], run[i].log[a].rec);
  }

  /** What session t parsed in the first k steps, and what was added to the log by its inserts, both in order. */
  function ParsedBy(steps: seq<Step>, t: nat, k: nat): seq<set<Psf>>
    requires k <= |steps|
  {
    if k == 0 then []
    else
      var step := steps[k - 1];
      ParsedBy(steps, t, k - 1) + if step.Parse? && step.t == t then [step.values] else []
  }

  /** What a step adds to the log. */
  function Added(s: State, s': State): seq<set<Psf>> {
    if |s'.log| <= |s.log| then []
    else seq(|s'.log| - |s.log|, i requires 0 <= i < |s'.log| - |s.log| => s'.log[|s.log| + i].rec.values)
  }

  function InsertedBy(run: seq<State>, steps: seq<Step>, t: nat, k: nat): seq<set<Psf>>
    requires k <= |steps| < |run|
  {
    if k == 0 then []
    else
      InsertedBy(run, steps, t, k - 1)
      + if steps[k - 1].Insert? && steps[k - 1].t == t then Added(run[k - 1], run[k]) else []
  }

  function ToInsert(me: Session): seq<set<Psf>> {
    if me.op.Idle? then []
    else seq(|me.op.parsed|, i requires 0 <= i < |me.op.parsed| => me.op.parsed[i].values)
  }

  lemma ConservedStep(s: State, s': State, step: Step, t: nat)
    requires NextStep(s, s', step) && t < |s.sessions|
    ensures t < |s'.sessions|
    ensures ToInsert(s.sessions[t]) + (if step.Parse? && step.t == t then [step.values] else [])
            == (if step.Insert? && step.t == t then Added(s, s') else []) + ToInsert(s'.sessions[t])
  {
    var x, y := ToInsert(s.sessions[t]), ToInsert(s'.sessions[t]);
    if step.Insert? && step.t == t {
      assert Added(s, s') == [x[0]] && x[1..] == y;
    } else if step.Parse? && step.t == t {
      assert y == x + [step.values];
    } else {
      assert x == y;
    }
  }

  lemma Regroup<T>(before: seq<T>, left: seq<T>, more: seq<T>, added: seq<T>, left': seq<T>)
    requires left + more == added + left'
    ensures before + left + more == before + added + left'
  {
    assert before + left + more == before + (left + more);
    assert before + added + left' == before + (added + left');
  }

  lemma ConservedNext(run: seq<State>, steps: seq<Step>, t: nat, k: nat)
    requires 0 < k <= |steps| < |run| && t < |run[k - 1].sessions| && NextStep(run[k - 1], run[k], steps[k - 1])
    requires ParsedBy(steps, t, k - 1) == InsertedBy(run, steps, t, k - 1) + ToInsert(run[k - 1].sessions[t])
    ensures t < |run[k].sessions|
    ensures ParsedBy(steps, t, k) == InsertedBy(run, steps, t, k) + ToInsert(run[k].sessions[t])
  {
    var s, s', step := run[k - 1], run[k], steps[k - 1];
    var more := if step.Parse? && step.t == t then [step.values] else [];
    var added := if step.Insert? && step.t == t then Added(s, s') else [];
    var before, left, left' := InsertedBy(run, steps, t, k - 1), ToInsert(s.sessions[t]), ToInsert(s'.sessions[t]);
    assert left + more == added + left' by { ConservedStep(s, s', step, t); }
    Regroup(before, left, more, added, left');
    assert ParsedBy(steps, t, k) == ParsedBy(steps, t, k - 1) + more;
    assert InsertedBy(run, steps, t, k) == before + added;
  }

  /** Every record is inserted once, in the order parsed: what a session has parsed is what it has inserted and
      what is left of its batch. */
  lemma {:induction false} RecordsConserved(run: seq<State>, steps: seq<Step>, n: nat, t: nat, k: nat)
    requires IsRun(run, steps, n) && k < |run| && t < n
    ensures t < |run[k].sessions|
    ensures ParsedBy(steps, t, k) == InsertedBy(run, steps, t, k) + ToInsert(run[k].sessions[t])
  {
    if k > 0 {
      RecordsConserved(run, steps, n, t, k - 1);
      assert NextStep(run[k - 1], run[k], steps[k - 1]);
      ConservedNext(run, steps, t, k);
    }
  }

  /** The actions given to a shift when it was started are those it applies. */
  predicate ActsOn(s0: State, s: State, actions: seq<Change>) {
    && |s.acts| >= |s0.acts|
    && (if |s.acts| > |s0.acts| then s.acts[|s0.acts|] == actions
        else s.actions == actions && (s.stage.Claimed? || s.stage.AddressTaken? || s.stage.Applied?))
  }

  lemma ActsOnStep(s0: State, s: State, s': State, step: Step, actions: seq<Change>)
    requires Inv(s) && NextStep(s, s', step) && ActsOn(s0, s, actions)
    ensures ActsOn(s0, s', actions)
  {
  }

  lemma {:induction false} ShiftApplies(run: seq<State>, steps: seq<Step>, n: nat, i: nat, j: nat, cfg: P.Config,
                                        actions: seq<Change>)
    requires IsRun(run, steps, n) && i < j < |run| && steps[i] == Phase(P.Start(cfg), true, actions)
    ensures ActsOn(run[i], run[j], actions)
    decreases j
  {
    assert NextStep(run[i], run[i + 1], steps[i]);
    if i + 1 < j {
      ShiftApplies(run, steps, n, i, j - 1, cfg, actions);
      RunInv(run, steps, n, j - 1);
      assert NextStep(run[j - 1], run[j], steps[j - 1]);
      ActsOnStep(run[i], run[j - 1], run[j], steps[j - 1], actions);
    }
  }

  /** The two addresses a shift reports are the log's tail at the moment they are taken. */
  lemma {:induction false} AddressesAreTails(run: seq<State>, steps: seq<Step>, n: nat, i: nat, j: nat, m: nat)
    requires IsRun(run, steps, n) && i <= j < |run|
    ensures |run[i].log| <= |run[j].log|
    ensures |run[i].unregisters| <= |run[j].unregisters| && |run[i].registers| <= |run[j].registers|
    ensures |run[i].unregisters| <= m < |run[j].unregisters| ==> |run[i].log| <= run[j].unregisters[m] <= |run[j].log|
    ensures |run[i].registers| <= m < |run[j].registers| ==> |run[i].log| <= run[j].registers[m] <= |run[j].log|
    decreases j
  {
    if i < j {
      AddressesAreTails(run, steps, n, i, j - 1, m);
      assert NextStep(run[j - 1], run[j], steps[j - 1]);
    }
  }

  lemma {:induction false} FirstGen(run: seq<State>, steps: seq<Step>, n: nat, i: nat)
    requires IsRun(run, steps, n) && i < |run|
    ensures |run[i].gens| > 0 && run[i].gens[0] == {}
  {
    if i > 0 {
      FirstGen(run, steps, n, i - 1);
      assert NextStep(run[i - 1], run[i], steps[i - 1]);
    }
  }

  // ---------------------------------------------------------------- changing parsers inside a batch

  /** A session moves to the new parser with parsed records still to insert. */
  predicate ChangesInBatch(s: State, step: Step) {
    && step.Phase? && step.p.Ack? && s.shifting && step.p.t < |s.ph.sessions| == |s.sessions|
    && s.ph.sessions[step.p.t].c == 0
    && s.sessions[step.p.t].op.Batch? && s.sessions[step.p.t].op.parsed != []
  }

  predicate StaleSession(me: Session) {
    me.op.Batch? && exists i :: 0 <= i < |me.op.parsed| && me.op.parsed[i].gen < me.gen
  }

  /** Some record was, or is going to be, inserted under a later parser than it was parsed with. */
  predicate Stale(s: State) {
    || (exists t :: 0 <= t < |s.sessions| && StaleSession(s.sessions[t]))
    || (exists a :: 0 <= a < |s.log| && s.log[a].rec.gen < s.log[a].at)
  }

  lemma StaleBatch(s: State, s': State, step: Step)
    requires Inv(s) && NextStep(s, s', step) && BatchKind(step)
    ensures Stale(s') <==> Stale(s)
  {
    var me, me' := s.sessions[step.t], s'.sessions[step.t];
    assert SessionOk(s, step.t);
    if step.Insert? {
      var parsed, rest := me.op.parsed, me'.op.parsed;
      assert s'.log[|s.log|] == Logged(parsed[0], me.gen);
      assert forall i | 0 <= i < |rest| :: rest[i] == parsed[i + 1];
      assert forall i | 0 < i < |parsed| :: parsed[i] == rest[i - 1];
      assert forall a | 0 <= a < |s.log| :: s'.log[a] == s.log[a];
      assert StaleSession(me) <==> parsed[0].gen < me.gen || StaleSession(me');
    } else {
      if step.Parse? {
        assert forall i | 0 <= i < |me.op.parsed| :: me'.op.parsed[i] == me.op.parsed[i];
        assert me'.op.parsed[|me.op.parsed|].gen == me'.gen == me.gen;
      }
      assert StaleSession(me) <==> StaleSession(me');
      assert s'.log == s.log;
    }
    assert forall t | 0 <= t < |s.sessions| && t != step.t :: s'.sessions[t] == s.sessions[t];
  }

  lemma StalePhase(s: State, s': State, step: Step)
    requires Inv(s) && NextStep(s, s', step) && step.Phase?
    ensures Stale(s') <==> Stale(s) || ChangesInBatch(s, step)
  {
    if s.shifting && step.p.Ack? && s.ph.sessions[step.p.t].c == 0 {
      var t := step.p.t;
      assert SessionOk(s, t) && P.SessionInv(s.ph, s.ph.sessions[t]);
      assert forall u | 0 <= u < |s.sessions| && u != t :: s'.sessions[u] == s.sessions[u];
      assert s'.sessions[t].gen == s.sessions[t].gen + 1;
      if ChangesInBatch(s, step) { assert s.sessions[t].op.parsed[0].gen < s'.sessions[t].gen; }
      assert StaleSession(s'.sessions[t]) <==> ChangesInBatch(s, step);
      assert StaleSession(s.sessions[t]) ==> ChangesInBatch(s, step);
    }
  }

  lemma StaleStep(s: State, s': State, step: Step)
    requires Inv(s) && NextStep(s, s', step)
    ensures Stale(s') <==> Stale(s) || ChangesInBatch(s, step)
  {
    if step.Phase? {
      StalePhase(s, s', step);
    } else if BatchKind(step) {
      StaleBatch(s, s', step);
    }
  }

  /** Some session has changed parsers inside a batch among the first k steps. */
  predicate Changed(run: seq<State>, steps: seq<Step>, k: nat)
    requires k <= |steps| < |run|
  {
    exists i :: 0 <= i < k && ChangesInBatch(run[i], steps[i])
  }

  lemma ChangedNext(run: seq<State>, steps: seq<Step>, k: nat)
    requires 0 < k <= |steps| < |run|
    ensures Changed(run, steps, k) <==> Changed(run, steps, k - 1) || ChangesInBatch(run[k - 1], steps[k - 1])
  {
  }

  /** Records are inserted under another parser than they were parsed with exactly if some session has
      changed parsers inside a batch. */
  lemma {:induction false} StaleExactly(run: seq<State>, steps: seq<Step>, n: nat, k: nat)
    requires IsRun(run, steps, n) && k < |run|
    ensures Stale(run[k]) <==> Changed(run, steps, k)
  {
    if k > 0 {
      StaleExactly(run, steps, n, k - 1);
      ChangedNext(run, steps, k);
      RunInv(run, steps, n, k - 1);
      assert NextStep(run[k - 1], run[k], steps[k - 1]);
      StaleStep(run[k - 1], run[k], steps[k - 1]);
    }
  }

  /** So in a run in which no session does, every record of the window on which f has a value is indexed. */
  lemma WindowIndexed(run: seq<State>, steps: seq<Step>, n: nat, i: nat, f: Psf, r: nat, j: nat, a: nat)
    requires IsRun(run, steps, n) && i < |run| && r < j < |run[i].unregisters| && r < |run[i].registers|
    requires r < |run[i].acts|
    requires Standing(run[i], f, r, j) && a < |run[i].log| && run[i].registers[r] <= a < run[i].unregisters[j]
    requires !Changed(run, steps, i)
    ensures f in run[i].log[a].rec.values ==> f in run[i].log[a].rec.pointers
  {
    StaleExactly(run, steps, n, i);
    if f in run[i].log[a].rec.values { IndexedExactly(run, steps, n, i, f, r, j, a); }
  }

  /** And, while f stays registered, every such record from the register address on. */
  lemma StillIndexed(run: seq<State>, steps: seq<Step>, n: nat, i: nat, f: Psf, r: nat, a: nat)
    requires IsRun(run, steps, n) && i < |run| && r < |run[i].registers| && r < |run[i].acts|
    requires Standing(run[i], f, r, |run[i].acts|) && run[i].registers[r] <= a < |run[i].log|
    requires !Changed(run, steps, i)
    ensures f in run[i].log[a].rec.values ==> f in run[i].log[a].rec.pointers
  {
    StaleExactly(run, steps, n, i);
    if f in run[i].log[a].rec.values { StillIndexedExactly(run, steps, n, i, f, r, a); }
  }

  // ---------------------------------------------------------------- the two states

  lemma UnusedNow(s: State, s': State, step: Step, q: nat, t: nat)
    requires Inv(s) && NextStep(s, s', step) && q < 2 && t < |s.sessions|
    requires |s'.states| == 2 && s'.states[q] != s.states[q]
    ensures s.sessions[t].parserNo != q
  {
    assert SessionOk(s, t);
    if step.ApplyOther? {
      assert P.SessionInv(s.ph, s.ph.sessions[step.t]);
      EverybodyMoved(s, t);
    }
  }

  /** No parser state changes while a session is on it. */
  lemma UnusedWhenChanged(run: seq<State>, steps: seq<Step>, n: nat, i: nat, q: nat, t: nat)
    requires IsRun(run, steps, n) && i < |steps| && q < 2 && t < |run[i].sessions|
    requires |run[i].states| == |run[i + 1].states| == 2 && run[i + 1].states[q] != run[i].states[q]
    ensures run[i].sessions[t].parserNo != q
  {
    RunInv(run, steps, n, i);
    assert NextStep(run[i], run[i + 1], steps[i]);
    UnusedNow(run[i], run[i + 1], steps[i], q, t);
  }

  /** When no action is under way the two states are equal and hold the result of all shifts so far. */
  lemma EqualAtRest(run: seq<State>, steps: seq<Step>, n: nat, i: nat)
    requires IsRun(run, steps, n) && i < |run| && !run[i].ph.open
    ensures |run[i].states| == 2 && |run[i].gens| > 0
    ensures run[i].states[0] == run[i].states[1] == run[i].gens[|run[i].gens| - 1]
  {
    RunInv(run, steps, n, i);
  }

  // ---------------------------------------------------------------- a run that loses a key pointer

  ghost predicate Reachable(s: State) {
    exists run, steps :: IsRun(run, steps, 1) && run[|run| - 1] == s
  }

  lemma Then(s: State, step: Step, s': State)
    requires Reachable(s) && NextStep(s, s', step)
    ensures Reachable(s')
  {
    var run, steps :| IsRun(run, steps, 1) && run[|run| - 1] == s;
    var run', steps' := run + [s'], steps + [step];
    forall i | 0 <= i < |steps'| ensures NextStep(run'[i], run'[i + 1], steps'[i]) {
      if i < |steps| { assert NextStep(run[i], run[i + 1], steps[i]); }
    }
    assert IsRun(run', steps', 1);
  }

  function Cfg(): P.Config { P.Config(2, 100, [true, true]) }

  function At(pos: nat, open: bool, starting: bool,
              me: P.Session): P.State { P.State(Cfg(), 1, pos, open, starting, [me], 0) }

  /** A session parses a record on which f has a value, then a shift that registers f is published. */
  lemma ParsedBefore(f: Psf) returns (s: State)
    ensures Reachable(s)
    ensures s == State(At(1, true, false, P.Session(P.Working, 0, 0, 0, 0)), true, Switched,
                       [{}, {f}], 1, [Register(f)],
                       [Session(0, 0, Batch([Record({f}, {}, 0)]))], [], [{}, {f}], [[Register(f)]], [0], [])
  {
    var h0 := At(2, false, false, P.Session(P.Working, 2, 2, 2, 1));
    var h1 := At(0, true, true, P.Session(P.Working, 0, 0, 0, 0));
    var s0 := State(h0, false, NoShift, [{}, {}], 0, [], [Session(0, 0, Idle)], [], [{}], [], [], []);
    assert IsRun([s0], [], 1);
    var s1 := s0.(ph := h1, shifting := true, stage := Claimed, actions := [Register(f)]);
    Then(s0, Phase(P.Start(Cfg()), true, [Register(f)]), s1);
    var s2 := Put(s1, 0, Session(0, 0, Batch([])));
    Then(s1, StartBatch(0), s2);
    var s3 := Put(s2, 0, Session(0, 0, Batch([Record({f}, {}, 0)])));
    assert s2.states[0] * {f} == {} && [] + [Record({f}, {}, 0)] == [Record({f}, {}, 0)];
    Then(s2, Parse(0, {f}), s3);
    var s4 := s3.(stage := AddressTaken, unregisters := [0]);
    Then(s3, TakeAddress, s4);
    s := Published(f, s4);
  }

  lemma Published(f: Psf, s0: State) returns (s: State)
    requires Reachable(s0) && s0.ph == At(0, true, true, P.Session(P.Working, 0, 0, 0, 0)) && s0.shifting
    requires s0.stage.AddressTaken?
    requires s0.states == [{}, {}] && s0.system == 0 && s0.actions == [Register(f)] && s0.gens == [{}] && s0.acts == []
    ensures Reachable(s)
    ensures s == s0.(ph := At(1, true, false, P.Session(P.Working, 0, 0, 0, 0)), stage := Switched, states := [{}, {f}],
                     system := 1,
                                     gens := [{}, {f}], acts := [[Register(f)]])
  {
    assert Apply({}, [Register(f)]) == {f};
    var s1 := s0.(stage := Applied, states := [{}, {f}]);
    Then(s0, ApplySpare, s1);
    var s2 := s1.(stage := Switched, system := 1, gens := [{}, {f}], acts := [[Register(f)]]);
    Then(s1, Switch, s2);
    s := s2.(ph := At(1, true, false, P.Session(P.Working, 0, 0, 0, 0)));
    Then(s2, Phase(P.Publish, false, []), s);
  }

  /** Still inside the batch it acknowledges the shift and, being the only one, completes it. */
  lemma ShiftedInside(f: Psf) returns (s: State)
    ensures Reachable(s)
    ensures s == State(At(2, false, false, P.Session(P.Working, 1, 1, 1, 1)), true, NoShift,
                       [{f}, {f}], 1, [Register(f)],
                       [Session(1, 1, Batch([Record({f}, {}, 0)]))], [], [{}, {f}], [[Register(f)]], [0], [0])
  {
    var s0 := ParsedBefore(f);
    var s1 := s0.(ph := At(1, true, false, P.Session(P.Entering, 0, 0, 0, 0)));
    Then(s0, Phase(P.Refresh(0, true), false, []), s1);
    var s2 := s0.(ph := At(1, true, false, P.Session(P.Handling, 0, 1, 1, 0)));
    Then(s1, Phase(P.LoadFinal(0), false, []), s2);
    var s3 := Put(s0, 0, Session(1, 1, Batch([Record({f}, {}, 0)])))
                .(ph := At(1, true, false, P.Session(P.Scanning(0), 0, 1, 1, 1)));
    Then(s2, Phase(P.Ack(0), false, []), s3);
    var s6 := Moved(s3);
    s := Completed(f, s6);
  }

  lemma Moved(s3: State) returns (s6: State)
    requires Reachable(s3) && s3.ph == At(1, true, false, P.Session(P.Scanning(0), 0, 1, 1, 1)) && s3.shifting
    requires |s3.gens| > 0 && |s3.states| == 2 && s3.system < 2
    requires |s3.sessions| == 1
    ensures Reachable(s6) && s6 == s3.(ph := At(2, true, false, P.Session(P.Won, 0, 1, 1, 1)))
  {
    var s4 := s3.(ph := At(1, true, false, P.Session(P.Scanning(1), 0, 1, 1, 1)));
    Then(s3, Phase(P.Compare(0), false, []), s4);
    var s5 := s3.(ph := At(1, true, false, P.Session(P.Moving, 0, 1, 1, 1)));
    Then(s4, Phase(P.Compare(0), false, []), s5);
    s6 := s3.(ph := At(2, true, false, P.Session(P.Won, 0, 1, 1, 1)));
    Then(s5, Phase(P.Move(0), false, []), s6);
  }

  lemma Completed(f: Psf, s0: State) returns (s: State)
    requires Reachable(s0) && s0.ph == At(2, true, false, P.Session(P.Won, 0, 1, 1, 1)) && s0.shifting
    requires s0.stage.Switched?
    requires s0.states == [{}, {f}] && s0.system == 1 && s0.actions == [Register(f)] && |s0.gens| > 0
    requires |s0.sessions| == 1 && s0.log == []
    ensures Reachable(s)
    ensures s == s0.(ph := At(2, false, false, P.Session(P.Working, 1, 1, 1, 1)), stage := NoShift,
                     states := [{f}, {f}],
                                     registers := s0.registers + [0])
  {
    assert Apply({}, [Register(f)]) == {f};
    var s1 := s0.(stage := BothApplied, states := [{f}, {f}]);
    Then(s0, ApplyOther(0), s1);
    var s2 := s1.(ph := At(2, false, false, P.Session(P.Closing, 0, 1, 1, 1)), stage := NoShift,
                  registers := s0.registers + [0]);
    Then(s1, Phase(P.Effect(0), false, []), s2);
    s := s2.(ph := At(2, false, false, P.Session(P.Working, 1, 1, 1, 1)));
    Then(s2, Phase(P.Close(0), false, []), s);
  }

  /** Then the record goes into the log behind the safe register address without f's key pointer. */
  lemma RefreshInBatchLosesPointer(f: Psf)
    ensures exists s :: Reachable(s) && |s.registers| == |s.acts| == |s.log| == 1 && Standing(s, f, 0, 1)
                        && s.registers[0] <= 0 && f in s.log[0].rec.values && f !in s.log[0].rec.pointers
  {
    var s0 := ShiftedInside(f);
    var s := Put(s0, 0, Session(1, 1, Batch([]))).(log := [Logged(Record({f}, {}, 0), 1)]);
    assert [Record({f}, {}, 0)][1..] == [] && [] + [Logged(Record({f}, {}, 0), 1)] == [Logged(Record({f}, {}, 0), 1)];
    Then(s0, Insert(0), s);
    assert s.acts[0][0] == Register(f);
  }
}
