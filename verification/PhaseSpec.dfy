/** The phase protocol with phases reduced to positions. An action has positions 0 to length; the
    system is at `pos`, every session follows. A session handles one position at a time: it may
    acknowledge it, compare everybody's acknowledgement, and move the system on. `PhaseMachine`
    proves that the code's system states, contexts and phase_finished entries implement this. */
module PhaseSpec {

  /** `shift` is the position at which the checkpoint version moves (beyond `length` if it does not);
      `barrier[k]` says that position k waits for every session. */
  datatype Config = Config(length: nat, shift: nat, barrier: seq<bool>)

  predicate ValidConfig(cfg: Config) {
    2 <= cfg.length == |cfg.barrier| && cfg.barrier[cfg.length - 1] && 1 <= cfg.shift != cfg.length
    && (cfg.shift < cfg.length ==> cfg.barrier[cfg.shift])
  }

  datatype Pc = Working | Entering | Handling | Scanning(i: nat) | Moving | Won | Closing

  /** c: position of the session's context; k: position being handled; f: position being caught up
      to; a: position last acknowledged in this action. */
  datatype Session = Session(pc: Pc, c: nat, k: nat, f: nat, a: nat)

  /** `open` is false once NoAction has been stored. `version` is the version the action began at,
      `last` the session that acknowledged last. */
  datatype State = State(cfg: Config, version: nat, pos: nat, open: bool, starting: bool, sessions: seq<Session>,
                         last: nat)

  datatype Step =
    | Refresh(t: nat, enter: bool)
    | LoadFinal(t: nat)
    | Skip(t: nat)
    | Ack(t: nat)
    | Direct(t: nat)
    | Compare(t: nat)
    | Move(t: nat)
    | Effect(t: nat)
    | Close(t: nat)
    | Start(cfg: Config)
    | Publish

  function VersionAt(s: State, k: nat): nat { if k >= s.cfg.shift then s.version + 1 else s.version }

  predicate Init(s: State, n: nat) {
    s == State(Config(2, 100, [true, true]), 1, 2, false, false, seq(n, _ => Session(Working, 2, 2, 2, 1)), 0)
  }

  predicate NextStep(s: State, s': State, step: Step) {
    match step
    case Start(cfg) =>
      && ValidConfig(cfg) && s.pos == s.cfg.length && !s.open && !s.starting
      && (forall t | 0 <= t < |s.sessions| :: s.sessions[t].pc.Working? && s.sessions[t].c == s.cfg.length)
      && s' == State(cfg, VersionAt(s, s.pos), 0, true, true,
                     seq(|s.sessions|, _ => Session(Working, 0, 0, 0, 0)), s.last)
    case Publish =>
      s.starting && s' == s.(starting := false, pos := 1)
    case _ => step.t < |s.sessions| && SessionStep(s, s', step, step.t, s.sessions[step.t])
  }

  predicate SessionStep(s: State, s': State, step: Step, t: nat, me: Session)
    requires t < |s.sessions| && !step.Start? && !step.Publish?
  {
    match step
    case Refresh(_, enter) =>
      me.pc.Working? && s' == s.(sessions := s.sessions[t := me.(pc := if enter then Entering else Working)])
    case LoadFinal(_) =>
      && me.pc.Entering?
      && s' == s.(sessions := s.sessions[t :=
           if s.pos == 0 || s.pos == s.cfg.length then me.(pc := Working, c := s.pos)
           else me.(pc := Handling, f := s.pos, k := if me.c == s.pos then me.c else me.c + 1)])
    case Skip(_) =>
      && me.pc.Handling? && (me.k == s.cfg.shift ==> me.c == me.k)
      && s' == s.(sessions := s.sessions[t := me.(pc := Closing)])
    case Ack(_) =>
      && me.pc.Handling? && (me.k == s.cfg.shift ==> me.c != me.k)
      && s' == s.(last := t, sessions := s.sessions[t :=
           me.(pc := Scanning(0), a := me.k, c := if me.k == s.cfg.shift then me.k else me.c)])
    case Direct(_) =>
      && me.pc.Handling? && me.k < s.cfg.length == |s.cfg.barrier| && !s.cfg.barrier[me.k]
      && s' == s.(sessions := s.sessions[t := me.(pc := Moving)])
    case Compare(_) =>
      && me.pc.Scanning?
      && s' == s.(sessions := s.sessions[t := me.(pc :=
           if me.pc.i >= |s.sessions| then Moving
           else if s.sessions[me.pc.i].a == me.k then Scanning(me.pc.i + 1)
           else Closing)])
    case Move(_) =>
      && me.pc.Moving?
      && (if s.pos == me.k
          then s' == s.(pos := me.k + 1, sessions := s.sessions[t := me.(pc := Won)])
          else s' == s.(sessions := s.sessions[t := me.(pc := Closing)]))
    case Effect(_) =>
      && me.pc.Won?
      && s' == s.(open := s.open && me.k + 1 != s.cfg.length, sessions := s.sessions[t := me.(pc := Closing)])
    case Close(_) =>
      && me.pc.Closing?
      && s' == s.(sessions := s.sessions[t :=
           if me.k == me.f then me.(pc := Working, c := me.k) else me.(pc := Handling, c := me.k, k := me.k + 1)])
  }

  predicate InHandler(pc: Pc) { !pc.Working? && !pc.Entering? }

  predicate SystemInv(s: State) {
    && ValidConfig(s.cfg) && s.pos <= s.cfg.length && (s.pos == 0 <==> s.starting)
    && (!s.open ==> s.pos == s.cfg.length)
  }

  predicate SessionInv(s: State, me: Session) {
    && me.c <= s.pos && me.a < s.cfg.length
    && (InHandler(me.pc) ==>
          1 <= me.k <= me.f <= s.pos && me.f < s.cfg.length && me.c <= me.k <= me.c + 1 && me.a <= me.k)
    && (!InHandler(me.pc) ==> me.a <= me.c)
    && (me.a >= s.cfg.shift <==> me.c >= s.cfg.shift)
    && (InHandler(me.pc) && !me.pc.Handling? && me.k == s.cfg.shift ==> me.c == me.k)
    && match me.pc
       case Handling => me.a <= me.c && (me.k == me.c ==> me.k == me.f)
       case Scanning(i) => me.a == me.k && i <= |s.sessions| && forall j | 0 <= j < i :: s.sessions[j].a >= me.k
       case Moving =>
         && s.cfg.length == |s.cfg.barrier|
         && (s.cfg.barrier[me.k] ==> forall j | 0 <= j < |s.sessions| :: s.sessions[j].a >= me.k)
       case Won => s.pos > me.k && (me.k + 1 == s.cfg.length ==> s.open)
       case _ => true
  }

  /** The system has left a barrier only if everybody has acknowledged it. */
  predicate BarrierInv(s: State)
    requires SystemInv(s)
  {
    forall k, t {:trigger s.cfg.barrier[k], s.sessions[t]}
      | 1 <= k < s.pos && 0 <= t < |s.sessions| && s.cfg.barrier[k] ::
      s.sessions[t].a >= k
  }

  predicate AllAcked(s: State) {
    |s.sessions| > 0 && forall t | 0 <= t < |s.sessions| :: s.sessions[t].a == s.pos
  }

  /** When everybody has acknowledged and the system has not moved, the last to acknowledge is on its
      way to moving it. */
  predicate LastInv(s: State)
    requires SystemInv(s)
  {
    1 <= s.pos < s.cfg.length && s.cfg.barrier[s.pos] && AllAcked(s) ==>
      && s.last < |s.sessions| && s.sessions[s.last].k == s.pos
      && (s.sessions[s.last].pc.Scanning? || s.sessions[s.last].pc.Moving?)
  }

  /** Only one session has taken a given transition. */
  predicate WinnerInv(s: State) {
    forall t, u | 0 <= t < u < |s.sessions| && s.sessions[t].pc.Won? && s.sessions[u].pc.Won? ::
      s.sessions[t].k != s.sessions[u].k
  }

  predicate Inv(s: State) {
    && SystemInv(s) && BarrierInv(s) && LastInv(s) && WinnerInv(s)
    && (forall t | 0 <= t < |s.sessions| :: SessionInv(s, s.sessions[t]))
    && (s.pos == 0 ==> forall t | 0 <= t < |s.sessions| :: !InHandler(s.sessions[t].pc) && s.sessions[t].a == 0)
  }

  lemma SystemInductive(s: State, s': State, step: Step)
    requires Inv(s) && NextStep(s, s', step) && !step.Start?
    ensures SystemInv(s') && s.pos <= s'.pos && s'.cfg == s.cfg && s'.version == s.version
    ensures |s'.sessions| == |s.sessions| && forall j | 0 <= j < |s.sessions| :: s.sessions[j].a <= s'.sessions[j].a
  {
    if !step.Publish? { assert SessionInv(s, s.sessions[step.t]); }
  }

  lemma SessionStable(s: State, s': State, step: Step, t: nat)
    requires Inv(s) && NextStep(s, s', step) && !step.Start? && t < |s.sessions| && (step.Publish? || t != step.t)
    ensures SessionInv(s', s'.sessions[t]) && s'.sessions[t] == s.sessions[t]
  {
    SystemInductive(s, s', step);
    assert s'.sessions[t] == s.sessions[t];
    assert SessionInv(s, s.sessions[t]);
    if s.sessions[t].pc.Won? && step.Effect? {
      assert SessionInv(s, s.sessions[step.t]);
      assert s.sessions[t].k != s.sessions[step.t].k;
    }
  }

  lemma CompareMover(s: State, s': State, t: nat)
    requires Inv(s) && NextStep(s, s', Compare(t))
    ensures SessionInv(s', s'.sessions[t])
  {
    var me, me' := s.sessions[t], s'.sessions[t];
    assert SessionInv(s, me);
    assert forall j | 0 <= j < |s.sessions| :: s'.sessions[j].a == s.sessions[j].a;
  }

  lemma MoveMover(s: State, s': State, step: Step)
    requires Inv(s) && NextStep(s, s', step) && (step.Direct? || step.Move? || step.Effect? || step.Skip?)
    ensures SessionInv(s', s'.sessions[step.t])
  {
    assert SessionInv(s, s.sessions[step.t]);
  }

  lemma SessionMover(s: State, s': State, step: Step)
    requires Inv(s) && NextStep(s, s', step) && !step.Start? && !step.Publish?
    ensures SessionInv(s', s'.sessions[step.t])
  {
    if step.Compare? {
      CompareMover(s, s', step.t);
    } else if step.Direct? || step.Move? || step.Effect? || step.Skip? {
      MoveMover(s, s', step);
    } else {
      assert SessionInv(s, s.sessions[step.t]);
      if s.pos > s.cfg.shift { assert s.cfg.barrier[s.cfg.shift] && s.sessions[step.t].a >= s.cfg.shift; }
    }
  }

  lemma BarrierInductive(s: State, s': State, step: Step)
    requires Inv(s) && NextStep(s, s', step) && !step.Start?
    ensures SystemInv(s') && BarrierInv(s')
  {
    SystemInductive(s, s', step);
    if !step.Publish? { assert SessionInv(s, s.sessions[step.t]); }
    forall k, t | 1 <= k < s'.pos && 0 <= t < |s'.sessions| && s'.cfg.barrier[k] ensures s'.sessions[t].a >= k {
      assert s.sessions[t].a <= s'.sessions[t].a;
      if k < s.pos { assert s.cfg.barrier[k] && s.sessions[t].a >= k; }
    }
  }

  /** A session that has just moved the system is ahead of every earlier winner. */
  lemma WinnersDiffer(s: State, s': State, t: nat, u: nat)
    requires Inv(s) && NextStep(s, s', Move(t)) && u < |s.sessions| && u != t
    requires s'.sessions[t].pc.Won? && s.sessions[u].pc.Won?
    ensures s.sessions[u].k < s'.sessions[t].k
  {
    assert SessionInv(s, s.sessions[u]);
  }

  lemma WinnerInductive(s: State, s': State, step: Step)
    requires Inv(s) && NextStep(s, s', step) && !step.Start?
    ensures WinnerInv(s')
  {
    if step.Move? && s'.sessions[step.t].pc.Won? {
      forall u | 0 <= u < |s.sessions| && u != step.t && s.sessions[u].pc.Won?
        ensures s.sessions[u].k < s'.sessions[step.t].k
      {
        WinnersDiffer(s, s', step.t, u);
      }
    } else {
      assert forall t | 0 <= t < |s.sessions| && s'.sessions[t].pc.Won? :: s'.sessions[t] == s.sessions[t];
    }
  }

  lemma LastAfterMove(s: State, s': State, step: Step)
    requires Inv(s) && NextStep(s, s', step) && !step.Start? && s'.pos != s.pos
    ensures !AllAcked(s')
  {
    if step.Publish? {
      assert |s.sessions| > 0 ==> s.sessions[0].a == 0;
    } else {
      assert SessionInv(s, s.sessions[step.t]);
      assert s'.sessions[step.t].a != s'.pos;
    }
  }

  lemma LastUnlessAck(s: State, s': State, step: Step)
    requires Inv(s) && NextStep(s, s', step) && !step.Start? && !step.Publish? && !step.Ack? && s'.pos == s.pos
    requires SystemInv(s') && 1 <= s.pos < s.cfg.length && s.cfg.barrier[s.pos] && AllAcked(s)
    ensures s'.last == s.last < |s'.sessions| && s'.sessions[s.last].k == s.pos
    ensures s'.sessions[s.last].pc.Scanning? || s'.sessions[s.last].pc.Moving?
  {
    assert SessionInv(s, s.sessions[step.t]);
    if step.t == s.last {
      assert step.Compare? || step.Move?;
    } else {
      assert s'.sessions[s.last] == s.sessions[s.last];
    }
  }

  lemma LastInductive(s: State, s': State, step: Step)
    requires Inv(s) && NextStep(s, s', step) && !step.Start?
    ensures SystemInv(s') && LastInv(s')
  {
    SystemInductive(s, s', step);
    if s'.pos != s.pos {
      LastAfterMove(s, s', step);
    } else if step.Ack? {
      assert SessionInv(s, s.sessions[step.t]);
    } else if !step.Publish? {
      assert forall j | 0 <= j < |s.sessions| :: s'.sessions[j].a == s.sessions[j].a;
      if 1 <= s.pos < s.cfg.length && s.cfg.barrier[s.pos] && AllAcked(s) { LastUnlessAck(s, s', step); }
    }
  }

  lemma InvInductive(s: State, s': State, step: Step)
    requires Inv(s) && NextStep(s, s', step)
    ensures Inv(s')
  {
    if !step.Start? {
      SystemInductive(s, s', step);
      BarrierInductive(s, s', step);
      WinnerInductive(s, s', step);
      LastInductive(s, s', step);
      if !step.Publish? { SessionMover(s, s', step); }
      forall t | 0 <= t < |s'.sessions| ensures SessionInv(s', s'.sessions[t]) {
        if step.Publish? || t != step.t { SessionStable(s, s', step, t); }
      }
    }
  }

  lemma InitInv(s: State, n: nat)
    requires Init(s, n)
    ensures Inv(s)
  {
  }

  predicate IsRun(run: seq<State>, steps: seq<Step>, n: nat) {
    && |run| == |steps| + 1 && Init(run[0], n)
    && forall i {:trigger steps[i]} | 0 <= i < |steps| :: NextStep(run[i], run[i + 1], steps[i])
  }

  lemma {:induction false} RunInv(run: seq<State>, steps: seq<Step>, n: nat, i: nat)
    requires IsRun(run, steps, n) && i < |run|
    ensures Inv(run[i]) && |run[i].sessions| == n
  {
    if i == 0 {
      InitInv(run[0], n);
    } else {
      RunInv(run, steps, n, i - 1);
      assert NextStep(run[i - 1], run[i], steps[i - 1]);
      InvInductive(run[i - 1], run[i], steps[i - 1]);
    }
  }

  // ---------------------------------------------------------------- what the protocol guarantees

  /** No early phase: whoever moves the system past a barrier does so when every session has
      acknowledged exactly that position. */
  lemma BarrierWaits(s: State, s': State, t: nat)
    requires Inv(s) && NextStep(s, s', Move(t)) && s'.pos != s.pos && s.pos < s.cfg.length && s.cfg.barrier[s.pos]
    ensures AllAcked(s) && s'.pos == s.pos + 1
  {
    assert SessionInv(s, s.sessions[t]);
    forall u | 0 <= u < |s.sessions| ensures s.sessions[u].a == s.pos {
      assert SessionInv(s, s.sessions[u]);
    }
  }

  /** The position never goes back while an action lasts. */
  lemma {:induction false} PositionGrows(run: seq<State>, steps: seq<Step>, n: nat, i: nat, j: nat)
    requires IsRun(run, steps, n) && i <= j < |run| && forall k | i <= k < j :: !steps[k].Start?
    ensures run[i].pos <= run[j].pos
  {
    if i < j {
      PositionGrows(run, steps, n, i, j - 1);
      RunInv(run, steps, n, j - 1);
      assert NextStep(run[j - 1], run[j], steps[j - 1]);
      SystemInductive(run[j - 1], run[j], steps[j - 1]);
    }
  }

  predicate Takes(s: State, s': State, step: Step, k: nat) { step.Move? && s.pos == k && s'.pos == k + 1 }

  /** In one action a transition is taken at most once, so by exactly one session. */
  lemma TransitionsOnce(run: seq<State>, steps: seq<Step>, n: nat, i: nat, j: nat, k: nat)
    requires IsRun(run, steps, n) && i < |steps| && j < |steps|
    requires forall m | i <= m < j || j <= m < i :: !steps[m].Start?
    requires Takes(run[i], run[i + 1], steps[i], k) && Takes(run[j], run[j + 1], steps[j], k)
    ensures i == j
  {
    if i < j { PositionGrows(run, steps, n, i + 1, j); }
    if j < i { PositionGrows(run, steps, n, j + 1, i); }
  }

  /** Sessions are at the system's version or one behind, and at the system's version as soon as it
      has left the position at which the version moves. */
  lemma VersionGap(s: State, t: nat)
    requires Inv(s) && t < |s.sessions|
    ensures VersionAt(s, s.sessions[t].c) <= VersionAt(s, s.pos) <= VersionAt(s, s.sessions[t].c) + 1
    ensures s.pos > s.cfg.shift || s.pos < s.cfg.shift ==> VersionAt(s, s.sessions[t].c) == VersionAt(s, s.pos)
  {
    assert SessionInv(s, s.sessions[t]);
    if s.pos > s.cfg.shift {
      assert s.cfg.barrier[s.cfg.shift] && s.sessions[t].a >= s.cfg.shift;
    }
  }

  predicate AboutToMove(s: State) {
    Inv(s) && 1 <= s.pos < s.cfg.length && s.cfg.barrier[s.pos] && AllAcked(s)
  }

  function Compared(s: State, t: nat): State
    requires t < |s.sessions| && s.sessions[t].pc.Scanning?
  {
    var me := s.sessions[t];
    s.(sessions := s.sessions[t := me.(pc := if me.pc.i == |s.sessions| then Moving else Scanning(me.pc.i + 1))])
  }

  /** The run of session t alone from s: it compares the remaining acknowledgements and moves the system. */
  function Finishing(s: State, t: nat): (r: seq<State>)
    requires t < |s.sessions| && (s.sessions[t].pc.Scanning? || s.sessions[t].pc.Moving?)
    requires s.sessions[t].pc.Scanning? ==> s.sessions[t].pc.i <= |s.sessions|
    ensures |r| == (if s.sessions[t].pc.Moving? then 2 else |s.sessions| - s.sessions[t].pc.i + 3) && r[0] == s
    decreases if s.sessions[t].pc.Scanning? then |s.sessions| + 1 - s.sessions[t].pc.i else 0
  {
    var me := s.sessions[t];
    if me.pc.Moving? then [s, s.(pos := me.k + 1, sessions := s.sessions[t := me.(pc := Won)])]
    else [s] + Finishing(Compared(s, t), t)
  }

  lemma LastCompares(s: State)
    requires AboutToMove(s)
    ensures s.last < |s.sessions| && s.sessions[s.last].k == s.pos
    ensures s.sessions[s.last].pc.Scanning? || s.sessions[s.last].pc.Moving?
    ensures s.sessions[s.last].pc.Scanning? ==>
              && s.sessions[s.last].pc.i <= |s.sessions|
              && NextStep(s, Compared(s, s.last), Compare(s.last)) && AboutToMove(Compared(s, s.last))
  {
    var t := s.last;
    assert SessionInv(s, s.sessions[t]);
    if s.sessions[t].pc.Scanning? {
      var s' := Compared(s, t);
      assert NextStep(s, s', Compare(t));
      InvInductive(s, s', Compare(t));
      assert AllAcked(s') by { assert forall u | 0 <= u < |s.sessions| :: s'.sessions[u].a == s.sessions[u].a; }
    }
  }

  /** No lost barrier: once everybody has acknowledged, the last to have done so needs nobody else to
      take the system past the barrier. */
  lemma {:induction false} LastFinishes(s: State)
    requires AboutToMove(s)
    ensures s.last < |s.sessions| && (s.sessions[s.last].pc.Scanning? || s.sessions[s.last].pc.Moving?)
    ensures s.sessions[s.last].pc.Scanning? ==> s.sessions[s.last].pc.i <= |s.sessions|
    ensures var run := Finishing(s, s.last);
            && run[|run| - 1].pos == s.pos + 1
            && (forall i | 0 <= i < |run| - 1 ::
                  NextStep(run[i], run[i + 1], if i == |run| - 2 then Move(s.last) else Compare(s.last)))
    decreases if s.last < |s.sessions| && s.sessions[s.last].pc.Scanning?
              then |s.sessions| + 1 - s.sessions[s.last].pc.i else 0
  {
    LastCompares(s);
    var t := s.last;
    if s.sessions[t].pc.Scanning? {
      var s' := Compared(s, t);
      LastFinishes(s');
      assert Finishing(s, t) == [s] + Finishing(s', t);
    }
  }

  /** Steps left in the present pass of the catch-up loop, at most. */
  function Pass(n: nat, pc: Pc): int {
    match pc
    case Handling => n + 5
    case Scanning(i) => n + 4 - i
    case Moving => 3
    case Won => 2
    case Closing => 1
    case _ => 0
  }

  /** The catch-up loop ends, however the others interleave: each of the session's own steps lowers
      (positions left, steps left in this pass), and it leaves the loop at the position it loaded. */
  lemma CatchesUp(s: State, s': State, step: Step)
    requires Inv(s) && NextStep(s, s', step) && !step.Start? && !step.Publish? && InHandler(s.sessions[step.t].pc)
    ensures var me, me' := s.sessions[step.t], s'.sessions[step.t];
            if me'.pc.Working? then me'.c == me.f
            else
              && 0 <= me'.f - me'.k && 0 <= Pass(|s.sessions|, me'.pc)
              && (me'.f - me'.k < me.f - me.k
                  || (me'.f - me'.k == me.f - me.k && Pass(|s.sessions|, me'.pc) < Pass(|s.sessions|, me.pc)))
  {
    SessionMover(s, s', step);
    assert SessionInv(s, s.sessions[step.t]);
    SystemInductive(s, s', step);
  }
}
