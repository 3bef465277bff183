/** Flushing pages and moving flushed_until_address (src/core/persistent_memory_malloc.h:
    OnPagesMarkedReadOnly, AsyncFlushPages and its callback, ShiftFlushedUntilAddress,
    PageAlignedShiftHeadAddress, MonotonicUpdate).

    With page-aligned shifts every address is a page number. The flush status of page p lives in frame
    p % buffer_size and is overwritten when p + buffer_size is flushed. One atomic access per step, any
    number of threads; marked-read-only actions run in any order, writes complete in any order.
    A `Mode` says what is known of completions; flushed_until_address is to be trusted exactly if both
    things are (SafeExactly). */
module PageFlush {
  import E = EpochSpec
  import H = HybridLog

  /** `protect`: completion callbacks run on epoch-protected threads (a session calling TryComplete) and
      not anywhere (an I/O thread pool). `first`: page 0's write completes before any other page's. */
  datatype Mode = Mode(protect: bool, first: bool)

  const BOTH := Mode(true, true)

  datatype Pc =
    | Idle
    | Flushing(p: nat, until: nat)               // AsyncFlushPages: about to clear the status of page p
    | Submitting(p: nat, until: nat)             // about to write page p
    | Storing(p: nat)                            // page p is written: about to store its status
    | Loading                                    // ShiftFlushedUntilAddress: about to load flushed_until
    | Shifting(page: nat, cur: nat, start: nat, update: bool)
    | Updating(cur: nat)
    | HeadLoaded(f: nat)                         // PageAlignedShiftHeadAddress: loaded flushed_until
    | Owing(h: nat)                              // moved the head, BumpCurrentEpoch not yet called

  /** `last[f]` is LastFlushedUntilAddress of frame f; `heads[i]` the target of the closing action of
      ticket i. `issued` and `done` are history: pages handed to the disk, and pages whose status was stored. */
  datatype State = State(
    ep: E.State, heads: seq<nat>, tail: nat, readOnly: nat, marked: set<nat>, safeReadOnly: nat,
    head: nat, safeHead: nat, flushed: nat, last: seq<nat>, threads: seq<Pc>,
    issued: set<nat>, inFlight: set<nat>, done: set<nat>)

  datatype Step =
    | Enter(t: nat)
    | Leave(t: nat)
    | NewPage
    | MarkReadOnly(n: nat)
    | RunMarked(t: nat, n: nat)
    | ClearStatus(t: nat)
    | Submit(t: nat)
    | EndFlush(t: nat)
    | Complete(t: nat, p: nat)
    | StoreStatus(t: nat)
    | LoadFlushed(t: nat)
    | LoadStatus(t: nat)
    | Update(t: nat)
    | LoadForHead(t: nat)
    | ShiftHead(t: nat, h: nat)
    | Bump(t: nat)
    | RunClosed(ticket: nat)

  predicate Init(s: State, n: nat, b: nat) {
    && 6 <= b
    && s == State(E.State({}, [], {}), [], 0, 0, {}, 0, 0, 0, 0, seq(b, _ => 0), seq(n, _ => Idle), {}, {}, {})
  }

  function Frames(s: State): nat { |s.last| }

  function Slot(s: State, p: nat): nat
    requires |s.last| > 0
  {
    p % |s.last|
  }

  function Put(s: State, t: nat, pc: Pc): State
    requires t < |s.threads|
  {
    s.(threads := s.threads[t := pc])
  }

  function Status(s: State, p: nat): nat
    requires |s.last| > 0
  {
    s.last[p % |s.last|]
  }

  predicate NextStep(s: State, s': State, step: Step, mode: Mode) {
    match step
    case NewPage => s.tail + 2 < s.safeHead + Frames(s) && s' == s.(tail := s.tail + 1)
    case MarkReadOnly(n) => s.readOnly < n <= s.tail && s' == s.(readOnly := n, marked := s.marked + {n})
    case RunClosed(i) =>
      && i < |s.heads| && E.NextStep(s.ep, s'.ep, E.Run(i))
      && s' == s.(ep := s'.ep, safeHead := if s.safeHead < s.heads[i] then s.heads[i] else s.safeHead)
    case _ => step.t < |s.threads| && Frames(s) > 0 && ThreadStep(s, s', step, mode, step.t, s.threads[step.t])
  }

  predicate ThreadStep(s: State, s': State, step: Step, mode: Mode, t: nat, pc: Pc)
    requires t < |s.threads| && Frames(s) > 0 && !step.NewPage? && !step.MarkReadOnly? && !step.RunClosed?
  {
    match step
    case Enter(_) => pc.Idle? && E.NextStep(s.ep, s'.ep, E.Enter(t)) && s' == s.(ep := s'.ep)
    case Leave(_) => pc.Idle? && E.NextStep(s.ep, s'.ep, E.Leave(t)) && s' == s.(ep := s'.ep)
    case RunMarked(_, n) =>
      && pc.Idle? && n in s.marked
      && s' == (if s.safeReadOnly < n then Put(s, t, Flushing(s.safeReadOnly, n)) else s)
                 .(marked := s.marked - {n}, safeReadOnly := if s.safeReadOnly < n then n else s.safeReadOnly)
    case ClearStatus(_) =>
      && pc.Flushing? && pc.p < pc.until
      && s' == Put(s, t, Submitting(pc.p, pc.until)).(last := s.last[Slot(s, pc.p) := 0])
    case Submit(_) =>
      && pc.Submitting?
      && s' == Put(s, t, Flushing(pc.p + 1, pc.until)).(issued := s.issued + {pc.p}, inFlight := s.inFlight + {pc.p})
    case EndFlush(_) => pc.Flushing? && pc.p == pc.until && s' == Put(s, t, Idle)
    case Complete(_, p) =>
      && pc.Idle? && p in s.inFlight && (mode.protect ==> t in s.ep.inside) && (mode.first ==> p == 0 || 0 in s.done)
      && s' == Put(s, t, Storing(p)).(inFlight := s.inFlight - {p})
    case StoreStatus(_) =>
      && pc.Storing?
      && s' == Put(s, t, Loading).(last := s.last[Slot(s, pc.p) := pc.p + 1], done := s.done + {pc.p})
    case LoadFlushed(_) => pc.Loading? && s' == Put(s, t, Shifting(s.flushed, s.flushed, s.flushed, false))
    case LoadStatus(_) =>
      && pc.Shifting?
      && s' == Put(s, t, if Status(s, pc.page) >= pc.cur then Shifting(pc.page + 1, Status(s, pc.page), pc.start, true)
                         else if pc.update then Updating(pc.cur) else Idle)
    case Update(_) =>
      && pc.Updating?
      && s' == Put(s, t, Idle).(flushed := if s.flushed < pc.cur then pc.cur else s.flushed)
    case LoadForHead(_) => pc.Idle? && s' == Put(s, t, HeadLoaded(s.flushed))
    case ShiftHead(_, h) =>
      && pc.HeadLoaded? && h <= pc.f
      && s' == (if s.head < h then Put(s, t, Owing(h)).(head := h) else Put(s, t, Idle))
    case Bump(_) =>
      && pc.Owing? && E.NextStep(s.ep, s'.ep, E.Bump)
      && s' == Put(s, t, Idle).(ep := s'.ep, heads := s.heads + [pc.h])
  }

  // ---------------------------------------------------------------- invariant

  predicate SystemInv(s: State) {
    && 6 <= |s.last| && E.Inv(s.ep) && |s.heads| == |s.ep.waiting|
    && s.tail + 2 <= s.safeHead + |s.last| && s.safeReadOnly <= s.readOnly <= s.tail && s.safeHead <= s.flushed
    && (forall n | n in s.marked :: n <= s.readOnly)
    && (forall i | 0 <= i < |s.heads| :: s.heads[i] <= s.flushed)
  }

  /** Statuses tell of pages that were written. */
  predicate StatusInv(s: State)
    requires |s.last| > 0
  {
    && (forall f | 0 <= f < |s.last| && s.last[f] > 0 :: s.last[f] - 1 in s.done && (s.last[f] - 1) % |s.last| == f)
    && (0 in s.done && s.safeHead == 0 ==> s.last[0] == 1)
  }

  predicate Busy(pc: Pc) { pc.Flushing? || pc.Submitting? }

  /** The flushing threads and the issued pages share out the pages below safe_read_only. */
  predicate IssueInv(s: State) {
    && (forall p | p in s.issued :: p < s.safeReadOnly) && s.done <= s.issued && s.inFlight <= s.issued
    && (forall t | 0 <= t < |s.threads| && s.threads[t].Storing? :: s.threads[t].p in s.issued)
    && (forall t | 0 <= t < |s.threads| && Busy(s.threads[t]) ::
          && s.threads[t].p <= s.threads[t].until <= s.safeReadOnly
          && (s.threads[t].Submitting? ==> s.threads[t].p < s.threads[t].until)
          && forall p | p in s.issued :: !(s.threads[t].p <= p < s.threads[t].until))
    && (forall t, u
          | 0 <= t < |s.threads| && 0 <= u < |s.threads| && t != u && Busy(s.threads[t]) && Busy(s.threads[u]) ::
          s.threads[t].until <= s.threads[u].p || s.threads[u].until <= s.threads[t].p)
  }

  predicate Covers(pc: Pc, p: nat) { Busy(pc) && pc.p <= p < pc.until }

  predicate CoverInv(s: State) {
    forall p: nat | p < s.safeReadOnly :: p in s.issued || exists t | 0 <= t < |s.threads| :: Covers(s.threads[t], p)
  }

  predicate AllDone(s: State, n: nat) { forall p: nat | p < n :: p in s.done }

  predicate ThreadInv(s: State, t: nat)
    requires t < |s.threads| && |s.heads| == |s.ep.waiting|
  {
    match s.threads[t]
    case Storing(p) => (p == 0 || 0 in s.done) && t in s.ep.inside
    case Loading => 0 in s.done && t in s.ep.inside
    case Shifting(page, cur, start, _) =>
      && page == cur && start <= cur && AllDone(s, cur) && 0 in s.done && t in s.ep.inside
      && s.safeHead <= start <= s.flushed
      && forall i | 0 <= i < |s.heads| && i !in s.ep.ran && s.heads[i] > start :: t in s.ep.waiting[i]
    case Updating(cur) => AllDone(s, cur)
    case HeadLoaded(f) => f <= s.flushed
    case Owing(h) => h <= s.flushed
    case _ => true
  }

  /** The invariant when callbacks are protected. */
  predicate Inv(s: State) {
    && SystemInv(s) && StatusInv(s) && IssueInv(s) && CoverInv(s) && AllDone(s, s.flushed)
    && forall t | 0 <= t < |s.threads| :: ThreadInv(s, t)
  }

  // ---------------------------------------------------------------- proof

  /** A status at or above `cur`, seen in cur's frame while safe_head has not passed cur, is cur's own. */
  lemma FrameHolds(s: State, cur: nat)
    requires SystemInv(s) && StatusInv(s) && IssueInv(s) && s.safeHead <= cur && 0 in s.done && Status(s, cur) >= cur
    ensures Status(s, cur) == cur + 1 && cur in s.done
  {
    var b := |s.last|;
    assert cur == 0 ==> cur % b == 0;
    var p := Status(s, cur) - 1;
    assert p in s.done && p % b == cur % b;
    assert p < cur + b;
    if p >= cur { H.FrameInjective(cur, p, b); } else { H.FrameInjective(p, cur, b); }
  }

  lemma SystemInductive(s: State, s': State, step: Step, mode: Mode)
    requires Inv(s) && NextStep(s, s', step, mode)
    ensures SystemInv(s') && s.safeHead <= s'.safeHead && s.flushed <= s'.flushed && |s'.threads| == |s.threads|
    ensures s.done <= s'.done
  {
    if !ByNobody(step) { assert ThreadInv(s, step.t); }
    match step
    case Enter(t) => E.InvInductive(s.ep, s'.ep, E.Enter(t));
    case Leave(t) => E.InvInductive(s.ep, s'.ep, E.Leave(t));
    case Bump(_) => E.InvInductive(s.ep, s'.ep, E.Bump);
    case RunClosed(i) => E.InvInductive(s.ep, s'.ep, E.Run(i));
    case _ =>
  }

  /** Only page 0 uses frame 0 before the head moves. */
  lemma FirstFrame(s: State, p: nat)
    requires SystemInv(s) && p < s.safeReadOnly && s.safeHead == 0 && p % |s.last| == 0
    ensures p == 0
  {
    H.FrameInjective(0, p, |s.last|);
  }

  lemma StatusCleared(s: State, p: nat)
    requires |s.last| > 0 && StatusInv(s) && (0 in s.done && s.safeHead == 0 ==> p % |s.last| != 0)
    ensures StatusInv(s.(last := s.last[Slot(s, p) := 0]))
  {
  }

  lemma StatusStored(s: State, p: nat)
    requires |s.last| > 0 && StatusInv(s) && (s.safeHead == 0 && p % |s.last| == 0 ==> p == 0)
    requires (p == 0 || 0 in s.done)
    ensures StatusInv(s.(last := s.last[Slot(s, p) := p + 1], done := s.done + {p}))
  {
    var last := s.last[Slot(s, p) := p + 1];
    forall f | 0 <= f < |last| && last[f] > 0 ensures last[f] - 1 in s.done + {p} && (last[f] - 1) % |last| == f {
      if f == Slot(s, p) { assert last[f] - 1 == p; } else { assert last[f] == s.last[f]; }
    }
  }

  lemma StatusInductive(s: State, s': State, step: Step, mode: Mode)
    requires Inv(s) && NextStep(s, s', step, mode)
    ensures |s'.last| == |s.last| && StatusInv(s')
  {
    if step.ClearStatus? {
      var p := s.threads[step.t].p;
      if s.safeHead == 0 && p % |s.last| == 0 { FirstFrame(s, p); }
      StatusCleared(s, p);
    } else if step.StoreStatus? {
      var p := s.threads[step.t].p;
      assert ThreadInv(s, step.t);
      if s.safeHead == 0 && p % |s.last| == 0 { FirstFrame(s, p); }
      StatusStored(s, p);
    } else {
      assert s'.last == s.last && s'.done == s.done;
      SystemInductive(s, s', step, mode);
    }
  }

  predicate SameIssue(s: State, s': State) {
    && s'.issued == s.issued && s'.inFlight <= s.inFlight && s'.safeReadOnly == s.safeReadOnly
    && |s'.threads| == |s.threads|
    && s'.done <= s.issued
    && forall t | 0 <= t < |s.threads| ::
         && (Busy(s'.threads[t]) <==> Busy(s.threads[t]))
         && (Busy(s.threads[t]) ==> s'.threads[t].p == s.threads[t].p && s'.threads[t].until == s.threads[t].until
                                    && (s'.threads[t].Submitting? ==> s.threads[t].p < s.threads[t].until))
         && (s'.threads[t].Storing? ==> s'.threads[t].p in s.issued)
  }

  lemma IssueKept(s: State, s': State)
    requires IssueInv(s) && CoverInv(s) && SameIssue(s, s')
    ensures IssueInv(s') && CoverInv(s')
  {
    forall p: nat | p < s'.safeReadOnly
      ensures p in s'.issued || exists t | 0 <= t < |s'.threads| :: Covers(s'.threads[t], p)
    {
      if p !in s.issued {
        var t :| 0 <= t < |s.threads| && Covers(s.threads[t], p);
        assert Covers(s'.threads[t], p);
      }
    }
  }

  lemma SubmitIssues(s: State, s': State, t: nat, mode: Mode)
    requires IssueInv(s) && CoverInv(s) && NextStep(s, s', Submit(t), mode)
    ensures IssueInv(s') && CoverInv(s')
  {
    forall p: nat | p < s'.safeReadOnly
      ensures p in s'.issued || exists u | 0 <= u < |s'.threads| :: Covers(s'.threads[u], p)
    {
      if p !in s'.issued {
        var u :| 0 <= u < |s.threads| && Covers(s.threads[u], p);
        assert Covers(s'.threads[u], p);
      }
    }
  }

  lemma MarkedIssues(s: State, s': State, t: nat, n: nat, mode: Mode)
    requires IssueInv(s) && CoverInv(s) && NextStep(s, s', RunMarked(t, n), mode) && s.safeReadOnly < n
    ensures IssueInv(s') && CoverInv(s')
  {
    forall p: nat | p < s'.safeReadOnly
      ensures p in s'.issued || exists u | 0 <= u < |s'.threads| :: Covers(s'.threads[u], p)
    {
      if p >= s.safeReadOnly {
        assert Covers(s'.threads[t], p);
      } else if p !in s'.issued {
        var u :| 0 <= u < |s.threads| && Covers(s.threads[u], p);
        assert Covers(s'.threads[u], p);
      }
    }
  }

  lemma EndIssues(s: State, s': State, t: nat, mode: Mode)
    requires IssueInv(s) && CoverInv(s) && NextStep(s, s', EndFlush(t), mode)
    ensures IssueInv(s') && CoverInv(s')
  {
    forall p: nat | p < s'.safeReadOnly
      ensures p in s'.issued || exists u | 0 <= u < |s'.threads| :: Covers(s'.threads[u], p)
    {
      if p !in s'.issued {
        var u :| 0 <= u < |s.threads| && Covers(s.threads[u], p);
        assert Covers(s'.threads[u], p);
      }
    }
  }

  lemma KeepsIssue(s: State, s': State, step: Step, mode: Mode)
    requires IssueInv(s) && NextStep(s, s', step, mode)
    requires !step.Submit? && !step.EndFlush? && !(step.RunMarked? && s.safeReadOnly < step.n)
    ensures SameIssue(s, s')
  {
  }

  lemma IssueInductive(s: State, s': State, step: Step, mode: Mode)
    requires IssueInv(s) && CoverInv(s) && NextStep(s, s', step, mode)
    ensures IssueInv(s') && CoverInv(s')
  {
    if step.Submit? {
      SubmitIssues(s, s', step.t, mode);
    } else if step.EndFlush? {
      EndIssues(s, s', step.t, mode);
    } else if step.RunMarked? && s.safeReadOnly < step.n {
      MarkedIssues(s, s', step.t, step.n, mode);
    } else {
      KeepsIssue(s, s', step, mode);
      IssueKept(s, s');
    }
  }

  predicate ByNobody(step: Step) { step.NewPage? || step.MarkReadOnly? || step.RunClosed? }

  predicate EpochStep(step: Step) { step.Enter? || step.Leave? || step.Bump? || step.RunClosed? }

  lemma OtherUnderEpoch(s: State, s': State, step: Step, mode: Mode, u: nat)
    requires Inv(s) && NextStep(s, s', step, mode) && u < |s.threads| && EpochStep(step)
    requires (ByNobody(step) || step.t != u)
    requires SystemInv(s')
    ensures |s'.threads| == |s.threads| && ThreadInv(s', u)
  {
    assert ThreadInv(s, u);
    if step.Bump? { assert ThreadInv(s, step.t); }
  }

  lemma OtherThread(s: State, s': State, step: Step, mode: Mode, u: nat)
    requires Inv(s) && NextStep(s, s', step, mode) && u < |s.threads| && (ByNobody(step) || step.t != u)
    ensures SystemInv(s') && |s'.threads| == |s.threads| && ThreadInv(s', u)
  {
    SystemInductive(s, s', step, mode);
    if EpochStep(step) {
      OtherUnderEpoch(s, s', step, mode, u);
    } else {
      assert s'.ep == s.ep && s'.heads == s.heads && s'.threads[u] == s.threads[u] && s'.safeHead == s.safeHead;
      assert ThreadInv(s, u);
    }
  }

  lemma Mover(s: State, s': State, step: Step)
    requires Inv(s) && NextStep(s, s', step, BOTH) && !ByNobody(step)
    ensures SystemInv(s') && |s'.threads| == |s.threads| && ThreadInv(s', step.t)
  {
    SystemInductive(s, s', step, BOTH);
    assert ThreadInv(s, step.t);
    if step.LoadStatus? {
      var pc := s.threads[step.t];
      if Status(s, pc.page) >= pc.cur { FrameHolds(s, pc.cur); }
    }
  }

  lemma InvInductive(s: State, s': State, step: Step)
    requires Inv(s) && NextStep(s, s', step, BOTH)
    ensures Inv(s')
  {
    SystemInductive(s, s', step, BOTH);
    StatusInductive(s, s', step, BOTH);
    IssueInductive(s, s', step, BOTH);
    if step.Update? { assert ThreadInv(s, step.t); }
    forall t | 0 <= t < |s'.threads| ensures ThreadInv(s', t) {
      if ByNobody(step) || step.t != t {
        OtherThread(s, s', step, BOTH, t);
      } else {
        Mover(s, s', step);
      }
    }
  }

  lemma InitInv(s: State, n: nat, b: nat)
    requires Init(s, n, b)
    ensures Inv(s)
  {
  }

  predicate IsRun(run: seq<State>, steps: seq<Step>, n: nat, b: nat, mode: Mode) {
    && |run| == |steps| + 1 && Init(run[0], n, b)
    && forall i {:trigger steps[i]} | 0 <= i < |steps| :: NextStep(run[i], run[i + 1], steps[i], mode)
  }

  lemma {:induction false} RunInv(run: seq<State>, steps: seq<Step>, n: nat, b: nat, i: nat)
    requires IsRun(run, steps, n, b, BOTH) && i < |run|
    ensures Inv(run[i])
  {
    if i == 0 {
      InitInv(run[0], n, b);
    } else {
      RunInv(run, steps, n, b, i - 1);
      assert NextStep(run[i - 1], run[i], steps[i - 1], BOTH);
      InvInductive(run[i - 1], run[i], steps[i - 1]);
    }
  }

  // ---------------------------------------------------------------- what flushing guarantees

  /** With protected callbacks and page 0 first, flushed_until never passes a page whose write has not
      completed. */
  lemma FlushedIsWritten(run: seq<State>, steps: seq<Step>, n: nat, b: nat, i: nat, p: nat)
    requires IsRun(run, steps, n, b, BOTH) && i < |run| && p < run[i].flushed
    ensures p in run[i].done && p in run[i].issued
  {
    RunInv(run, steps, n, b, i);
  }

  lemma {:induction false} RunIssue(run: seq<State>, steps: seq<Step>, n: nat, b: nat, mode: Mode, i: nat)
    requires IsRun(run, steps, n, b, mode) && i < |run|
    ensures IssueInv(run[i]) && CoverInv(run[i])
  {
    if i > 0 {
      RunIssue(run, steps, n, b, mode, i - 1);
      assert NextStep(run[i - 1], run[i], steps[i - 1], mode);
      IssueInductive(run[i - 1], run[i], steps[i - 1], mode);
    }
  }

  /** A page is handed to the disk at most once, whatever order the marked-read-only actions run in. */
  lemma IssuedOnce(run: seq<State>, steps: seq<Step>, n: nat, b: nat, mode: Mode, i: nat)
    requires IsRun(run, steps, n, b, mode) && i < |steps| && steps[i].Submit?
    ensures steps[i].t < |run[i].threads| && run[i].threads[steps[i].t].Submitting?
    ensures run[i].threads[steps[i].t].p !in run[i].issued
  {
    RunIssue(run, steps, n, b, mode, i);
    assert NextStep(run[i], run[i + 1], steps[i], mode);
  }

  /** And exactly once: when no thread is inside AsyncFlushPages, every page below safe_read_only, and no
      other, has been handed to the disk. */
  lemma AllIssued(run: seq<State>, steps: seq<Step>, n: nat, b: nat, mode: Mode, i: nat, p: nat)
    requires IsRun(run, steps, n, b, mode) && i < |run|
    requires forall t | 0 <= t < |run[i].threads| :: !Busy(run[i].threads[t])
    ensures p in run[i].issued <==> p < run[i].safeReadOnly
  {
    RunIssue(run, steps, n, b, mode, i);
  }

  // ---------------------------------------------------------------- runs that pass an unwritten page

  ghost predicate Reachable(s: State, mode: Mode) {
    exists run, steps :: IsRun(run, steps, 2, 6, mode) && run[|run| - 1] == s
  }

  lemma Then(s: State, step: Step, s': State, mode: Mode)
    requires Reachable(s, mode) && NextStep(s, s', step, mode)
    ensures Reachable(s', mode)
  {
    var run, steps :| IsRun(run, steps, 2, 6, mode) && run[|run| - 1] == s;
    var run', steps' := run + [s'], steps + [step];
    forall i | 0 <= i < |steps'| ensures NextStep(run'[i], run'[i + 1], steps'[i], mode) {
      if i < |steps| { assert NextStep(run[i], run[i + 1], steps[i], mode); }
    }
    assert IsRun(run', steps', 2, 6, mode);
  }

  /** Thread 1 is protected throughout, thread 0 never is. */
  lemma Fresh(mode: Mode) returns (s: State)
    ensures Reachable(s, mode)
    ensures s == State(E.State({1}, [], {}), [], 0, 0, {}, 0, 0, 0, 0, [0, 0, 0, 0, 0, 0], [Idle, Idle], {}, {}, {})
  {
    var s0 := State(E.State({}, [], {}), [], 0, 0, {}, 0, 0, 0, 0, seq(6, _ => 0), seq(2, _ => Idle), {}, {}, {});
    assert IsRun([s0], [], 2, 6, mode);
    s := s0.(ep := E.State({1}, [], {}));
    Then(s0, Enter(1), s, mode);
  }

  lemma {:induction false} Grow(s: State, n: nat, mode: Mode) returns (s': State)
    requires Reachable(s, mode) && s.tail <= n && n + 1 < s.safeHead + |s.last|
    ensures Reachable(s', mode) && s' == s.(tail := n)
    decreases n - s.tail
  {
    if s.tail == n {
      s' := s;
    } else {
      Then(s, NewPage, s.(tail := s.tail + 1), mode);
      s' := Grow(s.(tail := s.tail + 1), n, mode);
    }
  }

  /** Thread 1 marks the pages below n read-only. */
  lemma Mark(s: State, n: nat, mode: Mode) returns (s': State)
    requires Reachable(s, mode) && |s.threads| == 2 && s.threads[1].Idle? && |s.last| > 0
    requires s.marked == {} && s.safeReadOnly < n && s.readOnly < n <= s.tail
    ensures Reachable(s', mode) && s' == Put(s, 1, Flushing(s.safeReadOnly, n)).(readOnly := n, safeReadOnly := n)
  {
    var m := s.(readOnly := n, marked := {n});
    Then(s, MarkReadOnly(n), m, mode);
    s' := Put(s, 1, Flushing(s.safeReadOnly, n)).(readOnly := n, safeReadOnly := n);
    Then(m, RunMarked(1, n), s', mode);
  }

  /** Thread 1 hands its pages to the disk. */
  lemma {:induction false} Flush(s: State, p: nat, until: nat, mode: Mode) returns (s': State)
    requires Reachable(s, mode) && |s.threads| == 2 && s.threads[1] == Flushing(p, until) && p <= until && |s.last| > 0
    ensures Reachable(s', mode) && s' == Put(s, 1, Idle).(last := s'.last, issued := s'.issued, inFlight := s'.inFlight)
    ensures s.inFlight <= s'.inFlight && forall q | p <= q < until :: q in s'.inFlight
    ensures |s'.last| == |s.last| && forall f | 0 <= f < |s.last| :: s'.last[f] <= s.last[f]
    decreases until - p
  {
    if p == until {
      s' := Put(s, 1, Idle);
      Then(s, EndFlush(1), s', mode);
    } else {
      var c := Put(s, 1, Submitting(p, until)).(last := s.last[Slot(s, p) := 0]);
      Then(s, ClearStatus(1), c, mode);
      var d := Put(c, 1, Flushing(p + 1, until)).(issued := c.issued + {p}, inFlight := c.inFlight + {p});
      Then(c, Submit(1), d, mode);
      s' := Flush(d, p + 1, until, mode);
    }
  }

  /** The write of page p completes on thread t, which goes as far as loading flushed_until. */
  lemma Callback(s: State, t: nat, p: nat, mode: Mode) returns (s': State)
    requires Reachable(s, mode) && t < |s.threads| && s.threads[t].Idle? && |s.last| > 0 && p in s.inFlight
    requires (mode.protect ==> t in s.ep.inside) && (mode.first ==> p == 0 || 0 in s.done)
    ensures Reachable(s', mode) && s' == Put(s, t, Shifting(s.flushed, s.flushed, s.flushed, false))
                                     .(inFlight := s.inFlight - {p}, done := s.done + {p},
                                       last := s.last[Slot(s, p) := p + 1])
  {
    var c := Put(s, t, Storing(p)).(inFlight := s.inFlight - {p});
    Then(s, Complete(t, p), c, mode);
    var d := Put(c, t, Loading).(last := s.last[Slot(s, p) := p + 1], done := s.done + {p});
    Then(c, StoreStatus(t), d, mode);
    s' := Put(d, t, Shifting(s.flushed, s.flushed, s.flushed, false));
    Then(d, LoadFlushed(t), s', mode);
    assert s' == Put(s, t, Shifting(s.flushed, s.flushed, s.flushed, false))
                   .(inFlight := s.inFlight - {p}, done := s.done + {p}, last := s.last[Slot(s, p) := p + 1]);
  }

  /** It finds the page at `page` flushed. */
  lemma Hop(s: State, t: nat, page: nat, cur: nat, start: nat, update: bool, mode: Mode) returns (s': State)
    requires Reachable(s, mode) && t < |s.threads| && |s.last| > 0 && s.threads[t] == Shifting(page, cur, start, update)
    requires Status(s, page) >= cur
    ensures Reachable(s', mode) && s' == Put(s, t, Shifting(page + 1, Status(s, page), start, true))
  {
    s' := Put(s, t, Shifting(page + 1, Status(s, page), start, true));
    Then(s, LoadStatus(t), s', mode);
  }

  /** It finds the page at `page` not flushed and stores what it has reached. */
  lemma Land(s: State, t: nat, page: nat, cur: nat, start: nat, mode: Mode) returns (s': State)
    requires Reachable(s, mode) && t < |s.threads| && |s.last| > 0 && s.threads[t] == Shifting(page, cur, start, true)
    requires Status(s, page) < cur
    requires s.flushed < cur
    ensures Reachable(s', mode) && s' == Put(s, t, Idle).(flushed := cur)
  {
    var c := Put(s, t, Updating(cur));
    Then(s, LoadStatus(t), c, mode);
    s' := Put(s, t, Idle).(flushed := cur);
    assert s' == Put(c, t, Idle).(flushed := cur);
    Then(c, Update(t), s', mode);
  }

  /** Thread 1 refreshes; nobody else is protected, so the pages below the head close. */
  lemma ClosePages(s: State, h: nat, mode: Mode) returns (s': State)
    requires Reachable(s, mode) && |s.threads| == 2 && s.threads[1].Idle? && |s.last| > 0
    requires s.ep == E.State({1}, [{1}], {}) && s.heads == [h] && s.safeHead < h
    ensures Reachable(s', mode) && s' == s.(ep := s'.ep, safeHead := h) && s'.ep.inside == {1}
  {
    var w := E.Forget(s.ep.waiting, 1);
    var f := s.(ep := E.State({1} + {1}, w, {}));
    Then(s, Enter(1), f, mode);
    assert w[0] == {};
    s' := f.(ep := f.ep.(ran := {0}), safeHead := h);
    Then(f, RunClosed(0), s', mode);
  }

  /** Thread 1 moves the head to flushed_until. */
  lemma MoveHead(s: State, mode: Mode) returns (s': State)
    requires Reachable(s, mode) && |s.threads| == 2 && s.threads[1].Idle? && |s.last| > 0
    requires s.ep == E.State({1}, [], {}) && s.heads == [] && s.head < s.flushed && s.safeHead < s.flushed
    ensures Reachable(s', mode) && s' == s.(ep := s'.ep, heads := s'.heads, head := s.flushed, safeHead := s.flushed)
    ensures s'.ep.inside == {1}
  {
    var h := s.flushed;
    var c := Put(s, 1, HeadLoaded(h));
    Then(s, LoadForHead(1), c, mode);
    var d := Put(c, 1, Owing(h)).(head := h);
    Then(c, ShiftHead(1, h), d, mode);
    var e := s.(ep := E.State({1}, [{1}], {}), heads := [h], head := h);
    assert e.threads == d.threads[1 := Idle];
    Then(d, Bump(1), e, mode);
    s' := ClosePages(e, h, mode);
  }

  /** Pages 0 to 2 are handed to the disk; page 0's callback, on thread 0, loads flushed_until = 0 and stalls. */
  lemma Stalls(mode: Mode) returns (s: State)
    requires !mode.protect
    ensures Reachable(s, mode) && |s.last| == 6 && s.threads == [Shifting(0, 0, 0, false), Idle]
    ensures s.ep == E.State({1}, [], {}) && s.heads == [] && s.marked == {}
    ensures s.tail == s.readOnly == s.safeReadOnly == 3
    ensures s.head == s.safeHead == s.flushed == 0 && s.done == {0} && {1, 2} <= s.inFlight
    ensures s.last == [1, 0, 0, 0, 0, 0]
  {
    var s0 := Fresh(mode);
    var s1 := Grow(s0, 3, mode);
    var s2 := Mark(s1, 3, mode);
    var s3 := Flush(s2, 0, 3, mode);
    s := Callback(s3, 0, 0, mode);
  }

  /** The other pages complete on thread 1, which moves flushed_until to 3. */
  lemma FirstPages(mode: Mode) returns (s: State)
    requires !mode.protect
    ensures Reachable(s, mode) && |s.last| == 6 && s.threads == [Shifting(0, 0, 0, false), Idle]
    ensures s.ep == E.State({1}, [], {}) && s.heads == [] && s.marked == {}
    ensures s.tail == s.readOnly == s.safeReadOnly == s.flushed == 3
    ensures s.head == s.safeHead == 0 && s.done == {0, 1, 2} && forall f | 0 <= f < 6 :: s.last[f] <= 3
  {
    var s4 := Stalls(mode);
    var s5 := Callback(s4, 1, 1, mode);
    var s6 := Hop(s5, 1, 0, 0, 0, false, mode);
    var s7 := Hop(s6, 1, 1, 1, 0, true, mode);
    var s8 := Land(s7, 1, 2, 2, 0, mode);
    var s9 := Callback(s8, 1, 2, mode);
    var s10 := Hop(s9, 1, 2, 2, 2, false, mode);
    s := Land(s10, 1, 3, 3, 2, mode);
  }

  ghost predicate PassesUnwritten(s: State) { exists p: nat :: p < s.flushed && p in s.inFlight && p !in s.done }

  /** If callbacks may run unprotected, flushed_until can pass pages that were never written: thread 0
      takes page 6's status for page 0's and moves flushed_until to 7, past pages 3, 4 and 5. */
  lemma UnprotectedPassesUnwritten(mode: Mode) returns (s: State)
    requires !mode.protect
    ensures Reachable(s, mode) && PassesUnwritten(s)
  {
    var s0 := FirstPages(mode);
    var s1 := MoveHead(s0, mode);
    var s2 := Grow(s1, 7, mode);
    var s3 := Mark(s2, 7, mode);
    var s4 := Flush(s3, 3, 7, mode);
    var s5 := Callback(s4, 1, 6, mode);
    var s6 := Hop(s5, 0, 0, 0, 0, false, mode);
    s := Land(s6, 0, 1, 7, 0, mode);
    assert 3 < s.flushed && 3 in s.inFlight && 3 !in s.done;
  }

  /** Nor if another page may complete before page 0, protected or not: page 0's cleared status, 0, is not
      below flushed_until = 0, so thread 1, completing page 1, moves flushed_until to 2. */
  lemma UnorderedPassesUnwritten(mode: Mode) returns (s: State)
    requires !mode.first
    ensures Reachable(s, mode) && PassesUnwritten(s)
  {
    var s0 := Fresh(mode);
    var s1 := Grow(s0, 2, mode);
    var s2 := Mark(s1, 2, mode);
    var s3 := Flush(s2, 0, 2, mode);
    var s4 := Callback(s3, 1, 1, mode);
    var s5 := Hop(s4, 1, 0, 0, 0, false, mode);
    var s6 := Hop(s5, 1, 1, 0, 0, true, mode);
    s := Land(s6, 1, 2, 2, 0, mode);
    assert 0 < s.flushed && 0 in s.inFlight && 0 !in s.done;
  }

  predicate WrittenOnly(s: State) { forall p: nat | p < s.flushed :: p in s.done }

  /** In every run flushed_until covers written pages only. */
  ghost predicate Safe(mode: Mode) {
    forall run: seq<State>, steps: seq<Step>, n: nat, b: nat, i: nat
      {:trigger IsRun(run, steps, n, b, mode), run[i]}
      | IsRun(run, steps, n, b, mode) && i < |run| :: WrittenOnly(run[i])
  }

  /** flushed_until_address is to be trusted exactly if callbacks are protected and page 0 comes first. */
  lemma SafeExactly(mode: Mode)
    ensures Safe(mode) <==> mode.protect && mode.first
  {
    if mode == BOTH {
      forall run: seq<State>, steps: seq<Step>, n: nat, b: nat, i: nat | IsRun(run, steps, n, b, mode) && i < |run|
        ensures WrittenOnly(run[i])
      {
        RunInv(run, steps, n, b, i);
      }
    } else {
      var s;
      if !mode.protect {
        s := UnprotectedPassesUnwritten(mode);
      } else {
        s := UnorderedPassesUnwritten(mode);
      }
      var run, steps :| IsRun(run, steps, 2, 6, mode) && run[|run| - 1] == s;
      assert !WrittenOnly(run[|run| - 1]);
    }
  }

  // ---------------------------------------------------------------- that things move

  /** safe_head_address is the highest target of the closing actions that have run. */
  predicate ClosedOk(s: State) {
    && (forall i | i in s.ep.ran :: i < |s.heads| && s.heads[i] <= s.safeHead)
    && (s.safeHead == 0 || exists i :: i in s.ep.ran && i < |s.heads| && s.heads[i] == s.safeHead)
  }

  lemma ClosedInductive(s: State, s': State, step: Step, mode: Mode)
    requires ClosedOk(s) && NextStep(s, s', step, mode)
    ensures ClosedOk(s')
  {
    if s.safeHead != 0 {
      var i :| i in s.ep.ran && i < |s.heads| && s.heads[i] == s.safeHead;
      assert i in s'.ep.ran && s'.heads[i] == s.safeHead;
    }
    if step.RunClosed? { assert step.ticket in s'.ep.ran; }
  }

  lemma {:induction false} ClosedExactly(run: seq<State>, steps: seq<Step>, n: nat, b: nat, mode: Mode, k: nat)
    requires IsRun(run, steps, n, b, mode) && k < |run|
    ensures ClosedOk(run[k])
  {
    if k > 0 {
      ClosedExactly(run, steps, n, b, mode, k - 1);
      assert NextStep(run[k - 1], run[k], steps[k - 1], mode);
      ClosedInductive(run[k - 1], run[k], steps[k - 1], mode);
    }
  }

  /** safe_read_only_address moves with the marked-read-only actions: it is at or above every target that is no
      longer waiting, and never above read_only_address. */
  lemma {:induction false} MarkedRuns(run: seq<State>, steps: seq<Step>, n: nat, b: nat, mode: Mode, i: nat, j: nat)
    requires IsRun(run, steps, n, b, mode) && i < j < |run| && steps[i].MarkReadOnly?
    ensures steps[i].n in run[j].marked || steps[i].n <= run[j].safeReadOnly
    ensures steps[i].n <= run[j].readOnly
    decreases j
  {
    assert NextStep(run[j - 1], run[j], steps[j - 1], mode);
    if i + 1 < j { MarkedRuns(run, steps, n, b, mode, i, j - 1); }
  }

  lemma {:induction false} SafeIsMarked(run: seq<State>, steps: seq<Step>, n: nat, b: nat, mode: Mode, k: nat)
    requires IsRun(run, steps, n, b, mode) && k < |run|
    ensures run[k].safeReadOnly <= run[k].readOnly && forall x | x in run[k].marked :: x <= run[k].readOnly
    ensures run[k].safeReadOnly == 0 || exists i :: 0 <= i < k && steps[i] == MarkReadOnly(run[k].safeReadOnly)
    ensures forall x | x in run[k].marked :: exists i :: 0 <= i < k && steps[i] == MarkReadOnly(x)
  {
    if k > 0 {
      SafeIsMarked(run, steps, n, b, mode, k - 1);
      assert NextStep(run[k - 1], run[k], steps[k - 1], mode);
    }
  }

  /** The head is at or above every target it was to be shifted to. */
  lemma {:induction false} HeadShifts(run: seq<State>, steps: seq<Step>, n: nat, b: nat, mode: Mode, i: nat, j: nat)
    requires IsRun(run, steps, n, b, mode) && i < j < |run| && steps[i].ShiftHead?
    ensures steps[i].h <= run[j].head
    decreases j
  {
    assert NextStep(run[j - 1], run[j], steps[j - 1], mode);
    if i + 1 < j { HeadShifts(run, steps, n, b, mode, i, j - 1); }
  }

  /** The statuses say that the pages from flushed_until to n have been written. */
  predicate WrittenTo(s: State, n: nat) { |s.last| > 0 && forall p | s.flushed <= p < n :: Status(s, p) == p + 1 }

  /** How far thread t, alone since s0, has got with ShiftFlushedUntilAddress. */
  predicate ShiftsAlone(s0: State, s: State, t: nat, n: nat) {
    && t < |s.threads| && s.last == s0.last && s.flushed == s0.flushed
    && match s.threads[t]
       case Loading => true
       case Shifting(page, cur, start, update) =>
         && start == s0.flushed <= page && (page <= n ==> cur == page) && (page > n && page > s0.flushed ==> n <= cur)
         && (page > s0.flushed ==> update) && (page == s0.flushed ==> cur == page)
       case Updating(cur) => n <= cur
       case _ => false
  }

  lemma ShiftsOn(s0: State, s: State, s': State, step: Step, mode: Mode, t: nat, n: nat)
    requires WrittenTo(s0, n) && ShiftsAlone(s0, s, t, n)
    requires NextStep(s, s', step, mode) && !ByNobody(step) && step.t == t
    ensures ShiftsAlone(s0, s', t, n) || (s'.threads[t].Idle? && n <= s'.flushed)
  {
    if step.LoadStatus? { assert Status(s, s.threads[t].page) == Status(s0, s.threads[t].page); }
  }

  lemma {:induction false} ShiftsLast(run: seq<State>, steps: seq<Step>, n: nat, b: nat, mode: Mode, i: nat, j: nat,
                                      t: nat, to: nat)
    requires IsRun(run, steps, n, b, mode) && i <= j < |run| && t < |run[i].threads| && run[i].threads[t].Loading?
    requires WrittenTo(run[i], to) && forall k | i <= k < j :: !ByNobody(steps[k]) && steps[k].t == t
    requires forall k | i < k <= j :: t < |run[k].threads| && !run[k].threads[t].Idle?
    ensures ShiftsAlone(run[i], run[j], t, to)
    decreases j
  {
    if i < j {
      ShiftsLast(run, steps, n, b, mode, i, j - 1, t, to);
      assert NextStep(run[j - 1], run[j], steps[j - 1], mode);
      ShiftsOn(run[i], run[j - 1], run[j], steps[j - 1], mode, t, to);
    }
  }

  /** A callback that runs ShiftFlushedUntilAddress alone moves flushed_until past every page that the statuses
      say has been written, up to the first that has not. */
  lemma ShiftReaches(run: seq<State>, steps: seq<Step>, n: nat, b: nat, mode: Mode, i: nat, j: nat, t: nat, to: nat)
    requires IsRun(run, steps, n, b, mode) && i < j < |run| && t < |run[i].threads| && run[i].threads[t].Loading?
    requires WrittenTo(run[i], to) && forall k | i <= k < j :: !ByNobody(steps[k]) && steps[k].t == t
    requires forall k | i < k <= j :: t < |run[k].threads| && (run[k].threads[t].Idle? <==> k == j)
    ensures to <= run[j].flushed
  {
    ShiftsLast(run, steps, n, b, mode, i, j - 1, t, to);
    assert NextStep(run[j - 1], run[j], steps[j - 1], mode);
    ShiftsOn(run[i], run[j - 1], run[j], steps[j - 1], mode, t, to);
  }
}
