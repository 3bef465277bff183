/** The hybrid log (src/core/persistent_memory_malloc.h) under BlockAllocate and InternalInsert
    (src/core/fishstore.h): tail, read-only, safe-read-only, head, safe-head and flushed-until
    addresses over a circular buffer of page frames, with page closing and read-only marking
    deferred through `EpochSpec`.

    An address is flat: page * PAGE_SIZE + offset. One atomic access per step, any number of
    threads; OnPagesClosed is one step. `TailAllocator` has the packed tail word, `PageFlush` the
    way flushed-until moves, `HashChain` the writes an insertion makes (all at or above its record). */
module HybridLog {
  import EpochSpec

  const PAGE_SIZE: nat := 0x200_0000

  function Page(a: nat): nat { a / PAGE_SIZE }
  function Offset(a: nat): nat { a % PAGE_SIZE }

  /** The deferred actions: OnPagesMarkedReadOnly and OnPagesClosed, with their target address. */
  datatype Action = MarkReadOnly(target: nat) | ClosePages(target: nat)

  /** Where a thread is in BlockAllocate / InternalInsert / NewPage / PageAlignedShift*. */
  datatype Pc =
    | Outside                     // not protected
    | Ready                       // protected, holding no address
    | Candidate(a: nat)           // Allocate returned a, read_only_address not compared yet
    | Writing(a: nat)             // a >= read_only_address when compared; filling the record
    | Turning(page: nat)          // NewPage saw room for page + 1
    | Owing(act: Action)          // moved an address, BumpCurrentEpoch not yet called

  /** `head` is the head_address loaded in the current protected section, if any. */
  datatype Thread = Thread(pc: Pc, head: Option)
  datatype Option = None | Some(value: nat)

  /** `log` is history: what was last written to every address, page reuse ignored. A missing
      address or offset reads as zero. */
  datatype State = State(
    ep: EpochSpec.State, actions: seq<Action>, threads: seq<Thread>,
    page: nat, tail: nat, readOnly: nat, safeReadOnly: nat, head: nat, safeHead: nat, flushed: nat,
    frames: seq<map<nat, int>>, log: map<nat, int>)

  function At(m: map<nat, int>, k: nat): int { if k in m then m[k] else 0 }

  function Put(m: map<nat, int>, k: nat, v: int): map<nat, int> { m[k := v] }

  /** The bytes Get(address) reaches: frame page % buffer_size. */
  function Peek(s: State, a: nat): int
    requires |s.frames| > 0
  {
    At(s.frames[Page(a) % |s.frames|], Offset(a))
  }

  datatype Step =
    | Refresh(t: nat)
    | StopSession(t: nat)
    | Allocate(t: nat, size: nat)
    | Overshoot(t: nat, size: nat)
    | CompareReadOnly(t: nat)
    | Write(t: nat, a: nat, v: int)
    | Finish(t: nat)
    | LoadHead(t: nat)
    | CheckRoom(t: nat)
    | NewPage(t: nat)
    | ShiftReadOnly(t: nat, target: nat)
    | ShiftHead(t: nat, target: nat)
    | Bump(t: nat)
    | RunAction(ticket: nat)
    | FlushDone(target: nat)

  predicate Init(s: State, n: nat, b: nat) {
    && 6 <= b
    && s == State(EpochSpec.State({}, [], {}), [], seq(n, _ => Thread(Outside, None)),
                  0, 64, 64, 64, 64, 64, 0, seq(b, _ => map[]), map[])
  }

  /** Frame f belongs to one of the pages [from, until). */
  predicate FrameOf(from: nat, until: nat, b: nat, f: nat)
    requires 0 < b
  {
    exists p | from <= p < until :: p % b == f
  }

  /** The loop of OnPagesClosed: clear the frames of pages [from, until). */
  function Clear(frames: seq<map<nat, int>>, from: nat, until: nat): (r: seq<map<nat, int>>)
    requires |frames| > 0
  {
    seq(|frames|, f requires 0 <= f < |frames| => if FrameOf(from, until, |frames|, f) then map[] else frames[f])
  }

  predicate NextStep(s: State, s': State, step: Step) {
    match step
    case RunAction(i) =>
      && i < |s.actions| && |s.frames| > 0
      && EpochSpec.NextStep(s.ep, s'.ep, EpochSpec.Run(i))
      && (match s.actions[i]
          case MarkReadOnly(a) =>
            s' == s.(ep := s'.ep, safeReadOnly := if s.safeReadOnly < a then a else s.safeReadOnly)
          case ClosePages(a) =>
            if s.safeHead < a
            then s' == s.(ep := s'.ep, safeHead := a, frames := Clear(s.frames, Page(s.safeHead), Page(a)))
            else s' == s.(ep := s'.ep))
    case FlushDone(target) =>
      s.flushed <= target <= s.safeReadOnly && s' == s.(flushed := target)
    case _ => step.t < |s.threads| && ThreadStep(s, s', step, step.t, s.threads[step.t])
  }

  predicate ThreadStep(s: State, s': State, step: Step, t: nat, th: Thread)
    requires !step.RunAction? && !step.FlushDone? && t == step.t < |s.threads| && th == s.threads[t]
  {
    match step
    case Refresh(_) =>
      && (th.pc.Outside? || th.pc.Ready? || th.pc.Candidate?)
      && EpochSpec.NextStep(s.ep, s'.ep, EpochSpec.Enter(t))
      && s' == s.(ep := s'.ep, threads := s.threads[t := Thread(Ready, None)])
    case StopSession(_) =>
      && th.pc.Ready?
      && EpochSpec.NextStep(s.ep, s'.ep, EpochSpec.Leave(t))
      && s' == s.(ep := s'.ep, threads := s.threads[t := Thread(Outside, None)])
    case Allocate(_, size) =>
      && th.pc.Ready? && 0 < size && s.tail + size <= (s.page + 1) * PAGE_SIZE
      && s' == s.(tail := s.tail + size, threads := s.threads[t := th.(pc := Candidate(s.tail))])
    case Overshoot(_, size) =>
      // Allocate finds no room: the page is closed and the tail reads as the page's last byte or its end.
      && th.pc.Ready? && s.tail + size > (s.page + 1) * PAGE_SIZE
      && s' == s.(tail := (s.page + 1) * PAGE_SIZE)
    case CompareReadOnly(_) =>
      && th.pc.Candidate? && s.readOnly <= th.pc.a
      && s' == s.(threads := s.threads[t := th.(pc := Writing(th.pc.a))])
    case Write(_, a, v) =>
      && th.pc.Writing? && th.pc.a <= a < s.tail && |s.frames| > 0
      && var f := Page(a) % |s.frames|;
         s' == s.(log := s.log[a := v], frames := s.frames[f := Put(s.frames[f], Offset(a), v)])
    case Finish(_) =>
      && th.pc.Writing?
      && s' == s.(threads := s.threads[t := th.(pc := Ready)])
    case LoadHead(_) =>
      && !th.pc.Outside?
      && s' == s.(threads := s.threads[t := th.(head := Some(s.head))])
    case CheckRoom(_) =>
      && th.pc.Ready? && s.page + 2 < Page(s.safeHead) + |s.frames|
      && s' == s.(threads := s.threads[t := th.(pc := Turning(s.page))])
    case NewPage(_) =>
      && th.pc.Turning?
      && (if s.page == th.pc.page
          then s' == s.(page := s.page + 1, tail := (s.page + 1) * PAGE_SIZE,
                        threads := s.threads[t := th.(pc := Ready)])
          else s' == s.(threads := s.threads[t := th.(pc := Ready)]))
    case ShiftReadOnly(_, target) =>
      && th.pc.Ready? && s.readOnly < target <= s.tail
      && s' == s.(readOnly := target, threads := s.threads[t := th.(pc := Owing(MarkReadOnly(target)))])
    case ShiftHead(_, target) =>
      && th.pc.Ready? && s.head < target && Offset(target) == 0 && Page(target) <= Page(s.flushed)
      && s' == s.(head := target, threads := s.threads[t := th.(pc := Owing(ClosePages(target)))])
    case Bump(_) =>
      && th.pc.Owing?
      && EpochSpec.NextStep(s.ep, s'.ep, EpochSpec.Bump)
      && s' == s.(ep := s'.ep, actions := s.actions + [th.pc.act], threads := s.threads[t := th.(pc := Ready)])
  }

  // ---------------------------------------------------------------- invariant

  /** The addresses stay in order, the tail stays inside the buffer. */
  predicate Ordered(s: State) {
    && |s.frames| >= 6
    && s.safeReadOnly <= s.readOnly <= s.tail && s.flushed <= s.safeReadOnly
    && s.safeHead <= s.head && Page(s.head) <= Page(s.flushed)
    && s.page * PAGE_SIZE <= s.tail <= (s.page + 1) * PAGE_SIZE
    && s.page <= Page(s.safeHead) + |s.frames| - 2
  }

  predicate ActionOk(s: State, act: Action) {
    match act
    case MarkReadOnly(a) => a <= s.readOnly
    case ClosePages(a) => a <= s.head && Offset(a) == 0
  }

  /** What a thread may rely on. `Since(t, i)`: ticket i no longer waits for t. */
  predicate ThreadOk(s: State, t: nat, th: Thread)
    requires |s.actions| == |s.ep.waiting|
  {
    && (!th.pc.Outside? <==> t in s.ep.inside)
    && (th.pc.Outside? ==> th.head.None?)
    && (th.pc.Owing? ==> ActionOk(s, th.pc.act))
    && (th.pc.Turning? ==> th.pc.page <= s.page && th.pc.page + 2 < Page(s.safeHead) + |s.frames|)
    && (th.pc.Candidate? ==> th.pc.a < s.tail)
    && (th.pc.Writing? ==>
          && s.safeReadOnly <= th.pc.a < s.tail
          && forall i | 0 <= i < |s.actions| && s.actions[i].MarkReadOnly? ::
               t in s.ep.waiting[i] || s.actions[i].target <= th.pc.a)
    && (th.head.Some? ==>
          && s.safeHead <= th.head.value
          && forall i | 0 <= i < |s.actions| && s.actions[i].ClosePages? ::
               t in s.ep.waiting[i] || s.actions[i].target <= th.head.value)
  }

  /** The frames hold exactly the pages of the window that starts at the safe head page. */
  ghost predicate Resident(s: State)
    requires |s.frames| > 0
  {
    && (forall a | a in s.log :: a < s.tail)
    && forall a: nat {:trigger At(s.log, a)} | Page(s.safeHead) <= Page(a) < Page(s.safeHead) + |s.frames| ::
         Peek(s, a) == At(s.log, a)
  }

  ghost predicate Inv(s: State) {
    && Ordered(s) && EpochSpec.Inv(s.ep)
    && |s.actions| == |s.ep.waiting|
    && (forall t | t in s.ep.inside :: t < |s.threads|)
    && (forall i | 0 <= i < |s.actions| :: ActionOk(s, s.actions[i]))
    && (forall t | 0 <= t < |s.threads| :: ThreadOk(s, t, s.threads[t]))
    && Resident(s)
  }

  /** Pages fewer than a buffer apart have different frames. */
  lemma FrameInjective(p: nat, q: nat, b: nat)
    requires 0 < b && p <= q < p + b && p % b == q % b
    ensures p == q
  {
    var k := q / b - p / b;
    assert q - p == b * k;
    assert k >= 1 ==> b * k >= b;
    assert k <= -1 ==> b * k + b <= 0;
  }

  lemma FrameWraps(p: nat, b: nat)
    requires 0 < b
    ensures (p + b) % b == p % b
  {
    var k := (p + b) / b - p / b - 1;
    assert b * k == p % b - (p + b) % b;
    assert k >= 1 ==> b * k >= b;
    assert k <= -1 ==> b * k + b <= 0;
  }

  lemma OrderedInductive(s: State, s': State, step: Step)
    requires Inv(s) && NextStep(s, s', step)
    ensures Ordered(s') && s.tail <= s'.tail && s.readOnly <= s'.readOnly && s.head <= s'.head
    ensures s.safeHead <= s'.safeHead && s.safeReadOnly <= s'.safeReadOnly
  {
    match step
    case RunAction(i) => assert ActionOk(s, s.actions[i]);
    case NewPage(t) => assert ThreadOk(s, t, s.threads[t]);
    case _ =>
  }

  lemma ActionsInductive(s: State, s': State, step: Step)
    requires Inv(s) && NextStep(s, s', step)
    ensures |s'.actions| == |s'.ep.waiting|
    ensures forall i | 0 <= i < |s'.actions| :: ActionOk(s', s'.actions[i])
    ensures EpochSpec.Inv(s'.ep) && forall t | t in s'.ep.inside :: t < |s'.threads|
  {
    OrderedInductive(s, s', step);
    if step.Bump? { assert ThreadOk(s, step.t, s.threads[step.t]); }
    forall i | 0 <= i < |s.actions| ensures ActionOk(s', s.actions[i]) {
      assert ActionOk(s, s.actions[i]);
    }
    match step
    case RunAction(i) => EpochSpec.InvInductive(s.ep, s'.ep, EpochSpec.Run(i));
    case Refresh(t) => EpochSpec.InvInductive(s.ep, s'.ep, EpochSpec.Enter(t));
    case StopSession(t) => EpochSpec.InvInductive(s.ep, s'.ep, EpochSpec.Leave(t));
    case Bump(t) => EpochSpec.InvInductive(s.ep, s'.ep, EpochSpec.Bump);
    case _ =>
  }

  /** An action runs only when every thread that could still rely on the old address has moved on. */
  lemma RunRespectsThreads(s: State, s': State, i: nat, t: nat)
    requires Inv(s) && NextStep(s, s', RunAction(i)) && t < |s.threads|
    ensures |s'.actions| == |s'.ep.waiting| && ThreadOk(s', t, s'.threads[t])
  {
    assert ThreadOk(s, t, s.threads[t]) && ActionOk(s, s.actions[i]);
    OrderedInductive(s, s', RunAction(i));
  }

  /** A thread that does not step keeps what it relies on. */
  lemma ThreadStable(s: State, s': State, step: Step, t: nat)
    requires Inv(s) && NextStep(s, s', step) && t < |s.threads| && !step.RunAction?
    requires step.FlushDone? || step.t != t
    ensures |s'.actions| == |s'.ep.waiting| && ThreadOk(s', t, s'.threads[t])
  {
    assert ThreadOk(s, t, s.threads[t]);
    OrderedInductive(s, s', step);
    ActionsInductive(s, s', step);
    assert s'.threads[t] == s.threads[t];
  }

  /** Steps that move the thread between sections or let it owe an action. */
  predicate SectionStep(step: Step) {
    step.Refresh? || step.StopSession? || step.Bump? || step.ShiftReadOnly? || step.ShiftHead? || step.LoadHead?
  }

  lemma SectionMover(s: State, s': State, step: Step)
    requires Inv(s) && NextStep(s, s', step) && SectionStep(step) && Ordered(s')
    ensures |s'.actions| == |s'.ep.waiting| && ThreadOk(s', step.t, s'.threads[step.t])
  {
    assert ThreadOk(s, step.t, s.threads[step.t]);
    forall i | 0 <= i < |s.actions| ensures ActionOk(s, s.actions[i]) { }
  }

  lemma RecordMover(s: State, s': State, step: Step)
    requires Inv(s) && NextStep(s, s', step) && !step.RunAction? && !step.FlushDone? && !SectionStep(step)
    requires Ordered(s')
    ensures |s'.actions| == |s'.ep.waiting| && ThreadOk(s', step.t, s'.threads[step.t])
  {
    assert ThreadOk(s, step.t, s.threads[step.t]);
    forall i | 0 <= i < |s.actions| ensures ActionOk(s, s.actions[i]) { }
  }

  lemma ThreadMover(s: State, s': State, step: Step)
    requires Inv(s) && NextStep(s, s', step) && !step.RunAction? && !step.FlushDone?
    ensures |s'.actions| == |s'.ep.waiting| && ThreadOk(s', step.t, s'.threads[step.t])
  {
    OrderedInductive(s, s', step);
    if SectionStep(step) { SectionMover(s, s', step); } else { RecordMover(s, s', step); }
  }

  /** Writing through the frame of a page in the window changes no other address of the window. */
  lemma WriteResident(s: State, s': State, t: nat, a: nat, v: int)
    requires Inv(s) && NextStep(s, s', Write(t, a, v))
    ensures Resident(s')
  {
    assert ThreadOk(s, t, s.threads[t]);
    InWindow(s, a);
    var lo, b := Page(s.safeHead), |s.frames|;
    forall c: nat | lo <= Page(c) < lo + b ensures Peek(s', c) == At(s'.log, c) {
      assert Peek(s, c) == At(s.log, c);
      if Page(c) % b == Page(a) % b {
        if Page(a) <= Page(c) { FrameInjective(Page(a), Page(c), b); } else { FrameInjective(Page(c), Page(a), b); }
        assert c == a <==> Offset(c) == Offset(a);
      }
    }
  }

  /** Every address at or above the safe head, up to the tail, is in the window. */
  lemma InWindow(s: State, a: nat)
    requires Ordered(s) && (s.safeHead <= a || s.safeReadOnly <= a) && a < s.tail
    ensures Page(s.safeHead) <= Page(a) < Page(s.safeHead) + |s.frames| - 1
  {
  }

  lemma CloseResident(s: State, s': State, i: nat)
    requires Inv(s) && NextStep(s, s', RunAction(i)) && s.actions[i].ClosePages?
    ensures Resident(s')
  {
    var lo, hi, b := Page(s.safeHead), Page(s'.safeHead), |s.frames|;
    if s.safeHead < s.actions[i].target {
      forall c: nat | hi <= Page(c) < hi + b ensures Peek(s', c) == At(s'.log, c) {
        if Page(c) < lo + b {
          assert Peek(s, c) == At(s.log, c);
          if FrameOf(lo, hi, b, Page(c) % b) {
            var p: nat :| lo <= p < hi && p % b == Page(c) % b;
            FrameInjective(p, Page(c), b);
          }
        } else {
          var p := Page(c) - b;
          FrameWraps(p, b);
          assert lo <= p < hi && FrameOf(lo, hi, b, Page(c) % b);
          assert c !in s.log;
        }
      }
    }
  }

  lemma ResidentInductive(s: State, s': State, step: Step)
    requires Inv(s) && NextStep(s, s', step)
    ensures |s'.frames| > 0 && Resident(s')
  {
    OrderedInductive(s, s', step);
    if step.Write? {
      WriteResident(s, s', step.t, step.a, step.v);
    } else if step.RunAction? && s.actions[step.ticket].ClosePages? {
      CloseResident(s, s', step.ticket);
    } else {
      assert s'.frames == s.frames && s'.log == s.log && s'.safeHead == s.safeHead;
      forall c: nat | Page(s'.safeHead) <= Page(c) < Page(s'.safeHead) + |s'.frames|
        ensures Peek(s', c) == At(s'.log, c)
      {
        assert Peek(s, c) == At(s.log, c);
      }
    }
  }

  lemma InvInductive(s: State, s': State, step: Step)
    requires Inv(s) && NextStep(s, s', step)
    ensures Inv(s')
  {
    OrderedInductive(s, s', step);
    ActionsInductive(s, s', step);
    ResidentInductive(s, s', step);
    forall t | 0 <= t < |s'.threads| ensures ThreadOk(s', t, s'.threads[t]) {
      if step.RunAction? {
        RunRespectsThreads(s, s', step.ticket, t);
      } else if step.FlushDone? || step.t != t {
        ThreadStable(s, s', step, t);
      } else {
        ThreadMover(s, s', step);
      }
    }
  }

  // ---------------------------------------------------------------- guarantees

  lemma InitInv(s: State, n: nat, b: nat)
    requires Init(s, n, b)
    ensures Inv(s)
  {
  }

  predicate IsRun(run: seq<State>, steps: seq<Step>, n: nat, b: nat) {
    && |run| == |steps| + 1 && Init(run[0], n, b)
    && forall i {:trigger steps[i]} | 0 <= i < |steps| :: NextStep(run[i], run[i + 1], steps[i])
  }

  lemma {:induction false} RunInv(run: seq<State>, steps: seq<Step>, n: nat, b: nat, k: nat)
    requires IsRun(run, steps, n, b) && k < |run|
    ensures Inv(run[k])
  {
    if k == 0 {
      InitInv(run[0], n, b);
    } else {
      RunInv(run, steps, n, b, k - 1);
      var s, s', step := run[k - 1], run[k], steps[k - 1];
      assert NextStep(s, s', step);
      InvInductive(s, s', step);
    }
  }

  /** Nobody writes below safe_read_only_address, and it never moves back. */
  lemma NoWriteBelow(s: State, s': State, step: Step, a: nat)
    requires Inv(s) && NextStep(s, s', step) && a < s.safeReadOnly
    ensures At(s'.log, a) == At(s.log, a) && s.safeReadOnly <= s'.safeReadOnly
  {
    OrderedInductive(s, s', step);
    if step.Write? { assert ThreadOk(s, step.t, s.threads[step.t]); }
  }

  /** Once safe_read_only_address has passed an address, that address never changes again. */
  lemma {:induction false} Immutable(run: seq<State>, steps: seq<Step>, n: nat, b: nat, i: nat, j: nat, a: nat)
    requires IsRun(run, steps, n, b) && i <= j < |run| && a < run[i].safeReadOnly
    ensures At(run[j].log, a) == At(run[i].log, a) && run[i].safeReadOnly <= run[j].safeReadOnly
    decreases j
  {
    if i < j {
      Immutable(run, steps, n, b, i, j - 1, a);
      RunInv(run, steps, n, b, j - 1);
      NoWriteBelow(run[j - 1], run[j], steps[j - 1], a);
    }
  }

  /** A flush of an address below safe_read_only_address may copy the frame at any moment j before
      the page is closed: it copies the value the log has at every later moment k. */
  lemma FlushedImageIsFinal(run: seq<State>, steps: seq<Step>, n: nat, b: nat, i: nat, j: nat, k: nat, a: nat)
    requires IsRun(run, steps, n, b) && i <= j <= k < |run|
    requires a < run[i].safeReadOnly && run[j].safeHead <= a
    ensures |run[j].frames| > 0 && Peek(run[j], a) == At(run[k].log, a)
  {
    RunInv(run, steps, n, b, j);
    Immutable(run, steps, n, b, i, j, a);
    Immutable(run, steps, n, b, i, k, a);
    InWindow(run[j], a);
    assert Peek(run[j], a) == At(run[j].log, a);
  }

  /** A thread that loaded head_address in its current protected section may read any allocated
      address at or above it through the circular buffer and gets what was written there: the frame
      has not been handed to another page. The buffer never laps. */
  lemma ReadSafe(run: seq<State>, steps: seq<Step>, n: nat, b: nat, k: nat, t: nat, a: nat)
    requires IsRun(run, steps, n, b) && k < |run| && t < |run[k].threads|
    requires run[k].threads[t].head.Some? && run[k].threads[t].head.value <= a < run[k].tail
    ensures |run[k].frames| > 0 && Peek(run[k], a) == At(run[k].log, a)
    ensures run[k].page <= Page(run[k].safeHead) + b - 2
    ensures Page(run[k].safeHead) <= Page(a) <= run[k].page
  {
    RunInv(run, steps, n, b, k);
    SameBuffer(run, steps, n, b, k);
    assert ThreadOk(run[k], t, run[k].threads[t]);
    InWindow(run[k], a);
    assert Peek(run[k], a) == At(run[k].log, a);
  }

  /** So may a thread filling a record, from its record up: the chain walk of InternalInsert reads
      and alters key pointers above its own without looking at head_address again. */
  lemma WriterReadSafe(run: seq<State>, steps: seq<Step>, n: nat, b: nat, k: nat, t: nat, a: nat)
    requires IsRun(run, steps, n, b) && k < |run| && t < |run[k].threads|
    requires run[k].threads[t].pc.Writing? && run[k].threads[t].pc.a <= a < run[k].tail
    ensures |run[k].frames| > 0 && Peek(run[k], a) == At(run[k].log, a) && run[k].safeReadOnly <= a
  {
    RunInv(run, steps, n, b, k);
    assert ThreadOk(run[k], t, run[k].threads[t]);
    InWindow(run[k], a);
    assert Peek(run[k], a) == At(run[k].log, a);
  }

  lemma {:induction false} SameBuffer(run: seq<State>, steps: seq<Step>, n: nat, b: nat, k: nat)
    requires IsRun(run, steps, n, b) && k < |run|
    ensures |run[k].frames| == b
  {
    if k > 0 {
      assert NextStep(run[k - 1], run[k], steps[k - 1]);
      SameBuffer(run, steps, n, b, k - 1);
    }
  }

  // ---------------------------------------------------------------- where the addresses come from

  /** The action has been registered, or a thread is about to. */
  predicate Registered(s: State, act: Action) {
    act in s.actions || exists t :: 0 <= t < |s.threads| && s.threads[t].pc == Owing(act)
  }

  predicate HasRun(s: State, act: Action) { exists i :: i in s.ep.ran && 0 <= i < |s.actions| && s.actions[i] == act }

  /** Every address is the highest target of the actions behind it. */
  ghost predicate SourceOk(s: State) {
    && (forall a: nat | HasRun(s, MarkReadOnly(a)) :: a <= s.safeReadOnly)
    && (forall a: nat | HasRun(s, ClosePages(a)) :: a <= s.safeHead)
    && (s.safeReadOnly == 64 || HasRun(s, MarkReadOnly(s.safeReadOnly)))
    && (s.safeHead == 64 || HasRun(s, ClosePages(s.safeHead)))
    && (s.readOnly == 64 || Registered(s, MarkReadOnly(s.readOnly)))
    && (s.head == 64 || Registered(s, ClosePages(s.head)))
  }

  lemma RegisteredStays(s: State, s': State, step: Step, act: Action)
    requires NextStep(s, s', step) && Registered(s, act)
    ensures Registered(s', act)
  {
    if act in s.actions {
      var i :| 0 <= i < |s.actions| && s.actions[i] == act;
      assert s'.actions[i] == act;
    } else {
      var t :| 0 <= t < |s.threads| && s.threads[t].pc == Owing(act);
      if step.Bump? && step.t == t {
        assert s'.actions[|s.actions|] == act;
      } else {
        assert s'.threads[t].pc == Owing(act);
      }
    }
  }

  lemma HasRunStays(s: State, s': State, step: Step, act: Action)
    requires NextStep(s, s', step) && HasRun(s, act)
    ensures HasRun(s', act)
  {
    var i :| i in s.ep.ran && 0 <= i < |s.actions| && s.actions[i] == act;
    assert i in s'.ep.ran && s'.actions[i] == act;
  }

  lemma HasRunNow(s: State, s': State, step: Step, act: Action)
    requires Inv(s) && NextStep(s, s', step) && HasRun(s', act)
    ensures HasRun(s, act) || (step.RunAction? && step.ticket < |s.actions| && s.actions[step.ticket] == act)
  {
    var i :| i in s'.ep.ran && 0 <= i < |s'.actions| && s'.actions[i] == act;
    if i in s.ep.ran { assert s.actions[i] == act; }
  }

  /** What a step does to the four addresses. */
  lemma AddressStep(s: State, s': State, step: Step)
    requires NextStep(s, s', step)
    ensures s'.safeReadOnly == if step.RunAction? && s.actions[step.ticket].MarkReadOnly?
                               then Max(s.safeReadOnly, s.actions[step.ticket].target) else s.safeReadOnly
    ensures s'.safeHead == if step.RunAction? && s.actions[step.ticket].ClosePages?
                           then Max(s.safeHead, s.actions[step.ticket].target) else s.safeHead
    ensures s'.readOnly == s.readOnly
            || (step.t < |s'.threads| && s'.threads[step.t].pc == Owing(MarkReadOnly(s'.readOnly)))
    ensures s'.head == s.head || (step.t < |s'.threads| && s'.threads[step.t].pc == Owing(ClosePages(s'.head)))
    ensures step.RunAction? ==> step.ticket in s'.ep.ran && s'.actions == s.actions
  {
  }

  function Max(a: nat, b: nat): nat { if a < b then b else a }

  lemma SafeInductive(s: State, s': State, step: Step)
    requires Inv(s) && SourceOk(s) && NextStep(s, s', step)
    ensures (forall a: nat | HasRun(s', MarkReadOnly(a)) :: a <= s'.safeReadOnly)
            && forall a: nat | HasRun(s', ClosePages(a)) :: a <= s'.safeHead
  {
    AddressStep(s, s', step);
    forall a: nat | HasRun(s', MarkReadOnly(a)) ensures a <= s'.safeReadOnly {
      HasRunNow(s, s', step, MarkReadOnly(a));
    }
    forall a: nat | HasRun(s', ClosePages(a)) ensures a <= s'.safeHead {
      HasRunNow(s, s', step, ClosePages(a));
    }
  }

  lemma SourceStays(s: State, s': State, step: Step)
    requires SourceOk(s) && NextStep(s, s', step)
    ensures s'.safeReadOnly == 64 || HasRun(s', MarkReadOnly(s'.safeReadOnly))
    ensures s'.safeHead == 64 || HasRun(s', ClosePages(s'.safeHead))
    ensures s'.readOnly == 64 || Registered(s', MarkReadOnly(s'.readOnly))
    ensures s'.head == 64 || Registered(s', ClosePages(s'.head))
  {
    AddressStep(s, s', step);
    if HasRun(s, MarkReadOnly(s.safeReadOnly)) { HasRunStays(s, s', step, MarkReadOnly(s.safeReadOnly)); }
    if HasRun(s, ClosePages(s.safeHead)) { HasRunStays(s, s', step, ClosePages(s.safeHead)); }
    if Registered(s, MarkReadOnly(s.readOnly)) { RegisteredStays(s, s', step, MarkReadOnly(s.readOnly)); }
    if Registered(s, ClosePages(s.head)) { RegisteredStays(s, s', step, ClosePages(s.head)); }
  }

  lemma SourceInductive(s: State, s': State, step: Step)
    requires Inv(s) && SourceOk(s) && NextStep(s, s', step)
    ensures SourceOk(s')
  {
    SafeInductive(s, s', step);
    SourceStays(s, s', step);
  }

  /** safe_read_only_address is the highest target of the mark-read-only actions that have run, safe_head_address
      that of the closing actions; read_only_address and head_address are targets of actions registered or owed. */
  lemma {:induction false} AddressesHaveSources(run: seq<State>, steps: seq<Step>, n: nat, b: nat, k: nat)
    requires IsRun(run, steps, n, b) && k < |run|
    ensures SourceOk(run[k])
  {
    if k > 0 {
      AddressesHaveSources(run, steps, n, b, k - 1);
      RunInv(run, steps, n, b, k - 1);
      assert NextStep(run[k - 1], run[k], steps[k - 1]);
      SourceInductive(run[k - 1], run[k], steps[k - 1]);
    }
  }

  /** flushed_until_address is what the flush said last. */
  lemma {:induction false} FlushedIsLast(run: seq<State>, steps: seq<Step>, n: nat, b: nat, i: nat, j: nat)
    requires IsRun(run, steps, n, b) && i < j < |run| && steps[i].FlushDone?
    requires forall m | i < m < j :: !steps[m].FlushDone?
    ensures run[j].flushed == steps[i].target
    decreases j
  {
    assert NextStep(run[j - 1], run[j], steps[j - 1]);
    if i + 1 < j { FlushedIsLast(run, steps, n, b, i, j - 1); }
  }

  /** A thread that loaded head_address keeps it until it refreshes, so it may read whatever is at or above it. */
  lemma {:induction false} HeadKept(run: seq<State>, steps: seq<Step>, n: nat, b: nat, i: nat, j: nat, t: nat)
    requires IsRun(run, steps, n, b) && i < j < |run| && steps[i] == LoadHead(t)
    requires forall m | i < m < j :: steps[m] != LoadHead(t) && steps[m] != Refresh(t) && steps[m] != StopSession(t)
    ensures t < |run[j].threads| && run[j].threads[t].head == Some(run[i].head)
    decreases j
  {
    assert NextStep(run[j - 1], run[j], steps[j - 1]);
    if i + 1 < j { HeadKept(run, steps, n, b, i, j - 1, t); }
  }

  lemma ReadSafeSince(run: seq<State>, steps: seq<Step>, n: nat, b: nat, i: nat, j: nat, t: nat, a: nat)
    requires IsRun(run, steps, n, b) && i < j < |run| && steps[i] == LoadHead(t)
    requires forall m | i < m < j :: steps[m] != LoadHead(t) && steps[m] != Refresh(t) && steps[m] != StopSession(t)
    requires run[i].head <= a < run[j].tail
    ensures |run[j].frames| > 0 && Peek(run[j], a) == At(run[j].log, a)
  {
    HeadKept(run, steps, n, b, i, j, t);
    ReadSafe(run, steps, n, b, j, t, a);
  }

  lemma TailStep(s: State, s': State, step: Step)
    requires Ordered(s) && NextStep(s, s', step) && !step.Allocate?
    ensures s'.tail == s.tail || (s.tail <= s'.tail && Offset(s'.tail) == 0)
  {
  }

  /** Between allocations the tail stays, or moves to the end or the start of a page. */
  lemma {:induction false} TailBetween(run: seq<State>, steps: seq<Step>, n: nat, b: nat, i: nat, j: nat)
    requires IsRun(run, steps, n, b) && i <= j < |run| && forall m | i <= m < j :: !steps[m].Allocate?
    ensures run[j].tail == run[i].tail || (run[i].tail <= run[j].tail && Offset(run[j].tail) == 0)
    decreases j
  {
    if i < j {
      TailBetween(run, steps, n, b, i, j - 1);
      RunInv(run, steps, n, b, j - 1);
      TailStep(run[j - 1], run[j], steps[j - 1]);
    }
  }

  /** Blocks are handed out without gaps: each starts where the one before it ended, or with a new page, and ends
      within its page. */
  lemma NoGaps(run: seq<State>, steps: seq<Step>, n: nat, b: nat, i: nat, j: nat)
    requires IsRun(run, steps, n, b) && i < j < |steps| && steps[i].Allocate? && steps[j].Allocate?
    requires forall m | i < m < j :: !steps[m].Allocate?
    requires steps[i].t < |run[i + 1].threads| && steps[j].t < |run[j + 1].threads|
    ensures run[i + 1].threads[steps[i].t].pc.Candidate? && run[j + 1].threads[steps[j].t].pc.Candidate?
    ensures var end, start := run[i + 1].threads[steps[i].t].pc.a + steps[i].size, run[j + 1].threads[steps[j].t].pc.a;
            && (start == end || (end <= start && Offset(start) == 0))
            && Page(start) == Page(start + steps[j].size - 1) && start + steps[j].size == run[j + 1].tail
  {
    assert NextStep(run[i], run[i + 1], steps[i]) && NextStep(run[j], run[j + 1], steps[j]);
    RunInv(run, steps, n, b, j);
    TailBetween(run, steps, n, b, i + 1, j);
  }

  /** Once an allocation has overshot the page, nothing more is allocated in it. */
  lemma {:induction false} OvershotStays(run: seq<State>, steps: seq<Step>, n: nat, b: nat, i: nat, j: nat)
    requires IsRun(run, steps, n, b) && i < j < |run| && steps[i].Overshoot? && run[j].page == run[i].page
    ensures run[j].tail == (run[i].page + 1) * PAGE_SIZE
    decreases j
  {
    PageGrows(run, steps, n, b, i, j - 1);
    PageGrows(run, steps, n, b, j - 1, j);
    assert NextStep(run[j - 1], run[j], steps[j - 1]);
    if i + 1 < j { OvershotStays(run, steps, n, b, i, j - 1); }
  }

  lemma {:induction false} PageGrows(run: seq<State>, steps: seq<Step>, n: nat, b: nat, i: nat, j: nat)
    requires IsRun(run, steps, n, b) && i <= j < |run|
    ensures run[i].page <= run[j].page
    decreases j
  {
    if i < j {
      PageGrows(run, steps, n, b, i, j - 1);
      assert NextStep(run[j - 1], run[j], steps[j - 1]);
    }
  }
}
