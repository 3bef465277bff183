/** What the disk holds: `HybridLog` and `PageFlush` side by side with the device.

    A page is written byte by byte, in any order, from its frame, at any moments between its submission and
    its completion. The two models meet where the code does: OnPagesMarkedReadOnly flushes up to its
    own target, and the flushed-until address the hybrid log goes by is the one the callbacks move. */
module FlushedBytes {
  import H = HybridLog
  import F = PageFlush

  /** `written` is history: the addresses whose bytes have reached the disk. */
  datatype State = State(h: H.State, f: F.State, disk: map<nat, int>, written: set<nat>)

  datatype Step =
    | LogStep(hs: H.Step)
    | FlushStep(fs: F.Step)
    | DiskWrite(a: nat)

  ghost predicate PageWritten(written: set<nat>, p: nat) {
    forall a: nat {:trigger H.Page(a)} | H.Page(a) == p :: a in written
  }

  predicate Init(s: State, n: nat,
                 b: nat) { H.Init(s.h, n, b) && F.Init(s.f, n, b) && s.disk == map[] && s.written == {} }

  ghost predicate NextStep(s: State, s': State, step: Step) {
    match step
    case LogStep(hs) =>
      && H.NextStep(s.h, s'.h, hs) && s' == s.(h := s'.h)
      && (hs.FlushDone? ==> hs.target <= s.f.flushed * H.PAGE_SIZE)
    case FlushStep(fs) =>
      && F.NextStep(s.f, s'.f, fs, F.BOTH) && s' == s.(f := s'.f)
      && (fs.RunMarked? ==> fs.n * H.PAGE_SIZE <= s.h.safeReadOnly)
      && (fs.Complete? ==> PageWritten(s.written, fs.p))
    case DiskWrite(a) =>
      && H.Page(a) in s.f.inFlight && |s.h.frames| > 0
      && s' == s.(disk := s.disk[a := H.Peek(s.h, a)], written := s.written + {a})
  }

  // ---------------------------------------------------------------- invariant

  /** A page being written has not completed, and completes once. */
  predicate OnceOk(f: F.State) {
    && (forall p | p in f.inFlight :: p !in f.done)
    && (forall t | 0 <= t < |f.threads| && f.threads[t].Storing? ::
          f.threads[t].p !in f.inFlight && f.threads[t].p !in f.done)
    && (forall t, u | 0 <= t < |f.threads| && 0 <= u < |f.threads| && f.threads[t].Storing? && f.threads[u].Storing?
          && f.threads[t].p == f.threads[u].p :: t == u)
  }

  lemma OnceInductive(f: F.State, f': F.State, step: F.Step)
    requires F.IssueInv(f) && OnceOk(f) && F.NextStep(f, f', step, F.BOTH)
    ensures OnceOk(f')
  {
  }

  ghost predicate WrittenOk(s: State) {
    forall a | a in s.written :: a in s.disk && s.disk[a] == H.At(s.h.log, a) && a < s.h.safeReadOnly
  }

  ghost predicate CompletedOk(s: State) {
    && (forall p | p in s.f.done :: PageWritten(s.written, p))
    && (forall t | 0 <= t < |s.f.threads| && s.f.threads[t].Storing? :: PageWritten(s.written, s.f.threads[t].p))
  }

  predicate Joined(s: State) {
    && s.f.safeReadOnly * H.PAGE_SIZE <= s.h.safeReadOnly
    && s.h.flushed <= s.f.flushed * H.PAGE_SIZE
  }

  ghost predicate Inv(s: State) {
    H.Inv(s.h) && F.Inv(s.f) && OnceOk(s.f) && Joined(s) && WrittenOk(s) && CompletedOk(s)
  }

  // ---------------------------------------------------------------- proof

  lemma PageBelow(a: nat, n: nat)
    ensures H.Page(a) < n <==> a < n * H.PAGE_SIZE
  {
  }

  /** The frame of a page in flight still holds that page, and nobody writes there any more. */
  lemma InFlightResident(s: State, a: nat)
    requires H.Inv(s.h) && F.Inv(s.f) && OnceOk(s.f) && Joined(s) && H.Page(a) in s.f.inFlight
    ensures H.Peek(s.h, a) == H.At(s.h.log, a) && a < s.h.safeReadOnly
  {
    var p := H.Page(a);
    assert p in s.f.issued && p !in s.f.done && s.f.flushed <= p;
    PageBelow(a, s.f.safeReadOnly);
    PageBelow(s.h.flushed, s.f.flushed + 1);
    assert H.Page(s.h.safeHead) <= H.Page(s.h.head) <= H.Page(s.h.flushed) <= p;
    assert a < s.h.tail;
    assert H.Peek(s.h, a) == H.At(s.h.log, a);
  }

  lemma LogInductive(s: State, s': State, hs: H.Step)
    requires Inv(s) && NextStep(s, s', LogStep(hs))
    ensures Inv(s')
  {
    H.InvInductive(s.h, s'.h, hs);
    H.OrderedInductive(s.h, s'.h, hs);
    forall a | a in s.written ensures s.disk[a] == H.At(s'.h.log, a) {
      H.NoWriteBelow(s.h, s'.h, hs, a);
    }
  }

  lemma FlushJoined(s: State, s': State, fs: F.Step)
    requires F.Inv(s.f) && Joined(s) && NextStep(s, s', FlushStep(fs))
    ensures Joined(s')
  {
    F.SystemInductive(s.f, s'.f, fs, F.BOTH);
  }

  lemma FlushCompleted(s: State, s': State, fs: F.Step)
    requires CompletedOk(s) && NextStep(s, s', FlushStep(fs))
    ensures CompletedOk(s')
  {
  }

  lemma FlushInductive(s: State, s': State, fs: F.Step)
    requires Inv(s) && NextStep(s, s', FlushStep(fs))
    ensures Inv(s')
  {
    F.InvInductive(s.f, s'.f, fs);
    OnceInductive(s.f, s'.f, fs);
    FlushJoined(s, s', fs);
    FlushCompleted(s, s', fs);
  }

  lemma InvInductive(s: State, s': State, step: Step)
    requires Inv(s) && NextStep(s, s', step)
    ensures Inv(s')
  {
    match step
    case LogStep(hs) => LogInductive(s, s', hs);
    case FlushStep(fs) => FlushInductive(s, s', fs);
    case DiskWrite(a) => InFlightResident(s, a);
  }

  lemma InitInv(s: State, n: nat, b: nat)
    requires Init(s, n, b)
    ensures Inv(s)
  {
    H.InitInv(s.h, n, b);
    F.InitInv(s.f, n, b);
  }

  ghost predicate IsRun(run: seq<State>, steps: seq<Step>, n: nat, b: nat) {
    && |run| == |steps| + 1 && Init(run[0], n, b)
    && forall i {:trigger steps[i]} | 0 <= i < |steps| :: NextStep(run[i], run[i + 1], steps[i])
  }

  lemma {:induction false} RunInv(run: seq<State>, steps: seq<Step>, n: nat, b: nat, k: nat)
    requires IsRun(run, steps, n, b) && k < |run|
    ensures Inv(run[k])
  {
    if k == 0 {
      InitInv(run[0], n, b);
    } else {
      RunInv(run, steps, n, b, k - 1);
      var s, s', step := run[k - 1], run[k], steps[k - 1];
      assert NextStep(s, s', step);
      InvInductive(s, s', step);
    }
  }

  // ---------------------------------------------------------------- what the disk holds

  ghost predicate OnDisk(s: State, a: nat) { a in s.disk && s.disk[a] == H.At(s.h.log, a) }

  /** Below flushed_until_address the disk holds the log. */
  lemma FlushedOnDisk(run: seq<State>, steps: seq<Step>, n: nat, b: nat, k: nat, a: nat)
    requires IsRun(run, steps, n, b) && k < |run| && H.Page(a) < run[k].f.flushed
    ensures OnDisk(run[k], a)
  {
    RunInv(run, steps, n, b, k);
    assert H.Page(a) in run[k].f.done && PageWritten(run[k].written, H.Page(a));
  }

  /** Pages the buffer has given up are on disk: what cannot be read from memory can be read there. */
  lemma EvictedOnDisk(run: seq<State>, steps: seq<Step>, n: nat, b: nat, k: nat, a: nat)
    requires IsRun(run, steps, n, b) && k < |run| && a < run[k].h.tail
    ensures |run[k].h.frames| > 0
    ensures if H.Page(a) < H.Page(run[k].h.head) then OnDisk(run[k], a)
            else H.Peek(run[k].h, a) == H.At(run[k].h.log, a)
  {
    RunInv(run, steps, n, b, k);
    var s := run[k];
    if H.Page(a) < H.Page(s.h.head) {
      PageBelow(s.h.flushed, s.f.flushed + 1);
      FlushedOnDisk(run, steps, n, b, k, a);
    } else {
      assert H.Peek(s.h, a) == H.At(s.h.log, a);
    }
  }

  lemma FlushedGrows(s: State, s': State, step: Step, a: nat)
    requires Inv(s) && NextStep(s, s', step) && H.Page(a) < s.f.flushed
    ensures H.Page(a) < s'.f.flushed && H.At(s'.h.log, a) == H.At(s.h.log, a)
  {
    assert H.Page(a) in s.f.done && PageWritten(s.written, H.Page(a));
    match step
    case LogStep(hs) => H.NoWriteBelow(s.h, s'.h, hs, a);
    case FlushStep(fs) => F.SystemInductive(s.f, s'.f, fs, F.BOTH);
    case DiskWrite(_) =>
  }

  lemma FlushedStays(run: seq<State>, steps: seq<Step>, n: nat, b: nat, k: nat, a: nat)
    requires IsRun(run, steps, n, b) && k < |steps| && H.Page(a) < run[k].f.flushed
    ensures H.Page(a) < run[k + 1].f.flushed && H.At(run[k + 1].h.log, a) == H.At(run[k].h.log, a)
  {
    RunInv(run, steps, n, b, k);
    assert NextStep(run[k], run[k + 1], steps[k]);
    FlushedGrows(run[k], run[k + 1], steps[k], a);
  }

  /** And what it holds there is final: at every later moment disk and log still have the same value. */
  lemma {:induction false} FlushedIsFinal(run: seq<State>, steps: seq<Step>, n: nat, b: nat, i: nat, k: nat, a: nat)
    requires IsRun(run, steps, n, b) && i <= k < |run| && H.Page(a) < run[i].f.flushed
    ensures OnDisk(run[k], a) && OnDisk(run[i], a) && run[k].disk[a] == run[i].disk[a]
    ensures H.Page(a) < run[k].f.flushed
    decreases k
  {
    FlushedOnDisk(run, steps, n, b, i, a);
    if i < k {
      FlushedIsFinal(run, steps, n, b, i, k - 1, a);
      FlushedStays(run, steps, n, b, k - 1, a);
      FlushedOnDisk(run, steps, n, b, k, a);
    }
  }
}
