/** Splitting the hash table by many threads (src/core/fishstore.h: SplitHashTableBuckets; next_chunk and
    num_pending_chunks of src/core/grow_state.h). Each thread takes chunks off a shared counter and splits
    their buckets as `IndexSplit.SplitBucket` does; whoever finishes the last chunk frees the old table.

    One fetch-and-add or one bucket per step, any number of threads. */
module GrowMachine {
  import I = IndexSplit

  const WORD: nat := 0x1_0000_0000_0000_0000

  /** What does not change meanwhile. */
  datatype Grow = Grow(log: I.Log, begin: nat, source: I.Table)

  datatype Pc =
    | Taking                          // about to take a chunk
    | Splitting(chunk: nat, idx: nat) // idx buckets of the chunk done
    | Left                            // out of the loop

  /** `done` is history: the chunks finished. */
  datatype State = State(target: I.Table, next: nat, pending: nat, freed: bool, threads: seq<Pc>, done: set<nat>)

  datatype Step =
    | Take(t: nat)
    | SplitBucket(t: nat, new0: I.Buckets, new1: I.Buckets)
    | FinishChunk(t: nat)

  ghost predicate Valid(g: Grow) {
    I.Descending(g.log) && 0 < |g.source| && I.NumChunks(|g.source|) < WORD
  }

  predicate Init(g: Grow, s: State, n: nat) {
    && |s.target| == 2 * |g.source|
    && s == State(s.target, 0, I.NumChunks(|g.source|), false, seq(n, _ => Taking), {})
  }

  function Put(s: State, t: nat, pc: Pc): State
    requires t < |s.threads|
  {
    s.(threads := s.threads[t := pc])
  }

  function Bucket(pc: Pc): nat
    requires pc.Splitting?
  {
    pc.chunk * I.CHUNK + pc.idx
  }

  ghost predicate NextStep(g: Grow, s: State, s': State, step: Step)
    requires Valid(g)
  {
    && step.t < |s.threads|
    && var size, pc := |g.source|, s.threads[step.t];
       match step
       case Take(t) =>
         && pc.Taking?
         && s' == Put(s, t, if s.next < I.NumChunks(size) then Splitting(s.next, 0) else Left).(next := s.next + 1)
       case SplitBucket(t, new0, new1) =>
         && pc.Splitting? && pc.idx < I.UpperBound(size, pc.chunk) && Bucket(pc) < size && |s.target| == 2 * size
         && I.Filling(new0) && I.Filling(new1)
         && I.BucketSplit(g.log, size, g.begin, I.Flat(g.source[Bucket(pc)]), I.Flat(new0), I.Flat(new1))
         && s' == Put(s, t, Splitting(pc.chunk, pc.idx + 1))
                    .(target := s.target[Bucket(pc) := new0][size + Bucket(pc) := new1])
       case FinishChunk(t) =>
         && pc.Splitting? && pc.idx == I.UpperBound(size, pc.chunk)
         && var left := (s.pending + WORD - 1) % WORD;
            s' == Put(s, t, if left == 0 then Left else Taking)
                    .(pending := left, freed := s.freed || left == 0, done := s.done + {pc.chunk})
  }

  // ---------------------------------------------------------------- invariant

  /** Chunks are handed out once, and counted once when done. */
  predicate CountOk(g: Grow, s: State)
    requires 0 < |g.source|
  {
    var n := I.NumChunks(|g.source|);
    && (forall c | c in s.done :: c < n && c < s.next)
    && (forall t | 0 <= t < |s.threads| && s.threads[t].Splitting? ::
          s.threads[t].chunk < n && s.threads[t].chunk < s.next && s.threads[t].chunk !in s.done
          && s.threads[t].idx <= I.UpperBound(|g.source|, s.threads[t].chunk))
    && (forall t, u | 0 <= t < u < |s.threads| && s.threads[t].Splitting? && s.threads[u].Splitting? ::
          s.threads[t].chunk != s.threads[u].chunk)
    && |s.done| <= n && s.pending == n - |s.done| && (s.freed <==> s.pending == 0)
  }

  predicate Taken(s: State, c: nat) {
    c in s.done || exists t :: 0 <= t < |s.threads| && s.threads[t].Splitting? && s.threads[t].chunk == c
  }

  /** No chunk is lost, and nobody leaves while there are chunks to take. */
  predicate CoverOk(g: Grow, s: State)
    requires 0 < |g.source|
  {
    && (forall c: nat | c < s.next && c < I.NumChunks(|g.source|) :: Taken(s, c))
    && (forall t | 0 <= t < |s.threads| && s.threads[t].Left? :: s.freed || I.NumChunks(|g.source|) <= s.next)
  }

  ghost predicate SplitUpTo(g: Grow, target: I.Table, chunk: nat, idx: int)
    requires Valid(g) && |target| == 2 * |g.source|
  {
    forall b: nat {:trigger I.Split(g.log, g.begin, g.source, target, b)}
      | chunk * I.CHUNK <= b < chunk * I.CHUNK + idx && b < |g.source| :: I.Split(g.log, g.begin, g.source, target, b)
  }

  ghost predicate TargetOk(g: Grow, s: State)
    requires Valid(g)
  {
    && |s.target| == 2 * |g.source|
    && (forall c: nat | c in s.done :: SplitUpTo(g, s.target, c, I.UpperBound(|g.source|, c)))
    && (forall t | 0 <= t < |s.threads| && s.threads[t].Splitting? ::
          SplitUpTo(g, s.target, s.threads[t].chunk, s.threads[t].idx))
  }

  ghost predicate Inv(g: Grow, s: State)
    requires Valid(g)
  {
    CountOk(g, s) && CoverOk(g, s) && TargetOk(g, s)
  }

  // ---------------------------------------------------------------- proof

  /** A set of numbers below n has at most n of them, and n only if it has all. */
  lemma {:induction false} Counting(done: set<nat>, n: nat)
    requires forall c | c in done :: c < n
    ensures |done| <= n && (|done| == n ==> forall c: nat | c < n :: c in done)
  {
    if n > 0 {
      var rest := done - {n - 1};
      Counting(rest, n - 1);
      assert done == if n - 1 in done then rest + {n - 1} else rest;
    }
  }

  lemma CountInductive(g: Grow, s: State, s': State, step: Step)
    requires Valid(g) && CountOk(g, s) && NextStep(g, s, s', step)
    ensures CountOk(g, s')
  {
    if step.Take? {
      if s.next < I.NumChunks(|g.source|) { I.ChunkBounds(|g.source|, s.next); }
    } else if step.FinishChunk? {
      var c := s.threads[step.t].chunk;
      Counting(s'.done, I.NumChunks(|g.source|));
      assert |s'.done| == |s.done| + 1;
      assert (s.pending + WORD - 1) % WORD == s.pending - 1;
    }
  }

  lemma CoverInductive(g: Grow, s: State, s': State, step: Step)
    requires Valid(g) && CountOk(g, s) && CoverOk(g, s) && NextStep(g, s, s', step) && CountOk(g, s')
    ensures CoverOk(g, s')
  {
    forall c: nat | c < s'.next && c < I.NumChunks(|g.source|) ensures Taken(s', c) {
      if c < s.next {
        assert Taken(s, c);
        if c !in s.done {
          var t :| 0 <= t < |s.threads| && s.threads[t].Splitting? && s.threads[t].chunk == c;
          assert t != step.t ==> s'.threads[t] == s.threads[t];
          assert t == step.t ==> s'.threads[t].Splitting? || c in s'.done;
        }
      } else {
        assert s'.threads[step.t] == Splitting(c, 0);
      }
    }
  }

  /** Splitting a bucket leaves the other buckets alone. */
  lemma OtherBuckets(g: Grow, target: I.Table, b: nat, new0: I.Buckets, new1: I.Buckets, c: nat)
    requires Valid(g) && |target| == 2 * |g.source| && b < |g.source| && c != b
    requires I.Split(g.log, g.begin, g.source, target, c)
    ensures I.Split(g.log, g.begin, g.source, target[b := new0][|g.source| + b := new1], c)
  {
  }

  lemma ChunkKept(g: Grow, target: I.Table, target': I.Table, b: nat, new0: I.Buckets, new1: I.Buckets, chunk: nat,
                  idx: int)
    requires Valid(g) && |target| == 2 * |g.source| && b < |g.source|
    requires target' == target[b := new0][|g.source| + b := new1]
    requires SplitUpTo(g, target, chunk, idx) && !(chunk * I.CHUNK <= b < chunk * I.CHUNK + idx)
    ensures SplitUpTo(g, target', chunk, idx)
  {
    forall c: nat | chunk * I.CHUNK <= c < chunk * I.CHUNK + idx && c < |g.source|
      ensures I.Split(g.log, g.begin, g.source, target', c)
    {
      assert I.Split(g.log, g.begin, g.source, target, c);
      OtherBuckets(g, target, b, new0, new1, c);
    }
  }

  /** A bucket is in one chunk only. */
  lemma OneChunk(size: nat, b: nat, c: nat, d: nat, idx: int)
    requires c < I.NumChunks(size) && d < I.NumChunks(size) && c != d && b < size && I.InChunk(size, c, b)
    requires idx <= I.UpperBound(size, d)
    ensures !(d * I.CHUNK <= b < d * I.CHUNK + idx)
  {
    I.ChunksPartition(size, b);
    assert !I.InChunk(size, d, b);
  }

  lemma TargetInductive(g: Grow, s: State, s': State, step: Step)
    requires Valid(g) && CountOk(g, s) && TargetOk(g, s) && NextStep(g, s, s', step)
    ensures TargetOk(g, s')
  {
    if step.SplitBucket? {
      var size, pc := |g.source|, s.threads[step.t];
      var b := Bucket(pc);
      assert I.InChunk(size, pc.chunk, b);
      forall c: nat | c in s'.done ensures SplitUpTo(g, s'.target, c, I.UpperBound(size, c)) {
        OneChunk(size, b, pc.chunk, c, I.UpperBound(size, c));
        ChunkKept(g, s.target, s'.target, b, step.new0, step.new1, c, I.UpperBound(size, c));
      }
      forall t | 0 <= t < |s'.threads| && s'.threads[t].Splitting?
        ensures SplitUpTo(g, s'.target, s'.threads[t].chunk, s'.threads[t].idx)
      {
        if t != step.t { OneChunk(size, b, pc.chunk, s.threads[t].chunk, s.threads[t].idx); }
        ChunkKept(g, s.target, s'.target, b, step.new0, step.new1, s.threads[t].chunk, s.threads[t].idx);
        assert I.Split(g.log, g.begin, g.source, s'.target, b);
      }
    }
  }

  lemma InvInductive(g: Grow, s: State, s': State, step: Step)
    requires Valid(g) && Inv(g, s) && NextStep(g, s, s', step)
    ensures Inv(g, s')
  {
    CountInductive(g, s, s', step);
    CoverInductive(g, s, s', step);
    TargetInductive(g, s, s', step);
  }

  // ---------------------------------------------------------------- what splitting guarantees

  ghost predicate IsRun(g: Grow, run: seq<State>, steps: seq<Step>, n: nat)
    requires Valid(g)
  {
    && |run| == |steps| + 1 && Init(g, run[0], n)
    && forall i {:trigger steps[i]} | 0 <= i < |steps| :: NextStep(g, run[i], run[i + 1], steps[i])
  }

  lemma {:induction false} RunInv(g: Grow, run: seq<State>, steps: seq<Step>, n: nat, i: nat)
    requires Valid(g) && IsRun(g, run, steps, n) && i < |run|
    ensures Inv(g, run[i]) && |run[i].threads| == n
  {
    if i > 0 {
      RunInv(g, run, steps, n, i - 1);
      assert NextStep(g, run[i - 1], run[i], steps[i - 1]);
      InvInductive(g, run[i - 1], run[i], steps[i - 1]);
    }
  }

  ghost predicate AllSplit(g: Grow, target: I.Table)
    requires Valid(g)
  {
    && |target| == 2 * |g.source|
    && forall b: nat | b < |g.source| :: I.Split(g.log, g.begin, g.source, target, b)
  }

  lemma DoneMeansSplit(g: Grow, s: State)
    requires Valid(g) && Inv(g, s) && forall c: nat | c < I.NumChunks(|g.source|) :: c in s.done
    ensures AllSplit(g, s.target)
  {
    forall b: nat | b < |g.source| ensures I.Split(g.log, g.begin, g.source, s.target, b) {
      I.ChunksPartition(|g.source|, b);
      var c: nat :| c < I.NumChunks(|g.source|) && I.InChunk(|g.source|, c, b);
      assert SplitUpTo(g, s.target, c, I.UpperBound(|g.source|, c));
    }
  }

  /** The old table is freed only when all of it has been split and no thread is at work on it. */
  lemma FreedWhenSplit(g: Grow, run: seq<State>, steps: seq<Step>, n: nat, i: nat)
    requires Valid(g) && IsRun(g, run, steps, n) && i < |run| && run[i].freed
    ensures AllSplit(g, run[i].target)
    ensures forall t | 0 <= t < |run[i].threads| :: !run[i].threads[t].Splitting?
  {
    RunInv(g, run, steps, n, i);
    Counting(run[i].done, I.NumChunks(|g.source|));
    DoneMeansSplit(g, run[i]);
  }

  /** When every thread has left the loop the new table is complete and the old one freed. */
  lemma LeftWhenSplit(g: Grow, run: seq<State>, steps: seq<Step>, n: nat, i: nat)
    requires Valid(g) && IsRun(g, run, steps, n) && i < |run| && n > 0
    requires forall t | 0 <= t < |run[i].threads| :: run[i].threads[t].Left?
    ensures AllSplit(g, run[i].target) && run[i].freed
  {
    RunInv(g, run, steps, n, i);
    var s, m := run[i], I.NumChunks(|g.source|);
    Counting(s.done, m);
    if !s.freed {
      assert s.threads[0].Left?;
      forall c: nat | c < m ensures c in s.done { assert Taken(s, c); }
      AllCounted(s.done, m);
    }
    DoneMeansSplit(g, s);
  }

  lemma {:induction false} AllCounted(done: set<nat>, n: nat)
    requires forall c: nat | c < n :: c in done
    ensures n <= |done|
  {
    if n > 0 {
      AllCounted(done - {n - 1}, n - 1);
    }
  }

  /** No bucket is split twice or out of a freed table: it belongs to no other thread's chunk and to none done. */
  lemma SplitOnce(g: Grow, run: seq<State>, steps: seq<Step>, n: nat, i: nat)
    requires Valid(g) && IsRun(g, run, steps, n) && i < |steps| && steps[i].SplitBucket?
    ensures steps[i].t < |run[i].threads| && run[i].threads[steps[i].t].Splitting? && !run[i].freed
    ensures var b := Bucket(run[i].threads[steps[i].t]);
            && (forall c | c in run[i].done :: !I.InChunk(|g.source|, c, b))
            && forall u | 0 <= u < |run[i].threads| && u != steps[i].t && run[i].threads[u].Splitting? ::
                 !I.InChunk(|g.source|, run[i].threads[u].chunk, b)
  {
    RunInv(g, run, steps, n, i);
    assert NextStep(g, run[i], run[i + 1], steps[i]);
    var s, size := run[i], |g.source|;
    var me := s.threads[steps[i].t];
    assert I.InChunk(size, me.chunk, Bucket(me));
    I.ChunksPartition(size, Bucket(me));
    Counting(s.done, I.NumChunks(size));
  }
}
