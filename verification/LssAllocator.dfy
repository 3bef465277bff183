/** The segment allocator (src/core/lss_allocator.h, src/core/lss_allocator.cc): one thread allocates from
    its active segment, any thread frees, and whoever comes last frees the segment.

    A segment's counter packs the number of frees (low half) and, once sealed, the number of
    allocations into one 64-bit word; Seal and Free each add to it once and decide on the old value.
    One atomic access per step. Allocate is AllocateAligned with the base alignment. */
module LssAllocator {

  const SEGMENT_SIZE: nat := 8000
  const BUFFER_OFFSET: nat := 14
  const HEADER: nat := 2
  const BASE_ALIGNMENT: nat := 16
  const HALF: nat := 0x1_0000_0000

  // ---------------------------------------------------------------- the counter

  function Frees(word: nat): nat { word % HALF }
  function Allocations(word: nat): nat { word / HALF }

  lemma Halves(frees: nat, allocations: nat)
    requires frees < HALF
    ensures Frees(frees + HALF * allocations) == frees && Allocations(frees + HALF * allocations) == allocations
  {
  }

  // ---------------------------------------------------------------- blocks

  /** A block: where it starts in the buffer and how much it takes, where its header is, and the bytes
      and the alignment asked for. */
  datatype Block = Block(start: nat, size: nat, header: nat, user: nat, alignment: nat)

  function Product(q: nat, a: nat): nat { q * a }

  ghost predicate Aligned(x: nat, a: nat) { exists q: nat {:trigger Product(q, a)} :: x == Product(q, a) }

  /** r is the first multiple of a at or above x. */
  ghost predicate Pads(x: nat, a: nat, r: nat) { x <= r < x + a && Aligned(r, a) }

  /** pad_alignment's arithmetic computes it. */
  lemma PadAlignment(x: nat, a: nat)
    requires a > 0
    ensures (x + a - 1) / a * a >= 0 && Pads(x, a, (x + a - 1) / a * a)
  {
    var y := x + a - 1;
    var q: nat := Quotient(y, a);
    assert q * a == Product(q, a);
  }

  lemma Quotient(y: nat, a: nat) returns (q: nat)
    requires a > 0
    ensures q == y / a && y == a * q + y % a && 0 <= y % a < a
  {
    assert y == a * (y / a) + y % a;
    q := y / a;
  }

  /** And there is only one. */
  lemma PadsUnique(x: nat, a: nat, r: nat, r': nat)
    requires Pads(x, a, r) && Pads(x, a, r')
    ensures r == r'
  {
    var q: nat, q': nat :| r == Product(q, a) && r' == Product(q', a);
    Between(a, q, q');
    Between(a, q', q);
  }

  lemma Between(a: nat, q: nat, q': nat)
    requires q * a < q' * a + a
    ensures q <= q'
  {
    assert (q' + 1) * a == q' * a + a;
    if q > q' { Times(a, q' + 1, q); }
  }

  lemma {:induction false} Times(a: nat, p: nat, q: nat)
    requires p <= q
    ensures p * a <= q * a
  {
    if p < q {
      Times(a, p, q - 1);
      assert q * a == (q - 1) * a + a;
    }
  }

  predicate Alignment(a: nat) { a >= BASE_ALIGNMENT && a % BASE_ALIGNMENT == 0 }

  function BlockSize(size: nat, alignment: nat): nat
    requires Alignment(alignment)
  {
    (size + HEADER + alignment - BASE_ALIGNMENT + 15) / 16 * 16
  }

  /** The address of byte `offset` of the buffer. */
  function AddressOf(base: nat, offset: nat): nat { base + BUFFER_OFFSET + offset }

  ghost predicate UserAligned(base: nat, b: Block) { Aligned(AddressOf(base, b.header) + HEADER, b.alignment) }

  /** Where a block reserved at `start` puts its header and the user's bytes: the header is moved up until
      the bytes behind it are aligned. */
  ghost predicate Places(base: nat, start: nat, size: nat, alignment: nat, b: Block) {
    && Alignment(alignment) && b == Block(start, BlockSize(size, alignment), b.header, size, alignment)
    && Pads(AddressOf(base, start) + HEADER, alignment, AddressOf(base, b.header) + HEADER)
  }

  /** The header goes exactly where the code's user_offset puts it. */
  lemma PlacesExactly(base: nat, start: nat, size: nat, alignment: nat, b: Block)
    requires Alignment(alignment) && b == Block(start, BlockSize(size, alignment), b.header, size, alignment)
    ensures var x := AddressOf(base, start) + HEADER;
            var userOffset := (x + alignment - 1) / alignment * alignment - x;
            Places(base, start, size, alignment, b) <==> b.header == start + userOffset
  {
    var x := AddressOf(base, start) + HEADER;
    PadAlignment(x, alignment);
    if Places(base, start, size, alignment, b) {
      PadsUnique(x, alignment, (x + alignment - 1) / alignment * alignment, AddressOf(base, b.header) + HEADER);
    }
  }

  /** A multiple of 16 * m lies a multiple of 16 above 16 * y. */
  lemma Units(y: nat, m: nat, q: nat)
    requires 16 * y <= Product(q, 16 * m) < 16 * y + 16 * m
    ensures Product(q, 16 * m) <= 16 * y + 16 * m - 16
  {
    assert q * (16 * m) == 16 * (q * m);
  }

  lemma FillBound(base: nat, start: nat, alignment: nat, header: nat)
    requires Alignment(alignment) && base % 16 == 0 && start % 16 == 0
    requires Pads(AddressOf(base, start) + HEADER, alignment, AddressOf(base, header) + HEADER)
    ensures start <= header <= start + alignment - BASE_ALIGNMENT
  {
    var m, y := alignment / 16, (AddressOf(base, start) + HEADER) / 16;
    var q: nat :| AddressOf(base, header) + HEADER == Product(q, alignment);
    assert alignment == 16 * m && AddressOf(base, start) + HEADER == 16 * y;
    Units(y, m, q);
  }

  lemma RoundUp(n: nat)
    ensures n <= (n + 15) / 16 * 16 && (n + 15) / 16 * 16 % 16 == 0
  {
  }

  /** The block is the smallest multiple of 16 that holds the user's bytes, the header and the largest fill. */
  lemma BlockSizeExactly(size: nat, alignment: nat)
    requires Alignment(alignment)
    ensures BlockSize(size, alignment) % 16 == 0
    ensures size + HEADER + (alignment - BASE_ALIGNMENT) <= BlockSize(size, alignment)
    ensures BlockSize(size, alignment) < size + HEADER + (alignment - BASE_ALIGNMENT) + 16
  {
    RoundUp(size + HEADER + alignment - BASE_ALIGNMENT);
  }

  /** Header and user bytes lie inside the block, and the user's bytes are aligned as asked. */
  lemma PlaceFits(base: nat, start: nat, size: nat, alignment: nat, b: Block)
    requires Places(base, start, size, alignment, b) && base % 16 == 0 && start % 16 == 0
    ensures b.start <= b.header && b.header + HEADER + size <= b.start + b.size && b.size >= BASE_ALIGNMENT
    ensures b.size % 16 == 0
    ensures UserAligned(base, b)
  {
    FillBound(base, start, alignment, b.header);
    RoundUp(size + HEADER + alignment - BASE_ALIGNMENT);
  }

  /** The header's 16-bit offset field. */
  function Stored(b: Block): nat { b.header % 0x1_0000 }

  /** LssAllocator::Free: from the user's pointer through the stored offset back to the segment. */
  function SegmentOf(user: nat, stored: nat): int { user - HEADER - (stored + BUFFER_OFFSET) }

  // ---------------------------------------------------------------- the machine

  /** `blocks` is history: everything allocated in the segment; `live` the blocks not yet freed. */
  datatype Segment = Segment(base: nat, word: nat, blocks: seq<Block>, live: set<nat>, released: bool)

  datatype Pc = Idle | Releasing(seg: nat)

  /** The allocating thread: between calls; about to seal a full segment; or about to free one. */
  datatype Owner = Ready | Sealing(seg: nat, n: nat) | MustRelease(seg: nat)

  datatype Active = NoSegment | Active(seg: nat)

  datatype State = State(segs: seq<Segment>, active: Active, offset: nat, allocations: nat, owner: Owner,
                         threads: seq<Pc>)

  datatype Step =
    | NewSegment(base: nat)
    | Allocate(size: nat, alignment: nat, block: Block)
    | Seal
    | OwnerRelease
    | Free(t: nat, seg: nat, b: nat)
    | Release(t: nat)

  predicate Init(s: State, n: nat) { s == State([], NoSegment, 0, 0, Ready, seq(n, _ => Idle)) }

  ghost predicate NextStep(s: State, s': State, step: Step) {
    match step
    case NewSegment(base) =>
      && s.owner.Ready? && s.active.NoSegment? && base % 64 == 0
      && s' == s.(segs := s.segs + [Segment(base, 0, [], {}, false)], active := Active(|s.segs|), offset := 0,
                  allocations := 0)
    case Allocate(size, alignment, b) =>
      && s.owner.Ready? && s.active.Active? && s.active.seg < |s.segs| && Alignment(alignment)
      && BlockSize(size, alignment) <= SEGMENT_SIZE
      && var i := s.active.seg;
         var seg, bs := s.segs[i], BlockSize(size, alignment);
         // Reserve counts the block before it is known to fit.
         if s.offset + bs <= SEGMENT_SIZE then
           && Places(seg.base, s.offset, size, alignment, b)
           && s' == s.(offset := s.offset + bs, allocations := s.allocations + 1,
                       segs := s.segs[i := seg.(blocks := seg.blocks + [b], live := seg.live + {|seg.blocks|})])
         else
           s' == s.(offset := s.offset + bs, allocations := s.allocations + 1, owner := Sealing(i, s.allocations + 1))
    case Seal =>
      && s.owner.Sealing? && s.owner.seg < |s.segs|
      && var i, n := s.owner.seg, s.owner.n;
         var before := s.segs[i].word;
         s' == s.(segs := s.segs[i := s.segs[i].(word := before + 1 + HALF * n)],
                  active := NoSegment, offset := 0, allocations := 0,
                  owner := if n == Frees(before) + 1 then MustRelease(i) else Ready)
    case OwnerRelease =>
      && s.owner.MustRelease? && s.owner.seg < |s.segs|
      && s' == s.(segs := s.segs[s.owner.seg := s.segs[s.owner.seg].(released := true)], owner := Ready)
    case Free(t, i, b) =>
      && t < |s.threads| && s.threads[t].Idle? && i < |s.segs| && b in s.segs[i].live
      && var before := s.segs[i].word;
         s' == s.(segs := s.segs[i := s.segs[i].(word := before + 1, live := s.segs[i].live - {b})],
                  threads := s.threads[t := if Allocations(before) == Frees(before) + 1 then Releasing(i) else Idle])
    case Release(t) =>
      && t < |s.threads| && s.threads[t].Releasing? && s.threads[t].seg < |s.segs|
      && s' == s.(segs := s.segs[s.threads[t].seg := s.segs[s.threads[t].seg].(released := true)],
                  threads := s.threads[t := Idle])
  }

  // ---------------------------------------------------------------- invariant

  predicate Sealed(seg: Segment) { Allocations(seg.word) > 0 }

  /** The counter: frees so far, plus one and the count of allocations once the segment is sealed. */
  predicate CounterOk(seg: Segment) {
    && |seg.live| <= |seg.blocks| && 16 * |seg.blocks| <= SEGMENT_SIZE
    && (forall b | b in seg.live :: b < |seg.blocks|)
    && (seg.word == |seg.blocks| - |seg.live| || seg.word == |seg.blocks| - |seg.live| + 1 + HALF * (|seg.blocks| + 1))
  }

  /** Blocks follow each other up to `end`; each holds its header and its aligned bytes. */
  predicate BlocksOk(seg: Segment, end: nat) {
    && seg.base % 64 == 0 && end <= SEGMENT_SIZE
    && (forall k | 0 <= k < |seg.blocks| :: BlockOk(seg.blocks[k]) && seg.blocks[k].start + seg.blocks[k].size <= end)
    && (forall k, m | 0 <= k < m < |seg.blocks| :: seg.blocks[k].start + seg.blocks[k].size <= seg.blocks[m].start)
  }

  ghost predicate BlocksAligned(seg: Segment) {
    forall k | 0 <= k < |seg.blocks| :: UserAligned(seg.base, seg.blocks[k])
  }

  predicate BlockOk(b: Block) {
    b.start <= b.header && b.header + HEADER + b.user <= b.start + b.size && b.size >= BASE_ALIGNMENT
  }

  /** Whoever still has segment i to itself: the owner while it is active or being sealed. */
  predicate Held(s: State, i: nat) { s.active == Active(i) }

  predicate OwnerOk(s: State) {
    && (s.active.Active? ==> s.active.seg < |s.segs|)
    && (s.owner.Ready? && s.active.Active? ==>
          && s.allocations == |s.segs[s.active.seg].blocks| && s.offset <= SEGMENT_SIZE && s.offset % 16 == 0
          && 16 * s.allocations <= s.offset && BlocksOk(s.segs[s.active.seg], s.offset))
    && (s.owner.Sealing? ==> s.active == Active(s.owner.seg) && s.owner.n == |s.segs[s.owner.seg].blocks| + 1)
    && (s.owner.MustRelease? ==> s.active.NoSegment? && s.owner.seg < |s.segs|)
  }

  /** Somebody is about to free segment i. */
  predicate Leaving(s: State, i: nat) {
    s.owner == MustRelease(i) || exists t | 0 <= t < |s.threads| :: s.threads[t] == Releasing(i)
  }

  ghost predicate SegmentOk(s: State, i: nat)
    requires i < |s.segs|
  {
    && CounterOk(s.segs[i]) && BlocksOk(s.segs[i], SEGMENT_SIZE) && BlocksAligned(s.segs[i])
    && (Sealed(s.segs[i]) <==> !Held(s, i))
    && (s.segs[i].released ==> Sealed(s.segs[i]) && s.segs[i].live == {})
    && (Leaving(s, i) ==> Sealed(s.segs[i]) && s.segs[i].live == {} && !s.segs[i].released)
    && (Sealed(s.segs[i]) && s.segs[i].live == {} && !s.segs[i].released ==> Leaving(s, i))
  }

  /** No two of them for the same segment. */
  predicate LeaveOnce(s: State) {
    && (forall t | 0 <= t < |s.threads| && s.threads[t].Releasing? ::
          s.threads[t].seg < |s.segs| && s.owner != MustRelease(s.threads[t].seg))
    && (forall t, u | 0 <= t < u < |s.threads| && s.threads[t].Releasing? && s.threads[u].Releasing? ::
          s.threads[t] != s.threads[u])
  }

  ghost predicate Inv(s: State) {
    OwnerOk(s) && LeaveOnce(s) && forall i | 0 <= i < |s.segs| :: SegmentOk(s, i)
  }

  // ---------------------------------------------------------------- proof

  lemma Counted(seg: Segment)
    requires CounterOk(seg)
    ensures Sealed(seg) ==>
              Frees(seg.word) == |seg.blocks| - |seg.live| + 1 && Allocations(seg.word) == |seg.blocks| + 1
    ensures !Sealed(seg) ==> seg.word == Frees(seg.word) == |seg.blocks| - |seg.live| && Allocations(seg.word) == 0
  {
    var f := |seg.blocks| - |seg.live|;
    if seg.word == f { Halves(f, 0); } else { Halves(f + 1, |seg.blocks| + 1); }
  }

  lemma FreeCounts(seg: Segment, b: nat)
    requires CounterOk(seg) && b in seg.live
    ensures var seg' := seg.(word := seg.word + 1, live := seg.live - {b});
            && CounterOk(seg') && (Sealed(seg') <==> Sealed(seg))
            && (Allocations(seg.word) == Frees(seg.word) + 1 <==> Sealed(seg) && seg'.live == {})
  {
    var seg' := seg.(word := seg.word + 1, live := seg.live - {b});
    assert |seg'.live| == |seg.live| - 1;
    Counted(seg);
    Counted(seg');
  }

  lemma SealCounts(seg: Segment)
    requires CounterOk(seg) && !Sealed(seg)
    ensures var n := |seg.blocks| + 1; var seg' := seg.(word := seg.word + 1 + HALF * n);
            CounterOk(seg') && Sealed(seg') && (n == Frees(seg.word) + 1 <==> seg.live == {})
  {
    var seg' := seg.(word := seg.word + 1 + HALF * (|seg.blocks| + 1));
    Counted(seg);
    Counted(seg');
  }

  lemma AllocateCounts(seg: Segment, b: Block)
    requires CounterOk(seg) && !Sealed(seg) && 16 * (|seg.blocks| + 1) <= SEGMENT_SIZE
    ensures var seg' := seg.(blocks := seg.blocks + [b], live := seg.live + {|seg.blocks|});
            CounterOk(seg') && !Sealed(seg')
  {
    var seg' := seg.(blocks := seg.blocks + [b], live := seg.live + {|seg.blocks|});
    assert |seg'.live| == |seg.live| + 1;
    Counted(seg);
  }

  lemma AllocatePlaces(seg: Segment, offset: nat, b: Block)
    requires BlocksOk(seg, offset) && b.start == offset && BlockOk(b) && offset + b.size <= SEGMENT_SIZE
    ensures var seg' := seg.(blocks := seg.blocks + [b], live := seg.live + {|seg.blocks|});
            BlocksOk(seg', offset + b.size) && BlocksOk(seg', SEGMENT_SIZE)
  {
  }

  lemma AllocateAligns(seg: Segment, b: Block)
    requires BlocksAligned(seg) && UserAligned(seg.base, b)
    ensures BlocksAligned(seg.(blocks := seg.blocks + [b], live := seg.live + {|seg.blocks|}))
  {
    var seg' := seg.(blocks := seg.blocks + [b], live := seg.live + {|seg.blocks|});
    forall k | 0 <= k < |seg'.blocks| ensures UserAligned(seg'.base, seg'.blocks[k]) {
      if k < |seg.blocks| { assert seg'.blocks[k] == seg.blocks[k]; }
    }
  }

  lemma LeavingKept(s: State, s': State, i: nat)
    requires s'.owner == s.owner || (s'.owner != MustRelease(i) && s.owner != MustRelease(i))
    requires |s'.threads| == |s.threads|
    requires forall t | 0 <= t < |s.threads| :: (s'.threads[t] == Releasing(i) <==> s.threads[t] == Releasing(i))
    ensures Leaving(s', i) <==> Leaving(s, i)
  {
  }

  lemma NewSegmentStep(s: State, s': State, base: nat, j: nat)
    requires Inv(s) && NextStep(s, s', NewSegment(base)) && j < |s'.segs|
    ensures SegmentOk(s', j) && OwnerOk(s') && LeaveOnce(s')
  {
    LeavingKept(s, s', j);
    if j < |s.segs| {
      assert SegmentOk(s, j);
    } else {
      assert !Leaving(s, j);
      Counted(s'.segs[j]);
    }
  }

  /** An allocation that fits, whatever block it makes. */
  ghost predicate Fits(s: State, s': State, b: Block) {
    && s.owner.Ready? && s.active.Active? && s.active.seg < |s.segs|
    && b.start == s.offset && BlockOk(b) && b.size % 16 == 0 && s.offset + b.size <= SEGMENT_SIZE
    && UserAligned(s.segs[s.active.seg].base, b)
    && var i := s.active.seg; var seg := s.segs[i];
       s' == s.(offset := s.offset + b.size, allocations := s.allocations + 1,
                segs := s.segs[i := seg.(blocks := seg.blocks + [b], live := seg.live + {|seg.blocks|})])
  }

  lemma FitsOwner(s: State, s': State, b: Block)
    requires Fits(s, s', b) && OwnerOk(s) && LeaveOnce(s)
    ensures OwnerOk(s') && LeaveOnce(s')
  {
    AllocatePlaces(s.segs[s.active.seg], s.offset, b);
    SixteenSum(s.offset, b.size);
  }

  lemma SixteenSum(x: nat, y: nat)
    requires x % 16 == 0 && y % 16 == 0
    ensures (x + y) % 16 == 0
  {
  }

  lemma FitsActive(s: State, s': State, b: Block)
    requires Fits(s, s', b) && Inv(s)
    ensures SegmentOk(s', s.active.seg)
  {
    var i := s.active.seg;
    assert SegmentOk(s, i);
    AllocateCounts(s.segs[i], b);
    AllocatePlaces(s.segs[i], s.offset, b);
    AllocateAligns(s.segs[i], b);
    LeavingKept(s, s', i);
  }

  lemma FitsOther(s: State, s': State, b: Block, j: nat)
    requires Fits(s, s', b) && j < |s.segs| && SegmentOk(s, j) && j != s.active.seg
    ensures SegmentOk(s', j)
  {
    LeavingKept(s, s', j);
  }

  lemma OverflowStep(s: State, s': State, step: Step, j: nat)
    requires Inv(s) && NextStep(s, s', step) && step.Allocate? && s'.owner.Sealing? && j < |s'.segs|
    ensures SegmentOk(s', j) && OwnerOk(s') && LeaveOnce(s')
  {
    assert SegmentOk(s, j);
    LeavingKept(s, s', j);
  }

  lemma StepFits(s: State, s': State, step: Step)
    requires OwnerOk(s) && NextStep(s, s', step) && step.Allocate? && !s'.owner.Sealing?
    ensures Fits(s, s', step.block)
  {
    PlaceFits(s.segs[s.active.seg].base, s.offset, step.size, step.alignment, step.block);
  }

  lemma AllocateStep(s: State, s': State, step: Step, j: nat)
    requires Inv(s) && NextStep(s, s', step) && step.Allocate? && j < |s'.segs|
    ensures SegmentOk(s', j) && OwnerOk(s') && LeaveOnce(s')
  {
    if s'.owner.Sealing? {
      OverflowStep(s, s', step, j);
    } else {
      StepFits(s, s', step);
      FitsOwner(s, s', step.block);
      assert SegmentOk(s, j);
      if j == s.active.seg { FitsActive(s, s', step.block); } else { FitsOther(s, s', step.block, j); }
    }
  }

  lemma SealStep(s: State, s': State, j: nat)
    requires Inv(s) && NextStep(s, s', Seal) && j < |s'.segs|
    ensures SegmentOk(s', j) && OwnerOk(s') && LeaveOnce(s')
  {
    var i := s.owner.seg;
    assert SegmentOk(s, i) && SegmentOk(s, j);
    SealCounts(s.segs[i]);
    if j != i { LeavingKept(s, s', j); }
    forall t | 0 <= t < |s.threads| && s.threads[t].Releasing? ensures s.threads[t].seg != i {
      if s.threads[t].seg == i { assert Leaving(s, i); }
    }
  }

  lemma FreeStep(s: State, s': State, t: nat, i: nat, b: nat, j: nat)
    requires Inv(s) && NextStep(s, s', Free(t, i, b)) && j < |s'.segs|
    ensures SegmentOk(s', j) && OwnerOk(s') && LeaveOnce(s')
  {
    assert SegmentOk(s, i) && SegmentOk(s, j);
    FreeCounts(s.segs[i], b);
    assert !Leaving(s, i);
    if j != i { LeavingKept(s, s', j); }
    if j == i && s'.threads[t].Releasing? { assert s'.threads[t] == Releasing(i); }
    if j == i && !s'.threads[t].Releasing? { LeavingKept(s, s', i); }
  }

  lemma ReleaseStep(s: State, s': State, step: Step, j: nat)
    requires Inv(s) && NextStep(s, s', step) && (step.Release? || step.OwnerRelease?) && j < |s'.segs|
    ensures SegmentOk(s', j) && OwnerOk(s') && LeaveOnce(s')
  {
    var i := if step.Release? then s.threads[step.t].seg else s.owner.seg;
    assert SegmentOk(s, i) && SegmentOk(s, j);
    if step.Release? { assert s.threads[step.t] == Releasing(i); }
    assert Leaving(s, i);
    if j != i { LeavingKept(s, s', j); }
  }

  lemma InvInductive(s: State, s': State, step: Step)
    requires Inv(s) && NextStep(s, s', step)
    ensures Inv(s')
  {
    forall j | 0 <= j < |s'.segs| ensures SegmentOk(s', j) && OwnerOk(s') && LeaveOnce(s') {
      match step
      case NewSegment(base) => NewSegmentStep(s, s', base, j);
      case Allocate(_, _, _) => AllocateStep(s, s', step, j);
      case Seal => SealStep(s, s', j);
      case Free(t, i, b) => FreeStep(s, s', t, i, b, j);
      case OwnerRelease => ReleaseStep(s, s', step, j);
      case Release(_) => ReleaseStep(s, s', step, j);
    }
    assert |s'.segs| > 0;
    assert SegmentOk(s', 0);
  }

  lemma InitInv(s: State, n: nat)
    requires Init(s, n)
    ensures Inv(s)
  {
  }

  ghost predicate IsRun(run: seq<State>, steps: seq<Step>, n: nat) {
    && |run| == |steps| + 1 && Init(run[0], n)
    && forall i {:trigger steps[i]} | 0 <= i < |steps| :: NextStep(run[i], run[i + 1], steps[i])
  }

  lemma {:induction false} RunInv(run: seq<State>, steps: seq<Step>, n: nat, i: nat)
    requires IsRun(run, steps, n) && i < |run|
    ensures Inv(run[i])
  {
    if i == 0 {
      InitInv(run[0], n);
    } else {
      RunInv(run, steps, n, i - 1);
      assert NextStep(run[i - 1], run[i], steps[i - 1]);
      InvInductive(run[i - 1], run[i], steps[i - 1]);
    }
  }

  // ---------------------------------------------------------------- what the allocator guarantees

  /** The step frees segment i. */
  predicate FreesSegment(s: State, step: Step, i: nat) {
    || (step.OwnerRelease? && s.owner == MustRelease(i))
    || (step.Release? && step.t < |s.threads| && s.threads[step.t] == Releasing(i))
  }

  /** The step reads or writes segment i. */
  predicate Uses(s: State, step: Step, i: nat) {
    || (step.Allocate? && s.active == Active(i))
    || (step.Seal? && s.owner.Sealing? && s.owner.seg == i)
    || (step.Free? && step.seg == i)
  }

  /** A segment is freed only once, after it was sealed and all its blocks were freed. */
  lemma FreedOnce(run: seq<State>, steps: seq<Step>, n: nat, k: nat, i: nat)
    requires IsRun(run, steps, n) && k < |steps| && FreesSegment(run[k], steps[k], i)
    ensures i < |run[k].segs| && !run[k].segs[i].released && run[k].segs[i].live == {} && Sealed(run[k].segs[i])
    ensures i < |run[k + 1].segs| && run[k + 1].segs[i].released
  {
    RunInv(run, steps, n, k);
    assert NextStep(run[k], run[k + 1], steps[k]);
    var s := run[k];
    if steps[k].Release? { assert s.threads[steps[k].t] == Releasing(i); }
    assert SegmentOk(s, i) && Leaving(s, i);
  }

  /** Nobody touches a freed segment. */
  lemma NoUseAfterFree(run: seq<State>, steps: seq<Step>, n: nat, k: nat, i: nat)
    requires IsRun(run, steps, n) && k < |steps| && Uses(run[k], steps[k], i)
    ensures i < |run[k].segs| && !run[k].segs[i].released
  {
    RunInv(run, steps, n, k);
    assert NextStep(run[k], run[k + 1], steps[k]);
    assert SegmentOk(run[k], i);
  }

  /** No segment is lost: once it is sealed and its blocks are freed, it is freed or exactly one thread, the
      last of Seal and the frees, is about to free it. */
  lemma LastOneFrees(run: seq<State>, steps: seq<Step>, n: nat, k: nat, i: nat)
    requires IsRun(run, steps, n) && k < |run| && i < |run[k].segs| && Sealed(run[k].segs[i])
    requires run[k].segs[i].live == {}
    ensures run[k].segs[i].released <==> !Leaving(run[k], i)
    ensures forall t, u | 0 <= t < |run[k].threads| && 0 <= u < |run[k].threads|
                          && run[k].threads[t] == run[k].threads[u] == Releasing(i) ::
              t == u && run[k].owner != MustRelease(i)
  {
    RunInv(run, steps, n, k);
    assert SegmentOk(run[k], i);
  }

  /** The blocks of a segment, freed or not, never overlap, lie inside its buffer and are aligned as asked. */
  lemma BlocksDisjoint(run: seq<State>, steps: seq<Step>, n: nat, k: nat, i: nat, x: nat, y: nat)
    requires IsRun(run, steps, n) && k < |run| && i < |run[k].segs| && x < y < |run[k].segs[i].blocks|
    ensures var seg := run[k].segs[i];
            var a, b := seg.blocks[x], seg.blocks[y];
            && a.header + HEADER + a.user <= b.header && b.header + HEADER + b.user <= SEGMENT_SIZE
            && UserAligned(seg.base, a) && UserAligned(seg.base, b)
  {
    RunInv(run, steps, n, k);
    assert SegmentOk(run[k], i);
  }

  /** Free finds the segment of every block ever handed out: the offset fits its 16 bits. */
  lemma FreeFindsSegment(run: seq<State>, steps: seq<Step>, n: nat, k: nat, i: nat, x: nat)
    requires IsRun(run, steps, n) && k < |run| && i < |run[k].segs| && x < |run[k].segs[i].blocks|
    ensures var seg := run[k].segs[i];
            SegmentOf(AddressOf(seg.base, seg.blocks[x].header) + HEADER, Stored(seg.blocks[x])) == seg.base
  {
    RunInv(run, steps, n, k);
    assert SegmentOk(run[k], i);
  }
}
