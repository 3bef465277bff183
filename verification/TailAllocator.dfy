/** Tail reservation (AtomicPageOffset, Allocate, NewPage, GetTailAddress in
    src/core/persistent_memory_malloc.h, driven by BlockAllocate in src/core/fishstore.h): one
    64-bit word packs a 23-bit page over a 41-bit offset; Reserve adds to the whole word and may
    run past the page, NewPage swaps in the next page.

    One atomic access per step, up to 96 threads. A thread that ran past a page calls NewPage until
    the page has moved before it reserves again. */
module TailAllocator {

  const WORD: nat := 0x1_0000_0000_0000_0000
  const OFFSETS: nat := 0x200_0000_0000       // 2^41
  const PAGE_SIZE: nat := 0x200_0000          // 2^25
  const MAX_OFFSET: nat := 0x1FF_FFFF
  const MAX_PAGE: nat := 0x7F_FFFF            // 2^23 - 1
  const MAX_THREADS: nat := 96

  function Page(word: nat): nat { word / OFFSETS }
  function Offset(word: nat): nat { word % OFFSETS }

  /** A successful allocation, at a flat address. */
  datatype Block = Block(addr: nat, size: nat)

  datatype Pc =
    | Ready
    | Overshot(page: nat)                     // Allocate failed and closed this page
    | Turning(page: nat, expected: nat)       // NewPage loaded the word, about to compare-and-swap

  /** `blocks` and `overshoots` are history: allocations in atomic order, and who ran past which page. */
  datatype State = State(word: nat, pcs: seq<Pc>, blocks: seq<Block>, overshoots: set<(nat, nat)>)

  datatype Step = Reserve(t: nat, slots: nat) | LoadTail(t: nat) | SwapTail(t: nat)

  predicate Init(s: State, n: nat) {
    n <= MAX_THREADS && s == State(0, seq(n, _ => Ready), [], {})
  }

  predicate NextStep(s: State, s': State, step: Step) {
    && step.t < |s.pcs|
    && var t, pc := step.t, s.pcs[step.t];
    match step
    case Reserve(_, slots) =>
      && pc.Ready? && 1 <= slots <= MAX_OFFSET
      && var page, offset, word' := Page(s.word), Offset(s.word), (s.word + slots) % WORD;
         if offset + slots > PAGE_SIZE
         then s' == s.(word := word', pcs := s.pcs[t := Overshot(page)], overshoots := s.overshoots + {(t, page)})
         else s' == s.(word := word', blocks := s.blocks + [Block(page * PAGE_SIZE + offset, slots)])
    case LoadTail(_) =>
      && pc.Overshot?
      && s' == s.(pcs := s.pcs[t := if Page(s.word) != pc.page then Ready else Turning(pc.page, s.word)])
    case SwapTail(_) =>
      && pc.Turning? && pc.page < MAX_PAGE
      && if s.word == pc.expected
         then s' == s.(word := (pc.page + 1) * OFFSETS, pcs := s.pcs[t := Overshot(pc.page)])
         else s' == s.(pcs := s.pcs[t := if Page(s.word) > pc.page then Ready else Overshot(pc.page)])
  }

  /** GetTailAddress: the offset is cut to 32 bits, then to the page. */
  function GetTailAddress(word: nat): nat {
    var cut := Offset(word) % 0x1_0000_0000;
    Page(word) * PAGE_SIZE + if cut < MAX_OFFSET then cut else MAX_OFFSET
  }

  /** Threads that ran past the given page and have not left it. */
  function Stuck(pcs: seq<Pc>, page: nat): nat {
    if |pcs| == 0 then 0
    else Stuck(pcs[..|pcs| - 1], page) + if At(pcs[|pcs| - 1], page) then 1 else 0
  }

  predicate At(pc: Pc, page: nat) { !pc.Ready? && pc.page == page }

  lemma {:induction false} StuckBound(pcs: seq<Pc>, page: nat)
    ensures Stuck(pcs, page) <= |pcs|
  {
    if |pcs| > 0 { StuckBound(pcs[..|pcs| - 1], page); }
  }

  lemma {:induction false} StuckUpdate(pcs: seq<Pc>, t: nat, pc: Pc, page: nat)
    requires t < |pcs|
    ensures Stuck(pcs[t := pc], page) ==
            Stuck(pcs, page) - (if At(pcs[t], page) then 1 else 0) + (if At(pc, page) then 1 else 0)
  {
    var last := |pcs| - 1;
    if t == last {
      assert pcs[t := pc][..last] == pcs[..last];
    } else {
      StuckUpdate(pcs[..last], t, pc, page);
      assert pcs[t := pc][..last] == pcs[..last][t := pc];
    }
  }

  predicate Bounded(word: nat, pcs: seq<Pc>) { Offset(word) <= PAGE_SIZE + Stuck(pcs, Page(word)) * MAX_OFFSET }

  /** Each overshoot adds less than a page to the offset. */
  predicate WordInv(s: State) {
    && |s.pcs| <= MAX_THREADS && Page(s.word) <= MAX_PAGE
    && Bounded(s.word, s.pcs)
    && (forall t | 0 <= t < |s.pcs| && !s.pcs[t].Ready? ::
          s.pcs[t].page <= Page(s.word) && (s.pcs[t].Turning? ==> Page(s.pcs[t].expected) == s.pcs[t].page))
    && (forall o | o in s.overshoots ::
          o.0 < |s.pcs| && (o.1 < Page(s.word) || At(s.pcs[o.0], o.1)))
  }

  /** Where the next block would start, or the end of the page when it is full. */
  function Frontier(word: nat): nat {
    Page(word) * PAGE_SIZE + if Offset(word) < PAGE_SIZE then Offset(word) else PAGE_SIZE
  }

  predicate BlocksInv(s: State) {
    && (forall b | b in s.blocks :: BlockOk(b, Frontier(s.word)))
    && (forall i, j | 0 <= i < j < |s.blocks| :: s.blocks[i].addr + s.blocks[i].size <= s.blocks[j].addr)
  }

  predicate Inv(s: State) { WordInv(s) && BlocksInv(s) }

  /** The offset stays far below the page bits: adding to it never carries. */
  lemma NoCarry(s: State, slots: nat)
    requires WordInv(s) && slots <= MAX_OFFSET
    ensures Offset(s.word) < 0x1_0000_0000
    ensures (s.word + slots) % WORD == s.word + slots
    ensures Page(s.word + slots) == Page(s.word) && Offset(s.word + slots) == Offset(s.word) + slots
  {
    StuckBound(s.pcs, Page(s.word));
    assert s.word == Page(s.word) * OFFSETS + Offset(s.word);
  }

  lemma NextPage(page: nat)
    ensures Offset((page + 1) * OFFSETS) == 0 && Page((page + 1) * OFFSETS) == page + 1
  {
  }

  lemma BoundInductive(s: State, s': State, step: Step)
    requires WordInv(s) && NextStep(s, s', step)
    ensures Bounded(s'.word, s'.pcs) && Page(s.word) <= Page(s'.word) <= MAX_PAGE
  {
    StuckUpdate(s.pcs, step.t, s'.pcs[step.t], Page(s.word));
    match step
    case Reserve(_, slots) => NoCarry(s, slots);
    case SwapTail(t) => if s'.word != s.word { NextPage(s.pcs[t].page); }
    case LoadTail(_) =>
  }

  lemma WordInductive(s: State, s': State, step: Step)
    requires WordInv(s) && NextStep(s, s', step)
    ensures WordInv(s')
  {
    BoundInductive(s, s', step);
    if step.Reserve? { NoCarry(s, step.slots); }
    if step.SwapTail? { NextPage(s.pcs[step.t].page); }
  }

  lemma FrontierGrows(s: State, s': State, step: Step)
    requires WordInv(s) && NextStep(s, s', step)
    ensures Frontier(s.word) <= Frontier(s'.word) && Page(s.word) <= Page(s'.word)
  {
    if step.Reserve? { NoCarry(s, step.slots); }
  }

  predicate BlockOk(b: Block, frontier: nat) {
    1 <= b.size && b.addr % PAGE_SIZE + b.size <= PAGE_SIZE && b.addr + b.size <= frontier
  }

  lemma NewBlock(page: nat, offset: nat, slots: nat)
    requires 1 <= slots && offset + slots <= PAGE_SIZE
    ensures BlockOk(Block(page * PAGE_SIZE + offset, slots), page * PAGE_SIZE + (offset + slots))
  {
  }

  lemma BlocksInductive(s: State, s': State, step: Step)
    requires Inv(s) && NextStep(s, s', step)
    ensures BlocksInv(s')
  {
    FrontierGrows(s, s', step);
    if s'.blocks != s.blocks {
      NoCarry(s, step.slots);
      NewBlock(Page(s.word), Offset(s.word), step.slots);
      assert forall i | 0 <= i < |s.blocks| :: s.blocks[i] in s.blocks;
    }
  }

  lemma InitInv(s: State, n: nat)
    requires Init(s, n)
    ensures Inv(s)
  {
    StuckBound(s.pcs, 0);
  }

  predicate IsRun(run: seq<State>, steps: seq<Step>, n: nat) {
    && |run| == |steps| + 1 && Init(run[0], n)
    && forall i {:trigger steps[i]} | 0 <= i < |steps| :: NextStep(run[i], run[i + 1], steps[i])
  }

  lemma {:induction false} RunInv(run: seq<State>, steps: seq<Step>, n: nat, k: nat)
    requires IsRun(run, steps, n) && k < |run|
    ensures Inv(run[k])
  {
    if k == 0 {
      InitInv(run[0], n);
    } else {
      RunInv(run, steps, n, k - 1);
      WordInductive(run[k - 1], run[k], steps[k - 1]);
      BlocksInductive(run[k - 1], run[k], steps[k - 1]);
    }
  }

  /** Whatever the interleaving: blocks lie within one page, never overlap and are handed out in
      ascending order of address; the tail offset stays below 2^32, so GetTailAddress loses no bits
      and covers every block. */
  lemma Allocations(run: seq<State>, steps: seq<Step>, n: nat, k: nat, i: nat, j: nat)
    requires IsRun(run, steps, n) && k < |run| && i < j < |run[k].blocks|
    ensures var x, y := run[k].blocks[i], run[k].blocks[j];
            && x.addr + x.size <= y.addr
            && x.addr / PAGE_SIZE == (x.addr + x.size - 1) / PAGE_SIZE
            && y.addr / PAGE_SIZE == (y.addr + y.size - 1) / PAGE_SIZE
            && y.addr + y.size <= GetTailAddress(run[k].word) + 1
    ensures Offset(run[k].word) < 0x1_0000_0000
  {
    RunInv(run, steps, n, k);
    NoCarry(run[k], 0);
    var x, y := run[k].blocks[i], run[k].blocks[j];
    assert x in run[k].blocks && y in run[k].blocks;
    OnePage(x.addr, x.size);
    OnePage(y.addr, y.size);
  }

  lemma OnePage(a: nat, size: nat)
    requires 1 <= size && a % PAGE_SIZE + size <= PAGE_SIZE
    ensures a / PAGE_SIZE == (a + size - 1) / PAGE_SIZE
  {
  }

  /** A thread runs past a page at most once: when it does, it had not done so before. */
  lemma OvershootsOnce(run: seq<State>, steps: seq<Step>, n: nat, k: nat)
    requires IsRun(run, steps, n) && k < |steps| && steps[k].Reserve?
    requires Offset(run[k].word) + steps[k].slots > PAGE_SIZE
    ensures (steps[k].t, Page(run[k].word)) !in run[k].overshoots
  {
    RunInv(run, steps, n, k);
  }

  /** Blocks are only ever appended, and each new one starts at or above the tail reported before. */
  lemma {:induction false} LaterBlocks(run: seq<State>, steps: seq<Step>, n: nat, k: nat, l: nat)
    requires IsRun(run, steps, n) && k <= l < |run|
    ensures run[k].blocks <= run[l].blocks
    ensures Frontier(run[k].word) <= Frontier(run[l].word) && Page(run[k].word) <= Page(run[l].word)
    ensures forall i | |run[k].blocks| <= i < |run[l].blocks| :: Frontier(run[k].word) <= run[l].blocks[i].addr
    decreases l
  {
    if k < l {
      LaterBlocks(run, steps, n, k, l - 1);
      RunInv(run, steps, n, l - 1);
      assert NextStep(run[l - 1], run[l], steps[l - 1]);
      FrontierGrows(run[l - 1], run[l], steps[l - 1]);
      if steps[l - 1].Reserve? { NoCarry(run[l - 1], steps[l - 1].slots); }
    }
  }

  /** The reported tail never moves back. */
  lemma TailGrows(run: seq<State>, steps: seq<Step>, n: nat, k: nat, l: nat)
    requires IsRun(run, steps, n) && k <= l < |run|
    ensures GetTailAddress(run[k].word) <= GetTailAddress(run[l].word)
  {
    LaterBlocks(run, steps, n, k, l);
    RunInv(run, steps, n, k);
    RunInv(run, steps, n, l);
    NoCarry(run[k], 0);
    NoCarry(run[l], 0);
  }

  /** The last byte of a page, where GetTailAddress reports a full page's tail. */
  predicate Clamped(x: nat) { x % PAGE_SIZE == MAX_OFFSET }

  /** What an address reported by GetTailAddress separates: every block allocated by then ends
      at or below it, or right behind it if it is the last byte of a page; every later block starts at
      or above it. */
  lemma TailSeparates(run: seq<State>, steps: seq<Step>, n: nat, k: nat, l: nat, i: nat)
    requires IsRun(run, steps, n) && k <= l < |run| && i < |run[l].blocks|
    ensures var tail, b := GetTailAddress(run[k].word), run[l].blocks[i];
            if i < |run[k].blocks| then b.addr + b.size <= tail + (if Clamped(tail) then 1 else 0)
            else tail <= b.addr
  {
    LaterBlocks(run, steps, n, k, l);
    RunInv(run, steps, n, k);
    NoCarry(run[k], 0);
    if i < |run[k].blocks| { assert run[l].blocks[i] == run[k].blocks[i] && run[k].blocks[i] in run[k].blocks; }
  }

  predicate Eights(x: nat) { x % 8 == 0 }

  predicate BlockAligned(b: Block) { Eights(b.addr) && Eights(b.size) }

  lemma EightsSum(page: nat, x: nat, y: nat)
    requires Eights(x) && Eights(y)
    ensures Eights(x + y) && Eights(page * PAGE_SIZE + x)
  {
  }

  lemma AlignedStep(s: State, s': State, step: Step)
    requires WordInv(s) && NextStep(s, s', step) && (step.Reserve? ==> Eights(step.slots))
    requires Eights(Offset(s.word)) && forall b | b in s.blocks :: BlockAligned(b)
    ensures Eights(Offset(s'.word)) && forall b | b in s'.blocks :: BlockAligned(b)
  {
    match step
    case Reserve(_, slots) =>
      NoCarry(s, slots);
      EightsSum(Page(s.word), Offset(s.word), slots);
    case SwapTail(t) =>
      if s'.word != s.word { NextPage(s.pcs[t].page); }
    case LoadTail(_) =>
  }

  /** Reservations in multiples of 8 bytes keep every block aligned. */
  lemma {:induction false} BlocksAligned(run: seq<State>, steps: seq<Step>, n: nat, k: nat)
    requires IsRun(run, steps, n) && k < |run| && forall i | 0 <= i < k && steps[i].Reserve? :: Eights(steps[i].slots)
    ensures Eights(Offset(run[k].word)) && forall b | b in run[k].blocks :: BlockAligned(b)
  {
    if k > 0 {
      BlocksAligned(run, steps, n, k - 1);
      RunInv(run, steps, n, k - 1);
      assert NextStep(run[k - 1], run[k], steps[k - 1]);
      AlignedStep(run[k - 1], run[k], steps[k - 1]);
    }
  }

  /** And the reported tail, unless it is the last byte of a page. */
  lemma TailAligned(run: seq<State>, steps: seq<Step>, n: nat, k: nat)
    requires IsRun(run, steps, n) && k < |run| && forall i | 0 <= i < k && steps[i].Reserve? :: Eights(steps[i].slots)
    ensures Clamped(GetTailAddress(run[k].word)) || Eights(GetTailAddress(run[k].word))
  {
    RunInv(run, steps, n, k);
    NoCarry(run[k], 0);
    BlocksAligned(run, steps, n, k);
    EightsSum(Page(run[k].word), Offset(run[k].word), 0);
  }

  /** Two tails reported one after the other can be the last byte of a page and the start of the next, with
      nothing allocated in between: a reservation overshoots page 0 and NewPage turns the page. */
  lemma TailsMeet() returns (run: seq<State>, steps: seq<Step>)
    ensures IsRun(run, steps, 1) && |run| == 5 && run[4].blocks == run[2].blocks
    ensures forall i | 0 <= i < |steps| && steps[i].Reserve? :: Eights(steps[i].slots)
    ensures GetTailAddress(run[2].word) == MAX_OFFSET && GetTailAddress(run[4].word) == MAX_OFFSET + 1
  {
    var s0 := State(0, [Ready], [], {});
    var s1 := s0.(word := 64, blocks := [Block(0, 64)]);
    var s2 := s1.(word := 64 + 0x1FF_FFF8, pcs := [Overshot(0)], overshoots := {(0, 0)});
    var s3 := s2.(pcs := [Turning(0, s2.word)]);
    var s4 := s2.(word := OFFSETS);
    run, steps := [s0, s1, s2, s3, s4], [Reserve(0, 64), Reserve(0, 0x1FF_FFF8), LoadTail(0), SwapTail(0)];
    assert NextStep(s0, s1, steps[0]) && NextStep(s1, s2, steps[1]);
    assert NextStep(s2, s3, steps[2]) && NextStep(s3, s4, steps[3]);
  }

  // ---------------------------------------------------------------- which reservations succeed

  /** A reservation gets a block exactly if it fits what is left of the page, and then gets the front of that. */
  lemma ReserveExactly(run: seq<State>, steps: seq<Step>, n: nat, k: nat)
    requires IsRun(run, steps, n) && k < |steps| && steps[k].Reserve?
    ensures var left := (Page(run[k].word) + 1) * PAGE_SIZE - Frontier(run[k].word);
            run[k + 1].blocks == if steps[k].slots > left then run[k].blocks
                                 else run[k].blocks + [Block(Frontier(run[k].word), steps[k].slots)]
  {
    RunInv(run, steps, n, k);
    assert NextStep(run[k], run[k + 1], steps[k]);
    NoCarry(run[k], steps[k].slots);
  }

  /** What is left begins where the last block ended, or with the page. */
  predicate FrontierOk(s: State) {
    var full := (Page(s.word) + 1) * PAGE_SIZE;
    || Frontier(s.word) == full || Frontier(s.word) == Page(s.word) * PAGE_SIZE
    || (|s.blocks| > 0 && Frontier(s.word) == s.blocks[|s.blocks| - 1].addr + s.blocks[|s.blocks| - 1].size)
  }

  lemma FrontierInductive(s: State, s': State, step: Step)
    requires Inv(s) && FrontierOk(s) && NextStep(s, s', step)
    ensures FrontierOk(s')
  {
    if step.Reserve? { NoCarry(s, step.slots); }
    if step.SwapTail? { NextPage(s.pcs[step.t].page); }
  }

  /** So there are no gaps: a block follows the one before it, or starts a page. */
  lemma {:induction false} NoGaps(run: seq<State>, steps: seq<Step>, n: nat, k: nat)
    requires IsRun(run, steps, n) && k < |run|
    ensures FrontierOk(run[k])
    ensures forall i | 0 < i < |run[k].blocks| ::
              || run[k].blocks[i].addr == run[k].blocks[i - 1].addr + run[k].blocks[i - 1].size
              || run[k].blocks[i].addr % PAGE_SIZE == 0
  {
    if k > 0 {
      NoGaps(run, steps, n, k - 1);
      RunInv(run, steps, n, k - 1);
      assert NextStep(run[k - 1], run[k], steps[k - 1]);
      FrontierInductive(run[k - 1], run[k], steps[k - 1]);
      if steps[k - 1].Reserve? { ReserveExactly(run, steps, n, k - 1); }
    }
  }
}
