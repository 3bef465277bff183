/** The disk part of an index scan with adaptive prefetching (AsyncScanFromDiskCallback and
    IssueAsyncScanRequest in src/core/fishstore.h, setIOLevel in src/core/internal_contexts.h,
    scan_* in src/core/address.h, GetFileReadBoundaries in src/core/persistent_memory_malloc.h).

    Every read returns a window of the log; the callback looks at key pointers and records only
    through the window. It has to do exactly what a plain walk of the chain does. It does, with every look
    inside the window, unless it meets the end of the range inside a record that reaches beyond the
    window: then it hands out a record it does not have (`Overruns`), and the model stops there. */
module DiskScan {

  /** A record on disk: its size() and its invalid bit. */
  datatype Record = Record(pointers: nat, size: nat, invalid: bool)

  /** A key pointer on disk: ptr_offset, prev_address, and what check() says about it. */
  datatype KeyPointer = KeyPointer(index: nat, prev: nat, hit: bool)

  datatype Log = Log(records: map<nat, Record>, kpts: map<nat, KeyPointer>)

  /** Record::ptr_offset: bytes from a record to its i-th key pointer. */
  function PtrOffset(i: nat): nat { 8 + 16 * i }

  /** get_record: the record a key pointer belongs to. */
  function RecordOf(log: Log, a: nat): int
    requires a in log.kpts
  {
    a - PtrOffset(log.kpts[a].index)
  }

  /** Records are 8-byte aligned, do not overlap and fit the header's field widths; a key pointer
      lies inside its record; chains run downwards and, down to `begin`, through key pointers. */
  ghost predicate WellFormed(log: Log, begin: nat) {
    && (forall b | b in log.records ::
          b % 8 == 0 && PtrOffset(log.records[b].pointers) <= log.records[b].size < 0x400_0000)
    && (forall b, c | b in log.records && c in log.records && b < c :: b + log.records[b].size <= c)
    && (forall a {:trigger RecordOf(log, a)} | a in log.kpts ::
          && 0 <= RecordOf(log, a) && RecordOf(log, a) in log.records
          && log.kpts[a].index < log.records[RecordOf(log, a)].pointers)
    && (forall a {:trigger log.kpts[a].prev} | a in log.kpts ::
          log.kpts[a].prev < a && (log.kpts[a].prev >= begin ==> log.kpts[a].prev in log.kpts))
  }

  /** What a scan of [start, end] is after. */
  datatype Range = Range(begin: nat, start: nat, end: nat) {
    predicate Ends(a: nat) { a < start || a < begin }
  }

  predicate Matches(log: Log, a: nat)
    requires a in log.kpts
  {
    && log.kpts[a].hit
    && RecordOf(log, a) >= 0 && RecordOf(log, a) in log.records && !log.records[RecordOf(log, a)].invalid
  }

  /** The plain walk: the key pointers of the chain from a down, valid, matching and in the range. */
  ghost function PlainWalk(log: Log, r: Range, a: nat): (touched: seq<nat>)
    requires WellFormed(log, r.begin) && (a >= r.begin ==> a in log.kpts)
    decreases a
  {
    if r.Ends(a) then []
    else (if a <= r.end && Matches(log, a) then [a] else []) + PlainWalk(log, r, log.kpts[a].prev)
  }

  lemma Regroup(x: seq<nat>, a: nat, rest: seq<nat>)
    ensures x + ([a] + rest) == (x + [a]) + rest && x + ([] + rest) == x + rest
  {
    assert [] + rest == rest;
  }

  /** One step of the plain walk. */
  lemma WalkStep(log: Log, r: Range, a: nat, touched: seq<nat>)
    requires WellFormed(log, r.begin) && a in log.kpts && !r.Ends(a)
    ensures touched + PlainWalk(log, r, a) ==
            (if a <= r.end && Matches(log, a) then touched + [a] else touched) + PlainWalk(log, r, log.kpts[a].prev)
  {
    Regroup(touched, a, PlainWalk(log, r, log.kpts[a].prev));
  }

  /** x is on the chain from a: it is a, or on the chain from where a's prev_address leads. */
  ghost predicate OnChain(log: Log, begin: nat, a: nat, x: nat)
    requires WellFormed(log, begin)
    decreases a
  {
    a in log.kpts && (x == a || OnChain(log, begin, log.kpts[a].prev, x))
  }

  /** What a scan of the range from a down is to touch: the key pointers on the chain, between start and end and
      not below begin, that match and whose record is valid. */
  ghost predicate Selected(log: Log, begin: nat, start: nat, end: nat, a: nat, x: nat)
    requires WellFormed(log, begin)
  {
    && OnChain(log, begin, a, x) && begin <= x && start <= x <= end
    && x in log.kpts && log.kpts[x].hit && RecordOf(log, x) in log.records && !log.records[RecordOf(log, x)].invalid
  }

  lemma {:induction false} ChainBelow(log: Log, begin: nat, a: nat, x: nat)
    requires WellFormed(log, begin) && OnChain(log, begin, a, x)
    ensures x <= a
    decreases a
  {
    if x != a { ChainBelow(log, begin, log.kpts[a].prev, x); }
  }

  /** The plain walk touches exactly these, from high to low addresses. */
  lemma {:induction false} PlainWalkExact(log: Log, r: Range, a: nat, x: nat)
    requires WellFormed(log, r.begin) && (a >= r.begin ==> a in log.kpts)
    ensures x in PlainWalk(log, r, a) <==> Selected(log, r.begin, r.start, r.end, a, x)
    ensures x in PlainWalk(log, r, a) ==> x <= a
    ensures forall i, j | 0 <= i < j < |PlainWalk(log, r, a)| :: PlainWalk(log, r, a)[j] < PlainWalk(log, r, a)[i]
    decreases a
  {
    if r.Ends(a) {
      if OnChain(log, r.begin, a, x) { ChainBelow(log, r.begin, a, x); }
    } else {
      var p, w := log.kpts[a].prev, PlainWalk(log, r, a);
      PlainWalkExact(log, r, p, x);
      assert RecordOf(log, a) in log.records;
      forall i, j | 0 <= i < j < |w| ensures w[j] < w[i] {
        PlainWalkExact(log, r, p, w[j]);
      }
    }
  }

  // ---------------------------------------------------------------- scan pages and windows

  const LEVELS: nat := 5
  const GAP_THRESHOLD: nat := 138240

  /** scan_page_size: 1 << address_offset_bit[level]. */
  function ScanPageSize(level: nat): (p: nat)
    ensures p >= 1
  {
    if level == 0 then 1 else if level == 1 then 0x1000 else if level == 2 then 0x4000
    else if level == 3 then 0x1_0000 else 0x4_0000
  }

  function ScanPage(a: nat, level: nat): nat { a / ScanPageSize(level) }

  function ScanPageHead(a: nat, level: nat): (h: nat) { ScanPage(a, level) * ScanPageSize(level) }

  function ScanOffset(a: nat, level: nat): (o: nat) { a % ScanPageSize(level) }

  lemma MultipleOf8(q: nat, m: nat)
    ensures (q * (8 * m)) % 8 == 0
  {
    assert q * (8 * m) == 8 * (q * m);
  }

  lemma ScanPageFacts(a: nat, level: nat)
    ensures ScanPageHead(a, level) + ScanOffset(a, level) == a
    ensures ScanOffset(a, level) < ScanPageSize(level)
    ensures level > 0 ==> ScanPageHead(a, level) % 8 == 0 && ScanPageSize(level) % 8 == 0
    ensures level == 0 ==> ScanPageHead(a, level) == a
  {
    var p := ScanPageSize(level);
    assert a / p * p + a % p == a;
    if level > 0 { MultipleOf8(a / p, p / 8); }
  }

  /** Aligned as they are, a header and the end of its scan page are at least 8 bytes apart. */
  lemma HeaderFits(head: nat, offset: nat, pageSize: nat)
    requires head % 8 == 0 && pageSize % 8 == 0 && (head + offset) % 8 == 0 && offset < pageSize
    ensures offset + 8 <= pageSize
  {
  }

  /** The buffer of one read: the bytes [lo, hi) of the log, with GetValidPointer() at `base`. */
  datatype Window = Window(lo: nat, base: nat, hi: nat) {
    predicate Holds(from: int, bytes: nat) { lo <= from && from + bytes <= hi }
    function ValidOffset(): int { base - lo }
    function AvailableBytes(): int { hi - base }
  }

  /** GetFileReadBoundaries: widen [address, address + bytes) to sectors. */
  function Read(sector: nat, address: nat, bytes: nat): (w: Window)
    requires sector > 0
    ensures w.lo <= w.base == address && address + bytes <= w.hi
  {
    var end := address + bytes + (sector - 1);
    Window(address - address % sector, address, end - end % sector)
  }

  /** uint64_t difference of two addresses. */
  function Gap(a: int, b: int): nat {
    (a - b) % 0x1_0000_0000_0000_0000
  }

  /** setIOLevel: back to level 0 on a gap above tolerance, otherwise one level up. */
  function NextLevel(level: nat, gap: nat, average: nat): (l: nat)
    requires level < LEVELS
    ensures l < LEVELS
  {
    if gap > GAP_THRESHOLD + average then 0 else if level < LEVELS - 1 then level + 1 else level
  }

  /** The level after a number of gaps. */
  function LevelAfter(level: nat, gaps: seq<nat>, average: nat): (l: nat)
    requires level < LEVELS
    ensures l < LEVELS
  {
    if gaps == [] then level
    else NextLevel(LevelAfter(level, gaps[..|gaps| - 1], average), gaps[|gaps| - 1], average)
  }

  /** Gaps within tolerance raise it one by one to the top, where it stays; one above tolerance resets it. */
  lemma {:induction false} LevelsExactly(level: nat, gaps: seq<nat>, average: nat)
    requires level < LEVELS
    ensures (forall i | 0 <= i < |gaps| :: gaps[i] <= 138240 + average) ==>
              LevelAfter(level, gaps, average) == if level + |gaps| < 4 then level + |gaps| else 4
    ensures |gaps| > 0 && gaps[|gaps| - 1] > 138240 + average ==> LevelAfter(level, gaps, average) == 0
  {
    if gaps != [] { LevelsExactly(level, gaps[..|gaps| - 1], average); }
  }

  /** A level reads a byte, 4 KB, and four times as much with every further level. */
  lemma PageSizes(level: nat)
    ensures ScanPageSize(0) == 1 && ScanPageSize(1) == 4096
    ensures 1 <= level < LEVELS - 1 ==> ScanPageSize(level + 1) == 4 * ScanPageSize(level)
  {
  }

  /** a - b + c in uint32_t: the difference may wrap around, the sum wraps back. */
  function Sum32(a: nat, b: nat, c: nat): (r: nat)
    requires a < 0x1_0000_0000 && b < 0x1_0000_0000 && b <= a + c < 0x1_0000_0000 + b
    ensures r == a - b + c
  {
    ((a - b) % 0x1_0000_0000 + c) % 0x1_0000_0000
  }

  function Max(a: nat, b: nat): nat { if a < b then b else a }

  /** The read for the key pointer at `at`: its whole scan page, or at least the key pointer. */
  function Request(sector: nat, at: nat, level: nat): (w: Window)
    requires sector > 0
    ensures w.lo <= w.base == ScanPageHead(at, level)
    ensures at + 16 <= w.hi && w.base + ScanPageSize(level) <= w.hi
  {
    ScanPageFacts(at, level);
    Read(sector, ScanPageHead(at, level), Max(ScanPageSize(level), ScanOffset(at, level) + 16))
  }

  // ---------------------------------------------------------------- when the window is overrun

  /** The scan, having read for the key pointer at `at`, above the range, is to leave v, above the range too,
      for the next one down. Will it hand out a record that reaches beyond its window? Only if that is where
      it enters the range: the next key pointer is on the scan page just read, with its header, but its
      record ends behind the window. */
  ghost predicate Overruns(log: Log, r: Range, sector: nat, average: nat, at: nat, level: nat, v: nat)
    requires WellFormed(log, r.begin) && sector > 0 && level < LEVELS && v in log.kpts && r.begin <= v && r.end < v
    decreases v
  {
    var c := log.kpts[v].prev;
    !r.Ends(c)
    && if ScanPage(c, level) == ScanPage(at, level)
       then if c > r.end then Overruns(log, r, sector, average, at, level, c)
            else ScanOffset(c, level) >= PtrOffset(log.kpts[c].index)
                 && Request(sector, at, level).hi < RecordOf(log, c) + log.records[RecordOf(log, c)].size
       else c > r.end && Overruns(log, r, sector, average, c, NextLevel(level, Gap(v, c), average), c)
  }

  /** One key pointer further on the same scan page. */
  lemma OverrunStep(log: Log, r: Range, sector: nat, average: nat, at: nat, level: nat, v: nat)
    requires WellFormed(log, r.begin) && sector > 0 && level < LEVELS && v in log.kpts && r.begin <= v && r.end < v
    requires !r.Ends(log.kpts[v].prev) && ScanPage(log.kpts[v].prev, level) == ScanPage(at, level)
    ensures var c := log.kpts[v].prev;
            Overruns(log, r, sector, average, at, level, v) <==>
              if c > r.end then Overruns(log, r, sector, average, at, level, c)
              else ScanOffset(c, level) >= PtrOffset(log.kpts[c].index)
                   && Request(sector, at, level).hi < RecordOf(log, c) + log.records[RecordOf(log, c)].size
  {
  }

  /** And onto another scan page. */
  lemma OverrunLeaves(log: Log, r: Range, sector: nat, average: nat, at: nat, level: nat, v: nat)
    requires WellFormed(log, r.begin) && sector > 0 && level < LEVELS && v in log.kpts && r.begin <= v && r.end < v
    requires r.Ends(log.kpts[v].prev) || ScanPage(log.kpts[v].prev, level) != ScanPage(at, level)
    ensures var c := log.kpts[v].prev;
            Overruns(log, r, sector, average, at, level, v) <==>
              !r.Ends(c) && c > r.end && Overruns(log, r, sector, average, c, NextLevel(level, Gap(v, c), average), c)
  {
  }

  /** No two neighbours on a chain belong to one record and lie on different sides of the end. */
  ghost predicate Uncut(log: Log, end: nat) {
    forall v {:trigger log.kpts[v].prev}
      | v in log.kpts && log.kpts[v].prev <= end < v && log.kpts[v].prev in log.kpts ::
      RecordOf(log, v) != RecordOf(log, log.kpts[v].prev)
  }

  /** Then nothing is overrun, whatever the sector size and the levels. */
  lemma {:induction false} UncutFits(log: Log, r: Range, sector: nat, average: nat, at: nat, level: nat, v: nat)
    requires WellFormed(log, r.begin) && sector > 0 && level < LEVELS && v in log.kpts && r.begin <= v && r.end < v
    requires Uncut(log, r.end) && at in log.kpts && v <= at
    ensures !Overruns(log, r, sector, average, at, level, v)
    decreases v
  {
    var c := log.kpts[v].prev;
    if !r.Ends(c) {
      Lower(log, r.begin, c, v);
      if ScanPage(c, level) != ScanPage(at, level) {
        if c > r.end { UncutFits(log, r, sector, average, c, NextLevel(level, Gap(v, c), average), c); }
      } else if c > r.end {
        UncutFits(log, r, sector, average, at, level, c);
      } else if v < at {
        Lower(log, r.begin, v, at);
      }
    }
  }

  // ---------------------------------------------------------------- looking through the window

  function LoadKpt(log: Log, w: Window, a: nat): KeyPointer
    requires w.Holds(a, 16) && a in log.kpts
  {
    log.kpts[a]
  }

  function LoadHeader(log: Log, w: Window, b: nat): Record
    requires w.Holds(b, 8) && b in log.records
  {
    log.records[b]
  }

  /** `!invalid && check(kpt)`, which may read the whole record. */
  predicate Check(log: Log, w: Window, a: nat)
    requires a in log.kpts && 0 <= RecordOf(log, a) && RecordOf(log, a) in log.records
    requires w.Holds(a, 16) && w.Holds(RecordOf(log, a), log.records[RecordOf(log, a)].size)
  {
    Matches(log, a)
  }

  /** Key pointers of a well-formed log do not overlap, and a lower one's record ends at or below
      the higher one's record unless they share it. */
  lemma Lower(log: Log, begin: nat, a: nat, v: nat)
    requires WellFormed(log, begin) && a in log.kpts && v in log.kpts && a < v
    ensures a + 16 <= v
    ensures || RecordOf(log, a) == RecordOf(log, v)
            || RecordOf(log, a) + log.records[RecordOf(log, a)].size <= RecordOf(log, v)
  {
    var b, c := RecordOf(log, a), RecordOf(log, v);
    assert b in log.records && c in log.records;
  }

  // ---------------------------------------------------------------- the callback

  /** A key pointer whose header is not in the window, one whose record is not wholly in it, and one that could
      be checked. */
  datatype Look = Lost | Beyond | Seen(hit: bool)

  class ScanIo {
    const log: Log
    const range: Range
    const sector: nat
    const average: nat
    var address: nat          // context->address
    var kptOffset: nat        // context->kpt_offset
    var level: nat            // io_level
    var window: Window        // context->record
    var touched: seq<nat>     // key pointers handed to Touch(), in order
    var done: bool            // pushed to thread_io_responses
    var overran: bool         // history: was to hand out a record not wholly in the window

    /** The key pointer the scan is at. */
    ghost function Current(): nat
      reads this
    {
      address + kptOffset
    }

    ghost predicate Valid()
      reads this
    {
      && sector > 0 && level < LEVELS
      && WellFormed(log, range.begin)
      && (overran ==> done)
      && (!done ==>
            && !range.Ends(Current()) && Current() in log.kpts
            && window.lo <= window.base == ScanPageHead(address, level)
            && (kptOffset == 0 ==> window == Request(sector, address, level))
            && (kptOffset != 0 ==>
                  && kptOffset == PtrOffset(log.kpts[Current()].index) && Current() <= range.end
                  && address + 8 <= window.hi))
    }

    /** What the scan has touched and, by the plain walk, still has to touch. */
    ghost function Total(): seq<nat>
      reads this
      requires Valid()
    {
      if done then touched else touched + PlainWalk(log, range, Current())
    }

    /** It has overrun or is going to. */
    ghost predicate Doomed()
      reads this
      requires Valid()
    {
      if done then overran
      else address > range.end && Overruns(log, range, sector, average, address, level, address)
    }

    /** Fetch stage at one key pointer: pointer fetched, header fetched, whole record fetched. */
    ghost function Stage(): nat
      reads this
      requires Valid()
    {
      if done then 0
      else if kptOffset == 0 then 2
      else if address in log.records && address + log.records[address].size <= window.hi then 0 else 1
    }

    /** IssueAsyncScanRequest: start at I/O level 0 with one key pointer. */
    constructor (log: Log, range: Range, sector: nat, average: nat, address: nat)
      requires WellFormed(log, range.begin) && sector > 0
      requires !range.Ends(address) && address in log.kpts
      ensures Valid() && !done && touched == [] && Current() == address
      ensures this.log == log && this.range == range
      ensures Doomed() <==> address > range.end && Overruns(log, range, sector, average, address, 0, address)
    {
      this.log, this.range, this.sector, this.average := log, range, sector, average;
      this.address, this.kptOffset, this.level := address, 0, 0;
      this.window := Read(sector, address, 16);
      this.touched, this.done, this.overran := [], false, false;
      new;
      ScanPageFacts(address, 0);
    }

    ghost predicate Ready()
      reads this
    {
      sector > 0 && level < LEVELS && WellFormed(log, range.begin) && !overran
    }

    /** The key pointer at `current` is in the window, its header is not: fetch from the header's scan
        page at the same I/O level, at least up to the header. */
    method FetchHeader(current: nat, bytes: nat)
      requires Ready() && !done && !range.Ends(current) && current in log.kpts && current <= range.end
      requires ScanOffset(RecordOf(log, current), level) + 8 <= bytes
      modifies this
      ensures Valid() && !done && touched == old(touched) && Current() == current && kptOffset > 0 && !Doomed()
    {
      var offset := PtrOffset(log.kpts[current].index);
      address, kptOffset := current - offset, offset;
      window := Read(sector, ScanPageHead(address, level), bytes);
      ScanPageFacts(address, level);
    }

    /** The chain leaves the window: adapt the I/O level to the gap and fetch the next key pointer. */
    method FetchNext(current: nat, gap: nat)
      requires Ready() && !done && !range.Ends(current) && current in log.kpts
      modifies this
      ensures Valid() && !done && touched == old(touched) && Current() == current
      ensures Doomed() <==>
                && current > range.end
                && Overruns(log, range, sector, average, current, NextLevel(old(level), gap, average), current)
    {
      level := NextLevel(level, gap, average);
      address, kptOffset := current, 0;
      window := Request(sector, current, level);
    }

    /** v is a key pointer in the window, with its whole record when it is in the range. */
    ghost predicate Loaded(v: nat)
      reads this
      requires WellFormed(log, range.begin)
    {
      && v in log.kpts && window.Holds(v, 16)
      && (v <= range.end ==> window.Holds(RecordOf(log, v), log.records[RecordOf(log, v)].size))
    }

    /** The record of key pointer v, wholly in the window. */
    predicate Whole(v: nat)
      reads this
      requires v in log.kpts && RecordOf(log, v) in log.records
    {
      window.Holds(RecordOf(log, v), log.records[RecordOf(log, v)].size)
    }

    /** A key pointer further down the chain and in the same scan page is in the window too. So is its whole
        record, if its header is and the one before was in the range. */
    lemma LowerLoaded(v: nat, current: nat, at: nat)
      requires Ready() && Loaded(v) && current in log.kpts && current < v
      requires window.lo <= window.base == ScanPageHead(at, level) && ScanPage(current, level) == ScanPage(at, level)
      ensures window.Holds(current, 16)
      ensures ScanOffset(current, level) >= PtrOffset(log.kpts[current].index) ==>
                && window.lo <= RecordOf(log, current) && RecordOf(log, current) in log.records
                && (v <= range.end ==> Loaded(current))
    {
      ScanPageFacts(current, level);
      Lower(log, range.begin, current, v);
      assert RecordOf(log, v) in log.records && RecordOf(log, current) in log.records;
    }

    /** One look through the window, at the key pointer below `last`. */
    method LookAt(current: nat, ghost last: nat, ghost v: nat, ghost at: nat) returns (look: Look)
      requires Ready() && last in log.kpts && Loaded(last) && range.begin <= last && current == log.kpts[last].prev
      requires window.lo <= window.base == ScanPageHead(at, level) && ScanPage(current, level) == ScanPage(at, level)
      requires !range.Ends(current) && (last > range.end ==> at == v && window == Request(sector, v, level))
      ensures current in log.kpts && (look.Lost? ==> current <= range.end)
      ensures look.Seen? ==> Loaded(current) && (look.hit <==> current <= range.end && Matches(log, current))
      ensures last <= range.end ==> !look.Beyond?
      ensures last > range.end ==>
                (Overruns(log, range, sector, average, v, level, last) <==>
                   if current > range.end then Overruns(log, range, sector, average, v, level, current)
                   else look.Beyond?)
      ensures current > range.end ==> look.Seen?
    {
      LowerLoaded(last, current, at);
      if last > range.end { OverrunStep(log, range, sector, average, v, level, last); }
      var kpt := LoadKpt(log, window, current);
      if current > range.end {
        look := Seen(false);
      } else if ScanOffset(current, level) < PtrOffset(kpt.index) {
        look := Lost;
      } else if !Whole(current) {
        look := Beyond;
      } else {
        look := Seen(Check(log, window, current));
      }
    }

    /** The walk through the window from key pointer v, on the scan page of `at`: to the end of the chain, to a
        key pointer whose header is lost, to another scan page, or to an overrun. Only a walk that starts
        above the range meets key pointers above it. */
    method Follow(v: nat, ghost at: nat, page: nat, gap0: nat) returns (current: nat, gap: nat, lost: bool)
      requires Ready() && !done && Loaded(v) && v >= range.begin
      requires window.lo <= window.base == ScanPageHead(at, level) && page == ScanPage(at, level)
      requires v > range.end ==> at == v && window == Request(sector, v, level) && gap0 == Gap(v, log.kpts[v].prev)
      modifies this`touched, this`done, this`overran
      ensures done == overran && (!range.Ends(current) ==> current in log.kpts) && current < v
      ensures lost ==> !range.Ends(current) && current <= range.end
      ensures !overran ==>
                && (current >= range.begin ==> current in log.kpts)
                && touched + PlainWalk(log, range, current)
                   == old(touched) + PlainWalk(log, range, log.kpts[v].prev)
      ensures (v > range.end && Overruns(log, range, sector, average, v, level, v)) <==>
                overran || (!range.Ends(current) && current > range.end
                            && Overruns(log, range, sector, average, current, NextLevel(level, gap, average), current))
    {
      current, gap, lost := log.kpts[v].prev, gap0, false;
      ghost var last, total := v, touched + PlainWalk(log, range, current);
      ghost var doomed := v > range.end && Overruns(log, range, sector, average, v, level, v);
      while !range.Ends(current) && ScanPage(current, level) == page
        invariant Ready() && !done && !lost
        invariant last in log.kpts && current == log.kpts[last].prev && current < last <= v
        invariant range.begin <= last && Loaded(last)
        invariant current >= range.begin ==> current in log.kpts
        invariant touched + PlainWalk(log, range, current) == total
        invariant last > range.end ==> gap == Gap(last, current)
        invariant doomed <==> last > range.end && Overruns(log, range, sector, average, v, level, last)
        decreases current
      {
        var look := LookAt(current, last, v, at);
        if look.Lost? {
          lost := true;
          return;
        }
        if look.Beyond? {
          // The code goes on, reading behind the buffer.
          done, overran := true, true;
          return;
        }
        WalkStep(log, range, current, touched);
        if look.hit {
          touched := touched + [current];
        }
        gap := Gap(current, log.kpts[current].prev);
        last := current;
        current := log.kpts[current].prev;
      }
      if last > range.end { OverrunLeaves(log, range, sector, average, v, level, last); }
    }

    /** The part all three entry cases end in. */
    method Explore(v: nat, ghost at: nat, page: nat, gap0: nat)
      requires Ready() && !done && Loaded(v) && v >= range.begin
      requires window.lo <= window.base == ScanPageHead(at, level) && page == ScanPage(at, level)
      requires v > range.end ==> at == v && window == Request(sector, v, level) && gap0 == Gap(v, log.kpts[v].prev)
      modifies this
      ensures Valid() && (overran || Total() == old(touched) + PlainWalk(log, range, log.kpts[v].prev))
      ensures Doomed() <==> v > range.end && Overruns(log, range, sector, average, v, old(level), v)
      ensures !done ==> Current() < v
    {
      var current, gap, lost := Follow(v, at, page, gap0);
      if !overran { Depart(current, gap, lost); }
    }

    /** The end of the chain, a lost header, or the next read. */
    method Depart(current: nat, gap: nat, lost: bool)
      requires Ready() && !done && (!range.Ends(current) ==> current in log.kpts)
      requires lost ==> !range.Ends(current) && current <= range.end
      modifies this
      ensures Valid() && !overran && touched == old(touched) && (done <==> range.Ends(current))
      ensures !done ==> Current() == current
      ensures Doomed() <==>
                && !range.Ends(current) && current > range.end
                && Overruns(log, range, sector, average, current, NextLevel(old(level), gap, average), current)
    {
      if range.Ends(current) {
        address, done := current, true;
      } else if lost {
        var offset := PtrOffset(log.kpts[current].index);
        assert RecordOf(log, current) in log.records;
        ScanPageFacts(RecordOf(log, current), level);
        FetchHeader(current, Max(offset + 16, ScanPageSize(level) + ScanOffset(current, level) + 16));
      } else {
        FetchNext(current, gap);
      }
    }

    /** AsyncScanFromDiskCallback. */
    method Callback()
      requires Valid() && !done
      modifies this
      ensures Valid() && (overran || Total() == old(Total())) && (Doomed() <==> old(Doomed()))
      ensures done || Current() < old(Current()) || (Current() == old(Current()) && Stage() < old(Stage()))
    {
      var readOffset, page := ScanOffset(address, level), ScanPage(address, level);
      var available := window.AvailableBytes() - readOffset;
      ScanPageFacts(address, level);
      if address > range.end {
        // Still above the range: the window starts at a key pointer.
        WalkStep(log, range, address, touched);
        Explore(address, address, page, Gap(address, log.kpts[address].prev));
      } else if kptOffset == 0 {
        PointerFetched(readOffset, page, available);
      } else {
        RecordFetched(readOffset, page, available);
      }
    }

    /** The window starts at a key pointer inside the range. */
    method PointerFetched(readOffset: nat, page: nat, available: int)
      requires Valid() && !done && kptOffset == 0 && address <= range.end
      requires readOffset == ScanOffset(address, level) && page == ScanPage(address, level)
      requires available == window.AvailableBytes() - readOffset
      modifies this
      ensures Valid() && (overran || Total() == old(Total())) && (Doomed() <==> old(Doomed()))
      ensures done || Current() < old(Current()) || (Current() == old(Current()) && Stage() < old(Stage()))
    {
      var own := address;
      var kpt := LoadKpt(log, window, own);
      var offset := PtrOffset(kpt.index);
      assert RecordOf(log, own) in log.records;
      ScanPageFacts(own, level);
      ScanPageFacts(own - offset, level);
      if window.ValidOffset() + readOffset < offset {
        FetchHeader(own, Max(offset + 16, ScanPageSize(level) + readOffset + 16));
      } else {
        var record := LoadHeader(log, window, own - offset);
        if record.size > offset + available {
          ShortRequestHasHeader(own, readOffset);
          FetchHeader(own, Sum32(readOffset, offset, record.size));
        } else {
          WalkStep(log, range, own, touched);
          if Check(log, window, own) {
            touched := touched + [own];
          }
          Explore(own, own, page, Gap(own - offset, kpt.prev));
        }
      }
    }

    /** When the record does not fit the window, the request for the rest of it, short as it may be,
        reaches the header. */
    lemma ShortRequestHasHeader(own: nat, readOffset: nat)
      requires Valid() && !done && kptOffset == 0 && own == address && readOffset == ScanOffset(own, level)
      requires RecordOf(log, own) >= 0 && RecordOf(log, own) in log.records
      requires RecordOf(log, own) + log.records[RecordOf(log, own)].size > window.hi
      ensures var offset, size := PtrOffset(log.kpts[own].index), log.records[RecordOf(log, own)].size;
              && readOffset < 0x1_0000_0000 && offset < size < 0x400_0000
              && ScanOffset(RecordOf(log, own), level) + 8 <= readOffset - offset + size
    {
      var header := RecordOf(log, own);
      ScanPageFacts(own, level);
      ScanPageFacts(header, level);
      if level > 0 {
        HeaderFits(ScanPageHead(header, level), ScanOffset(header, level), ScanPageSize(level));
      }
    }

    /** The window starts at the header of the record being looked at. */
    method RecordFetched(readOffset: nat, page: nat, available: int)
      requires Valid() && !done && kptOffset != 0
      requires readOffset == ScanOffset(address, level) && page == ScanPage(address, level)
      requires available == window.AvailableBytes() - readOffset
      modifies this
      ensures Valid() && (overran || Total() == old(Total())) && (Doomed() <==> old(Doomed()))
      ensures done || Current() < old(Current()) || (Current() == old(Current()) && Stage() < old(Stage()))
    {
      var own := address + kptOffset;
      assert RecordOf(log, own) == address;
      ScanPageFacts(address, level);
      var record := LoadHeader(log, window, address);
      if record.size > available {
        window := Read(sector, ScanPageHead(address, level), readOffset + record.size);
      } else {
        var kpt := LoadKpt(log, window, own);
        WalkStep(log, range, own, touched);
        if Check(log, window, own) {
          touched := touched + [own];
        }
        Explore(own, address, page, Gap(address, kpt.prev));
      }
    }
  }

  /** For every well-formed chain, range, sector size and average record size (so for every sequence
      of I/O levels that arises), the adaptive scan ends. It hands out a record that it has not wholly
      read if and only if Overruns says so of its start. Otherwise it touches exactly what the plain
      walk touches, in the same order, and every look it takes is inside the window it has read. */
  method Scan(log: Log, range: Range, sector: nat, average: nat, address: nat)
    returns (touched: seq<nat>, overran: bool)
    requires WellFormed(log, range.begin) && sector > 0
    requires !range.Ends(address) && address in log.kpts
    ensures overran <==> address > range.end && Overruns(log, range, sector, average, address, 0, address)
    ensures !overran ==> touched == PlainWalk(log, range, address)
    ensures !overran ==>
              forall x: nat :: x in touched <==> Selected(log, range.begin, range.start, range.end, address, x)
    ensures !overran ==> forall i, j | 0 <= i < j < |touched| :: touched[j] < touched[i]
    ensures Uncut(log, range.end) ==> !overran
  {
    var io := new ScanIo(log, range, sector, average, address);
    ghost var doomed := io.Doomed();
    while !io.done
      invariant io.Valid() && io.log == log && io.range == range
      invariant (io.Doomed() <==> doomed) && (io.overran || io.Total() == PlainWalk(log, range, address))
      decreases !io.done, io.Current(), io.Stage()
    {
      io.Callback();
    }
    touched, overran := io.touched, io.overran;
    forall x: nat
      ensures x in PlainWalk(log, range, address) <==>
                Selected(log, range.begin, range.start, range.end, address, x)
    {
      PlainWalkExact(log, range, address, x);
    }
    PlainWalkExact(log, range, address, 0);
    if address > range.end && Uncut(log, range.end) {
      UncutFits(log, range, sector, average, address, 0, address);
    }
  }

  // ---------------------------------------------------------------- a scan that overruns

  /** A record at 4048 with two key pointers of one chain, at 4056 and 4072, and one further up at 8200. */
  function CutLog(): Log {
    Log(map[4048 := Record(2, 200, false), 8192 := Record(1, 24, false)],
        map[4056 := KeyPointer(0, 0, true), 4072 := KeyPointer(1, 4056, true), 8200 := KeyPointer(0, 4072, true)])
  }

  lemma CutRecords()
    ensures var records := CutLog().records;
            && (forall b | b in records :: b % 8 == 0 && PtrOffset(records[b].pointers) <= records[b].size < 0x400_0000)
            && (forall b, c | b in records && c in records && b < c :: b + records[b].size <= c)
  {
    assert forall b | b in CutLog().records :: b == 4048 || b == 8192;
  }

  lemma CutPointer(a: nat)
    requires a in CutLog().kpts
    ensures var log := CutLog();
            && 0 <= RecordOf(log, a) && RecordOf(log, a) in log.records
            && log.kpts[a].index < log.records[RecordOf(log, a)].pointers
            && log.kpts[a].prev < a && (log.kpts[a].prev >= 64 ==> log.kpts[a].prev in log.kpts)
  {
    assert a == 4056 || a == 4072 || a == 8200;
  }

  lemma CutWellFormed()
    ensures WellFormed(CutLog(), 64)
  {
    CutRecords();
    forall a | a in CutLog().kpts { CutPointer(a); }
  }

  /** The key pointer at 4072 is read at level 1: the request ends with its scan page, at 4096. */
  lemma CutRequest(sector: nat)
    requires sector > 0 && 4096 % sector == 0
    ensures Request(sector, 4072, 1).hi == 4096
  {
    var q, x := 4096 / sector, 4096 + (sector - 1);
    assert x == sector * q + (sector - 1);
    var k := x / sector - q;
    assert sector * k == sector - 1 - x % sector;
    assert k >= 1 ==> sector * k >= sector;
    assert k <= -1 ==> sector * k + sector <= 0;
  }

  lemma CutInside(sector: nat, average: nat)
    requires WellFormed(CutLog(), 64) && sector > 0 && 4096 % sector == 0
    ensures Overruns(CutLog(), Range(64, 64, 4060), sector, average, 4072, 1, 4072)
  {
    CutRequest(sector);
    assert RecordOf(CutLog(), 4056) == 4048;
  }

  /** A scan for the range up to 4060 reads the bytes up to 4096 for the key pointer at 4072 and then hands out
      the record, which ends at 4248. */
  lemma CutOverruns(sector: nat, average: nat)
    requires sector > 0 && 4096 % sector == 0
    ensures WellFormed(CutLog(), 64) && Overruns(CutLog(), Range(64, 64, 4060), sector, average, 8200, 0, 8200)
  {
    CutWellFormed();
    CutInside(sector, average);
    assert Gap(8200, 4072) == 4128 && NextLevel(0, 4128, average) == 1;
    assert CutLog().kpts[8200].prev == 4072;
  }
}
