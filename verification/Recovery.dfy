/** Recovery from a fuzzy index checkpoint and a log checkpoint (src/core/fishstore.h: Recover,
    RecoverHybridLog, RecoverFromPage).

    The index copy is older than the log and torn in time. Recover replays the log between
    checkpoint_start_address and final_address, page by page, resetting the entry of every key pointer
    of the checkpoint's version and marking later records invalid. */
module Recovery {
  const PAGE_SIZE: nat := 0x200_0000
  const HEADER: nat := 8
  const KPT_SIZE: nat := 16

  /** A chain address: key pointer `ptr` of the record at `rec`, or an address below the log. */
  datatype Link = End | At(rec: nat, ptr: nat)

  function AddressOf(l: Link): nat { if l.End? then 0 else l.rec + HEADER + KPT_SIZE * l.ptr }

  datatype KeyPointer = KeyPointer(key: nat, prev: Link)
  datatype Record = Record(version: nat, invalid: bool, kpts: seq<KeyPointer>, size: nat)

  /** The log by record address. Every other header position holds zeros. */
  type Log = map<nat, Record>

  function Word(w: nat): nat { w * 8 }

  /** x is an 8-byte address. */
  ghost predicate Aligned(x: nat) { exists w: nat {:trigger Word(w)} :: x == Word(w) }

  lemma AlignedSum(x: nat, y: nat)
    requires Aligned(x) && Aligned(y)
    ensures Aligned(x + y)
  {
    var v: nat, w: nat :| x == Word(v) && y == Word(w);
    assert x + y == Word(v + w);
  }

  lemma AlignedGap(x: nat, y: nat)
    requires Aligned(x) && Aligned(y) && x < y
    ensures x + 8 <= y
  {
    var v: nat, w: nat :| x == Word(v) && y == Word(w);
  }

  function PageStart(page: nat): nat { page * PAGE_SIZE }

  /** No page starts inside the record. */
  ghost predicate InPage(a: nat, size: nat) {
    forall page: nat {:trigger PageStart(page)} :: a < PageStart(page) ==> a + size <= PageStart(page)
  }

  /** A record is aligned, holds its key pointers and stays within a page. */
  ghost predicate RecordLaid(a: nat, r: Record) {
    Aligned(a) && Aligned(r.size) && r.size >= HEADER + KPT_SIZE * |r.kpts| && InPage(a, r.size)
  }

  predicate Apart(a: nat, r: Record, b: nat) { a < b ==> a + r.size <= b }

  /** Records are well laid out and do not overlap. */
  ghost predicate Laid(log: Log) {
    && (forall a {:trigger RecordLaid(a, log[a])} | a in log :: RecordLaid(a, log[a]))
    && (forall a, b {:trigger Apart(a, log[a], b)} | a in log && b in log :: Apart(a, log[a], b))
  }

  /** x is not inside a record. */
  ghost predicate Boundary(log: Log, x: nat) {
    Aligned(x) && forall a | a in log && a < x :: a + log[a].size <= x
  }

  predicate IsPointer(log: Log, k: nat, l: Link) {
    l.At? && l.rec in log && l.ptr < |log[l.rec].kpts| && log[l.rec].kpts[l.ptr].key == k
  }

  /** l is a key pointer of a finished record of version v or older. */
  predicate Committed(log: Log, v: nat, k: nat, l: Link) {
    IsPointer(log, k, l) && !log[l.rec].invalid && log[l.rec].version <= v
  }

  predicate Replayed(log: Log, v: nat, from: nat, end: nat, k: nat, l: Link) {
    Committed(log, v, k, l) && from <= l.rec < end
  }

  function Cleared(r: Record, v: nat): Record { if r.version > v then r.(invalid := true) else r }

  type Entries = map<nat, Link>

  /** What replaying [from, end) must do: later versions there become invalid and nothing else changes;
      the entry of a key becomes the highest committed key pointer there, if there is one. */
  ghost predicate Replays(log: Log, entries: Entries, log': Log, entries': Entries, from: nat, end: nat, v: nat) {
    && log'.Keys == log.Keys
    && (forall a | a in log :: log'[a] == if from <= a < end then Cleared(log[a], v) else log[a])
    && (forall k | k in entries :: k in entries')
    && (forall k | k in entries' ::
          Replayed(log, v, from, end, k, entries'[k]) || (k in entries && entries'[k] == entries[k]))
    && (forall k, l | Replayed(log, v, from, end, k, l) ::
          k in entries' && Replayed(log, v, from, end, k, entries'[k]) && AddressOf(l) <= AddressOf(entries'[k]))
  }

  // ---------------------------------------------------------------- one record

  /** The entries after storing the first n key pointers of the record at a. */
  function Stored(entries: Entries, a: nat, kpts: seq<KeyPointer>, n: nat): Entries
    requires n <= |kpts|
  {
    if n == 0 then entries else Stored(entries, a, kpts, n - 1)[kpts[n - 1].key := At(a, n - 1)]
  }

  /** Each key ends at its last key pointer in the record; other keys keep their entry. */
  lemma {:induction false} StoredLast(entries: Entries, a: nat, kpts: seq<KeyPointer>, n: nat, k: nat)
    requires n <= |kpts|
    ensures var e := Stored(entries, a, kpts, n);
            && (k in entries ==> k in e)
            && (k in e ==>
                  || (k in entries && e[k] == entries[k])
                  || (e[k].At? && e[k].rec == a && e[k].ptr < n && kpts[e[k].ptr].key == k))
            && (forall i | 0 <= i < n && kpts[i].key == k ::
                  k in e && e[k].At? && e[k].rec == a && i <= e[k].ptr < n && kpts[e[k].ptr].key == k)
  {
    if n > 0 { StoredLast(entries, a, kpts, n - 1, k); }
  }

  /** A range without records replays to nothing. */
  lemma NoRecords(log: Log, entries: Entries, log': Log, entries': Entries, from: nat, x: nat, y: nat, v: nat)
    requires Replays(log, entries, log', entries', from, x, v) && from <= x && from <= y
    requires forall a | a in log :: !(x <= a < y) && !(y <= a < x)
    ensures Replays(log, entries, log', entries', from, y, v)
  {
    assert forall k, l :: Replayed(log, v, from, x, k, l) <==> Replayed(log, v, from, y, k, l);
  }

  /** The one record at x has been taken care of. */
  lemma SkipRecord(log: Log, entries: Entries, log': Log, entries': Entries, from: nat, x: nat, y: nat, v: nat)
    requires Replays(log, entries, log', entries', from, x, v) && from <= x < y && x in log
    requires forall a | a in log :: !(x < a < y)
    requires log[x].invalid
    ensures Replays(log, entries, log', entries', from, y, v)
  {
    assert forall k, l :: Replayed(log, v, from, x, k, l) <==> Replayed(log, v, from, y, k, l);
  }

  lemma ClearRecord(log: Log, entries: Entries, log': Log, entries': Entries, from: nat, x: nat, y: nat, v: nat)
    requires Replays(log, entries, log', entries', from, x, v) && from <= x < y && x in log
    requires forall a | a in log :: !(x < a < y)
    requires log[x].version > v
    ensures Replays(log, entries, log'[x := log[x].(invalid := true)], entries', from, y, v)
  {
    assert forall k, l :: Replayed(log, v, from, x, k, l) <==> Replayed(log, v, from, y, k, l);
  }

  lemma StoreRecord(log: Log, entries: Entries, log': Log, entries': Entries, from: nat, x: nat, y: nat, v: nat)
    requires Laid(log) && Replays(log, entries, log', entries', from, x, v) && from <= x < y && x in log
    requires forall a | a in log :: !(x < a < y)
    requires !log[x].invalid && log[x].version <= v
    ensures Replays(log, entries, log', Stored(entries', x, log[x].kpts, |log[x].kpts|), from, y, v)
  {
    var e := Stored(entries', x, log[x].kpts, |log[x].kpts|);
    forall k | k in entries ensures k in e {
      StoredLast(entries', x, log[x].kpts, |log[x].kpts|, k);
    }
    forall k | k in e ensures Replayed(log, v, from, y, k, e[k]) || (k in entries && e[k] == entries[k]) {
      StoredLast(entries', x, log[x].kpts, |log[x].kpts|, k);
    }
    forall k, l | Replayed(log, v, from, y, k, l)
      ensures k in e && Replayed(log, v, from, y, k, e[k]) && AddressOf(l) <= AddressOf(e[k])
    {
      StoredLast(entries', x, log[x].kpts, |log[x].kpts|, k);
      if l.rec < x {
        assert Replayed(log, v, from, x, k, l);
        if e[k].rec == x { LowerRecord(log, k, l, e[k]); }
      }
    }
  }

  lemma AfterRecord(log: Log, a: nat)
    requires Laid(log) && a in log
    ensures Boundary(log, a + log[a].size) && log[a].size >= HEADER && forall b | b in log :: !(a < b < a + log[a].size)
  {
    assert RecordLaid(a, log[a]);
    AlignedSum(a, log[a].size);
    assert forall b | b in log :: Apart(a, log[a], b) && Apart(b, log[b], a);
  }

  lemma AfterNull(log: Log, x: nat)
    requires Laid(log) && Boundary(log, x) && x !in log
    ensures Boundary(log, x + HEADER) && forall b | b in log :: !(x <= b < x + HEADER)
  {
    assert Word(1) == 8;
    AlignedSum(x, 8);
    forall b | b in log && x < b ensures x + 8 <= b {
      assert RecordLaid(b, log[b]);
      AlignedGap(x, b);
    }
  }

  lemma PageBoundary(log: Log, page: nat)
    requires Laid(log)
    ensures Boundary(log, PageStart(page))
  {
    assert PageStart(page) == Word(page * 0x40_0000);
    assert forall a | a in log :: RecordLaid(a, log[a]);
  }

  /** No record starts in the last byte of a page. */
  lemma LastByte(log: Log, page: nat)
    requires Laid(log)
    ensures forall a | a in log :: a != PageStart(page) + (PAGE_SIZE - 1)
  {
    forall a | a in log ensures a != PageStart(page) + (PAGE_SIZE - 1) {
      assert RecordLaid(a, log[a]);
      var w: nat :| a == Word(w);
    }
  }

  /** An 8-byte header at x lies inside one page. */
  predicate HeaderInPage(x: nat) { x % PAGE_SIZE + HEADER <= PAGE_SIZE }

  lemma AlignedHeader(x: nat)
    requires Aligned(x)
    ensures HeaderInPage(x)
  {
    var w: nat :| x == Word(w);
  }

  /** GetTailAddress reports the tail of a full page as the page's last byte. */
  predicate Clamped(x: nat) { x % PAGE_SIZE == PAGE_SIZE - 1 }

  /** A start address the replay can deal with: a record boundary, or the last byte of a full page unless the
      range ends with that very page. */
  ghost predicate Startable(log: Log, from: nat, end: nat) {
    Boundary(log, from) || (Clamped(from) && end != from + 1)
  }

  /** The page loop's bound: to_address.page(), plus one if its offset is positive. */
  function EndPage(end: nat): nat { if end % PAGE_SIZE > 0 then end / PAGE_SIZE + 1 else end / PAGE_SIZE }

  /** Where RecoverFromPage stops on the first page of the range. */
  function FirstStop(from: nat, end: nat): nat {
    if from / PAGE_SIZE + 1 == EndPage(end) then end else PageStart(from / PAGE_SIZE) + (PAGE_SIZE - 1)
  }

  /** RecoverFromPage asserts, in debug builds, that its two addresses share a page. Of the calls the page loop
      makes this holds of all but the last, and of the last exactly if the range does not end with a page. */
  lemma SharedPage(from: nat, end: nat, page: nat)
    requires from < end && from / PAGE_SIZE <= page < EndPage(end)
    ensures var lo := if page == from / PAGE_SIZE then from else PageStart(page);
            var stop := if page + 1 == EndPage(end) then end else PageStart(page) + (PAGE_SIZE - 1);
            lo / PAGE_SIZE == stop / PAGE_SIZE <==> page + 1 < EndPage(end) || end % PAGE_SIZE > 0
  {
    assert PageStart(page) / PAGE_SIZE == page && (PageStart(page) + (PAGE_SIZE - 1)) / PAGE_SIZE == page;
  }

  /** Startable is exact: of the addresses GetTailAddress can report, it holds of those from which the first
      header read, if there is one, stays inside its page. */
  lemma StartableExact(log: Log, from: nat, end: nat)
    requires from < end && (Boundary(log, from) || Clamped(from))
    ensures Startable(log, from, end) <==> (from < FirstStop(from, end) ==> HeaderInPage(from))
  {
    if Boundary(log, from) {
      AlignedHeader(from);
    } else {
      ClampedStop(from, end);
    }
  }

  lemma ClampedStop(from: nat, end: nat)
    requires Clamped(from) && from < end
    ensures from < FirstStop(from, end) <==> end == from + 1
    ensures PageStart(from / PAGE_SIZE) + (PAGE_SIZE - 1) == from && !HeaderInPage(from)
  {
  }

  lemma LowerRecord(log: Log, k: nat, l: Link, m: Link)
    requires Laid(log) && IsPointer(log, k, l) && IsPointer(log, k, m) && l.rec < m.rec
    ensures AddressOf(l) < AddressOf(m)
  {
    assert RecordLaid(l.rec, log[l.rec]) && Apart(l.rec, log[l.rec], m.rec);
  }

  /** Replaying adjacent ranges one after the other replays both. */
  lemma Adjacent(log: Log, entries: Entries, log1: Log, entries1: Entries, log2: Log, entries2: Entries, x: nat, y: nat,
                 z: nat, v: nat)
    requires Laid(log) && x <= y <= z && Replays(log, entries, log1, entries1, x, y, v)
    requires Replays(log1, entries1, log2, entries2, y, z, v)
    ensures Replays(log, entries, log2, entries2, x, z, v)
  {
    assert forall k, l :: Replayed(log1, v, y, z, k, l) <==> Replayed(log, v, y, z, k, l);
    forall k, l | Replayed(log, v, x, z, k, l)
      ensures k in entries2 && Replayed(log, v, x, z, k, entries2[k]) && AddressOf(l) <= AddressOf(entries2[k])
    {
      if l.rec >= y {
        assert Replayed(log1, v, y, z, k, l);
      } else {
        assert Replayed(log, v, x, y, k, l);
        if Replayed(log, v, y, z, k, entries2[k]) { LowerRecord(log, k, l, entries2[k]); }
      }
    }
  }

  /** How far the page loop has come before `page`. */
  function Reached(from: nat, end: nat, startPage: nat, endPage: nat, page: nat): nat {
    if page == startPage then from else if page >= endPage then end else PageStart(page)
  }

  /** Pages startPage to endPage - 1 cover the range. */
  predicate PagesOf(from: nat, end: nat, startPage: nat, endPage: nat) {
    && PageStart(startPage) <= from < PageStart(startPage + 1) && end <= PageStart(endPage)
    && (endPage > 0 ==> PageStart(endPage - 1) < end)
  }

  lemma PageRange(from: nat, end: nat)
    ensures PagesOf(from, end, from / PAGE_SIZE, EndPage(end))
  {
  }

  lemma PageOfRange(from: nat, end: nat, startPage: nat, endPage: nat, page: nat)
    requires from <= end && PagesOf(from, end, startPage, endPage) && startPage <= page < endPage
    ensures var lo := Reached(from, end, startPage, endPage, page);
            && lo == (if page == startPage then from else PageStart(page))
            && from <= lo <= end && PageStart(page) <= lo < PageStart(page + 1)
            && (if page + 1 == endPage then end <= PageStart(page + 1) else PageStart(page + 1) < end)
            && Reached(from, end, startPage, endPage, page + 1)
               == if page + 1 == endPage then end else PageStart(page + 1)
  {
  }

  /** The scan of a page has dealt with everything below `address`, a record boundary. */
  ghost predicate Scanned(log0: Log, entries0: Entries, log: Log, entries: Entries, from: nat, address: nat, end: nat,
                          v: nat) {
    && Laid(log0) && from <= address && Boundary(log0, address) && (forall a | a in log0 :: !(end <= a < address))
    && Replays(log0, entries0, log, entries, from, address, v)
  }

  lemma ScanBegins(log: Log, entries: Entries, from: nat, end: nat, v: nat)
    requires Laid(log) && Boundary(log, from) && from <= end
    ensures Scanned(log, entries, log, entries, from, from, end, v)
  {
  }

  lemma ScanEnds(log0: Log, entries0: Entries, log: Log, entries: Entries, from: nat, address: nat, end: nat, v: nat)
    requires Scanned(log0, entries0, log, entries, from, address, end, v) && from <= end <= address
    ensures Replays(log0, entries0, log, entries, from, end, v)
  {
    NoRecords(log0, entries0, log, entries, from, address, end, v);
  }

  lemma ScanNull(log0: Log, entries0: Entries, log: Log, entries: Entries, from: nat, address: nat, end: nat, v: nat)
    requires Scanned(log0, entries0, log, entries, from, address, end, v) && address < end && address !in log0
    ensures HeaderInPage(address) && Scanned(log0, entries0, log, entries, from, address + HEADER, end, v)
  {
    AlignedHeader(address);
    AfterNull(log0, address);
    NoRecords(log0, entries0, log, entries, from, address, address + HEADER, v);
  }

  lemma SameLayout(log: Log, entries: Entries, log': Log, entries': Entries, from: nat, end: nat, v: nat)
    requires Laid(log) && Replays(log, entries, log', entries', from, end, v)
    ensures Laid(log') && forall x | Boundary(log, x) :: Boundary(log', x)
  {
    forall a | a in log' ensures RecordLaid(a, log'[a]) { assert RecordLaid(a, log[a]); }
    forall a, b | a in log' && b in log' ensures Apart(a, log'[a], b) { assert Apart(a, log[a], b); }
  }

  /** A page replayed up to its last byte is replayed to its end. */
  lemma PageDone(log: Log, entries: Entries, log': Log, entries': Entries, lo: nat, page: nat, v: nat)
    requires Laid(log) && lo < PageStart(page + 1)
    requires Replays(log, entries, log', entries', lo, PageStart(page) + (PAGE_SIZE - 1), v)
    ensures Replays(log, entries, log', entries', lo, PageStart(page + 1), v)
  {
    LastByte(log, page);
    NoRecords(log, entries, log', entries', lo, PageStart(page) + (PAGE_SIZE - 1), PageStart(page + 1), v);
  }

  /** A clamped address is the last byte of its page. */
  lemma ClampedPage(x: nat, page: nat)
    requires Clamped(x) && PageStart(page) <= x < PageStart(page + 1)
    ensures x == PageStart(page) + (PAGE_SIZE - 1)
  {
  }

  // ---------------------------------------------------------------- the code

  datatype Status = Ok | Corruption

  class Store {
    var log: Log
    var entries: Entries

    /** Resets the entry of every key pointer of the record at `address`, in order. */
    method StorePointers(address: nat, kpts: seq<KeyPointer>)
      modifies this`entries
      ensures entries == Stored(old(entries), address, kpts, |kpts|)
    {
      var i := 0;
      while i < |kpts|
        invariant 0 <= i <= |kpts| && entries == Stored(old(entries), address, kpts, i)
      {
        entries := entries[kpts[i].key := At(address, i)];
        i := i + 1;
      }
    }

    /** One record of RecoverFromPage, after those scanned before it. */
    method RecoverRecord(address: nat, v: nat, ghost log0: Log, ghost entries0: Entries, ghost from: nat,
                         ghost end: nat)
      requires Scanned(log0, entries0, log, entries, from, address, end, v) && address < end && address in log
      modifies this
      ensures HeaderInPage(address)
      ensures address in log0 && log0[address].size >= HEADER
      ensures Scanned(log0, entries0, log, entries, from, address + log0[address].size, end, v)
    {
      var record := log[address];
      ghost var next := address + record.size;
      AlignedHeader(address);
      AfterRecord(log0, address);
      if record.invalid {
        SkipRecord(log0, entries0, log, entries, from, address, next, v);
      } else if record.version <= v {
        StoreRecord(log0, entries0, log, entries, from, address, next, v);
        StorePointers(address, record.kpts);
      } else {
        ClearRecord(log0, entries0, log, entries, from, address, next, v);
        log := log[address := record.(invalid := true)];
      }
    }

    /** RecoverFromPage: a scan by header, zeros skipped a word at a time. It must start at a record boundary
        unless there is nothing to scan. */
    method RecoverFromPage(from: nat, end: nat, v: nat)
      requires Laid(log) && from <= end && (Boundary(log, from) || from == end)
      modifies this
      ensures Replays(old(log), old(entries), log, entries, from, end, v)
    {
      if from < end { ScanFrom(from, end, v); }
    }

    method ScanFrom(from: nat, end: nat, v: nat)
      requires Laid(log) && from <= end && Boundary(log, from)
      modifies this
      ensures Replays(old(log), old(entries), log, entries, from, end, v)
    {
      ScanBegins(log, entries, from, end, v);
      var address := from;
      while address < end
        invariant Scanned(old(log), old(entries), log, entries, from, address, end, v)
        decreases end - address
      {
        assert log.Keys == old(log).Keys;
        if address !in log {
          ScanNull(old(log), old(entries), log, entries, from, address, end, v);
          address := address + HEADER;
        } else {
          var size := log[address].size;
          RecoverRecord(address, v, old(log), old(entries), from, end);
          address := address + size;
        }
      }
      ScanEnds(old(log), old(entries), log, entries, from, address, end, v);
    }

    /** One page of RecoverHybridLog: lo is where the page's part of the range begins. */
    method RecoverPage(lo: nat, end: nat, page: nat, last: bool, v: nat,
                       ghost log0: Log, ghost entries0: Entries, ghost from: nat)
      requires Laid(log0) && Startable(log0, lo, end) && from <= lo
      requires Replays(log0, entries0, log, entries, from, lo, v)
      requires PageStart(page) <= lo < PageStart(page + 1) && lo <= end
      requires if last then end <= PageStart(page + 1) else PageStart(page + 1) < end
      modifies this
      ensures Replays(log0, entries0, log, entries, from, if last then end else PageStart(page + 1), v)
    {
      SameLayout(log0, entries0, log, entries, from, lo, v);
      ghost var log1, entries1 := log, entries;
      if Clamped(lo) { ClampedPage(lo, page); }
      RecoverFromPage(lo, if last then end else PageStart(page) + (PAGE_SIZE - 1), v);
      if !last { PageDone(log1, entries1, log, entries, lo, page, v); }
      Adjacent(log0, entries0, log1, entries1, log, entries, from, lo, if last then end else PageStart(page + 1), v);
    }

    /** The loop over the pages of the range. */
    method RecoverPages(from: nat, end: nat, startPage: nat, endPage: nat, v: nat)
      requires Laid(log) && Startable(log, from, end) && from <= end && PagesOf(from, end, startPage, endPage)
      modifies this
      ensures Replays(old(log), old(entries), log, entries, from, end, v)
    {
      var page := startPage;
      while page < endPage
        invariant startPage <= page && (page <= endPage || page == startPage)
        invariant Replays(old(log), old(entries), log, entries, from, Reached(from, end, startPage, endPage, page), v)
      {
        PageBoundary(old(log), page);
        var lo := if page == startPage then from else PageStart(page);
        PageOfRange(from, end, startPage, endPage, page);
        RecoverPage(lo, end, page, page + 1 == endPage, v, old(log), old(entries), from);
        page := page + 1;
      }
    }

    /** RecoverHybridLog: from checkpoint_start_address to final_address. */
    method RecoverHybridLog(from: nat, end: nat, v: nat)
      requires Laid(log) && Startable(log, from, end) && from <= end
      modifies this
      ensures Replays(old(log), old(entries), log, entries, from, end, v)
    {
      PageRange(from, end);
      RecoverPages(from, end, from / PAGE_SIZE, EndPage(end), v);
    }

    /** Recover: the two checkpoints must be of one version. */
    method Recover(indexVersion: nat, logVersion: nat, snapshot: Entries, start: nat,
                   final: nat) returns (status: Status)
      requires Laid(log) && Startable(log, start, final) && start <= final
      modifies this
      ensures status.Ok? <==> indexVersion == logVersion
      ensures status.Ok? ==> Replays(old(log), snapshot, log, entries, start, final, logVersion)
      ensures !status.Ok? ==> log == old(log) && entries == old(entries)
    {
      if indexVersion != logVersion {
        return Corruption;
      }
      entries := snapshot;
      RecoverHybridLog(start, final, logVersion);
      return Ok;
    }
  }

  // ---------------------------------------------------------------- what recovery achieves

  /** What the checkpoints guarantee (Checkpoint.Recoverable, on byte addresses). */
  ghost predicate Consistent(log: Log, snapshot: Entries, start: nat, final: nat, v: nat) {
    && start <= final
    && (forall a | a in log && a < start :: log[a].version <= v)
    && (forall a | a in log && log[a].version <= v :: !log[a].invalid && a < final)
    && (forall k | k in snapshot :: Committed(log, v, k, snapshot[k]))
    && (forall k, l | Committed(log, v, k, l) && l.rec < start ::
          k in snapshot && AddressOf(l) <= AddressOf(snapshot[k]))
  }

  /** Every entry ends at the highest committed key pointer of its key. */
  lemma EntriesHighest(log: Log, snapshot: Entries, log': Log, entries: Entries, start: nat, final: nat, v: nat)
    requires Laid(log) && Consistent(log, snapshot, start, final, v)
    requires Replays(log, snapshot, log', entries, start, final, v)
    ensures forall k | k in entries :: Committed(log, v, k, entries[k])
    ensures forall k, l | Committed(log, v, k, l) :: k in entries && AddressOf(l) <= AddressOf(entries[k])
  {
    forall k, l | Committed(log, v, k, l) ensures k in entries && AddressOf(l) <= AddressOf(entries[k]) {
      if l.rec >= start {
        assert Replayed(log, v, start, final, k, l);
      } else if Replayed(log, v, start, final, k, entries[k]) {
        LowerRecord(log, k, l, entries[k]);
      } else if snapshot[k].rec >= start {
        assert Replayed(log, v, start, final, k, snapshot[k]);
      }
    }
  }

  function Prev(log: Log, l: Link): Link
    requires l.At? && l.rec in log && l.ptr < |log[l.rec].kpts|
  {
    log[l.rec].kpts[l.ptr].prev
  }

  predicate Descends(log: Log, linked: set<Link>, k: nat, l: Link)
    requires IsPointer(log, k, l)
  {
    || Prev(log, l).End?
    || (Prev(log, l) in linked && IsPointer(log, k, Prev(log, l)) && AddressOf(Prev(log, l)) < AddressOf(l))
  }

  predicate Covers(log: Log, k: nat, l: Link, m: Link)
    requires IsPointer(log, k, l) && IsPointer(log, k, m)
  {
    AddressOf(m) < AddressOf(l) ==> Prev(log, l).At? && AddressOf(m) <= AddressOf(Prev(log, l))
  }

  /** Chains as inserters leave them at any moment (RunRecovery.ImageChained): all key pointers of finished
      records are linked, and maybe some of unfinished ones; a linked key pointer's prev is the next lower
      linked one of its key. Key pointers still unlinked may hold anything. */
  ghost predicate Chained(log: Log, linked: set<Link>) {
    && (forall k: nat, l | IsPointer(log, k, l) && !log[l.rec].invalid :: l in linked)
    && (forall k: nat, l {:trigger Descends(log, linked, k, l)} | l in linked && IsPointer(log, k, l) ::
          Descends(log, linked, k, l))
    && (forall k: nat, l, m {:trigger Covers(log, k, l, m)}
          | l in linked && m in linked && IsPointer(log, k, l) && IsPointer(log, k, m) :: Covers(log, k, l, m))
  }

  /** The walk goes on: prev is a lower address. On a chain it always is. */
  predicate GoesOn(log: Log, k: nat, l: Link)
    requires IsPointer(log, k, l)
  {
    Prev(log, l).At? && AddressOf(Prev(log, l)) < AddressOf(l)
  }

  /** The key pointers a scan of the chain visits. */
  ghost function Walk(log: Log, k: nat, l: Link): (w: seq<Link>)
    decreases AddressOf(l)
  {
    if !IsPointer(log, k, l) then [] else [l] + if GoesOn(log, k, l) then Walk(log, k, Prev(log, l)) else []
  }

  lemma SameAddress(log: Log, k: nat, l: Link, m: Link)
    requires Laid(log) && IsPointer(log, k, l) && IsPointer(log, k, m) && AddressOf(l) == AddressOf(m)
    ensures l == m
  {
    if l.rec < m.rec { LowerRecord(log, k, l, m); }
    if m.rec < l.rec { LowerRecord(log, k, m, l); }
  }

  predicate Falls(w: seq<Link>) { forall i, j | 0 <= i < j < |w| :: AddressOf(w[j]) < AddressOf(w[i]) }

  /** From a linked key pointer the walk visits exactly the linked ones of its key at or below it, from high
      to low addresses. */
  lemma {:induction false} WalkExact(log: Log, linked: set<Link>, k: nat, l: Link)
    requires Laid(log) && Chained(log, linked) && l in linked && IsPointer(log, k, l)
    ensures forall m :: m in Walk(log, k, l) <==> m in linked && IsPointer(log, k, m) && AddressOf(m) <= AddressOf(l)
    ensures Falls(Walk(log, k, l))
    decreases AddressOf(l)
  {
    var p := Prev(log, l);
    assert Descends(log, linked, k, l);
    if p.At? { WalkExact(log, linked, k, p); }
    forall m | m in linked && IsPointer(log, k, m) && AddressOf(m) <= AddressOf(l) ensures m in Walk(log, k, l) {
      assert Covers(log, k, l, m);
      if AddressOf(m) == AddressOf(l) { SameAddress(log, k, l, m); }
    }
  }

  /** Replaying leaves the layout alone, and the chains too. */
  lemma StillChained(log: Log, linked: set<Link>, snapshot: Entries, log': Log, entries: Entries, start: nat,
                     final: nat, v: nat)
    requires Laid(log) && Chained(log, linked) && Replays(log, snapshot, log', entries, start, final, v)
    ensures Laid(log') && Chained(log', linked) && forall k: nat, l :: IsPointer(log', k, l) <==> IsPointer(log, k, l)
  {
    SameLayout(log, snapshot, log', entries, start, final, v);
    assert forall a | a in log' :: log'[a].kpts == log[a].kpts && (log[a].invalid ==> log'[a].invalid);
    forall k: nat, l | IsPointer(log', k, l) && !log'[l.rec].invalid ensures l in linked {
      assert IsPointer(log, k, l);
    }
    forall k: nat, l | l in linked && IsPointer(log', k, l) ensures Descends(log', linked, k, l) {
      assert IsPointer(log, k, l) && Descends(log, linked, k, l);
    }
    forall k: nat, l, m | l in linked && m in linked && IsPointer(log', k, l) && IsPointer(log', k, m)
      ensures Covers(log', k, l, m)
    {
      assert IsPointer(log, k, l) && IsPointer(log, k, m) && Covers(log, k, l, m);
    }
  }

  function Entry(entries: Entries, k: nat): Link { if k in entries then entries[k] else End }

  /** A scan of key k's chain touches l: it visits l and finds l's record valid. */
  ghost predicate Touches(log: Log, entries: Entries, k: nat, l: Link) {
    l in Walk(log, k, Entry(entries, k)) && l.At? && l.rec in log && !log[l.rec].invalid
  }

  /** Recovery is exact: after it, a scan of any key's chain touches, once each and from high to low
      addresses, exactly the key pointers of the finished records of the checkpoint's version or older;
      no later record is touched. */
  lemma RecoveredExactly(log: Log, linked: set<Link>, snapshot: Entries, log': Log, entries: Entries,
                         start: nat, final: nat, v: nat, k: nat)
    requires Laid(log) && Chained(log, linked) && Consistent(log, snapshot, start, final, v)
    requires Replays(log, snapshot, log', entries, start, final, v)
    ensures forall l :: Touches(log', entries, k, l) <==> Committed(log, v, k, l)
    ensures Falls(Walk(log', k, Entry(entries, k)))
  {
    StillChained(log, linked, snapshot, log', entries, start, final, v);
    EntriesHighest(log, snapshot, log', entries, start, final, v);
    if k in entries {
      assert entries[k] in linked;
      WalkExact(log', linked, k, entries[k]);
      forall l | l in Walk(log', k, entries[k]) && !log'[l.rec].invalid ensures Committed(log, v, k, l) {
        if l.rec >= final { LowerRecord(log, k, entries[k], l); }
      }
    }
  }
}
