/** Index scan against full scan on a quiescent log in memory (src/core/fishstore.h: InternalScan,
    TraceBackForMatch, InternalFullScan, and the key pointers BatchInsert makes).

    The log, its layout and its chains are those of `Recovery`; a row adds what the record's payload
    says to each PSF and what each of its key pointers was made for. */
module ChainScan {
  import R = Recovery

  /** One key pointer: the PSF and the value it stands for. */
  datatype Pointer = Pointer(psf: nat, value: nat)

  /** `results` holds the non-null values of the PSFs on the payload. */
  datatype Row = Row(results: map<nat, nat>, pointers: seq<Pointer>)

  type Rows = map<nat, Row>

  datatype Query = Query(psf: nat, value: nat, start: nat, end: nat)

  /** Rows describe the records of the log. */
  ghost predicate Described(log: R.Log, rows: Rows) {
    forall a | a in log :: a in rows && |rows[a].pointers| == |log[a].kpts|
  }

  /** check(kpt) and check(payload). */
  predicate PointerHit(log: R.Log, rows: Rows, q: Query, l: R.Link) {
    && l.At? && l.rec in log && l.rec in rows && l.ptr < |rows[l.rec].pointers|
    && !log[l.rec].invalid && rows[l.rec].pointers[l.ptr] == Pointer(q.psf, q.value)
  }

  predicate RecordHit(log: R.Log, rows: Rows, q: Query, a: nat) {
    && a in log && a in rows && !log[a].invalid
    && q.psf in rows[a].results && rows[a].results[q.psf] == q.value
  }

  /** The records the index scan is to touch, in chain order. */
  ghost function Touched(log: R.Log, rows: Rows, q: Query, w: seq<R.Link>): seq<nat> {
    if w == [] then []
    else
      (if PointerHit(log, rows, q, w[0]) && q.start <= R.AddressOf(w[0]) <= q.end then [w[0].rec] else [])
      + Touched(log, rows, q, w[1..])
  }

  /** The chain of the query is in memory. */
  ghost predicate OnChain(log: R.Log, linked: set<R.Link>, k: nat, head: nat, l: R.Link) {
    l.At? ==> l in linked && R.IsPointer(log, k, l) && R.AddressOf(l) >= head
  }

  ghost predicate InMemory(log: R.Log, head: nat) {
    head > 0 && forall k: nat, l | R.IsPointer(log, k, l) :: R.AddressOf(l) >= head
  }

  // ---------------------------------------------------------------- index scan

  lemma Step(log: R.Log, linked: set<R.Link>, rows: Rows, q: Query, k: nat, l: R.Link)
    requires R.Chained(log, linked) && l in linked && R.IsPointer(log, k, l)
    ensures var p := R.Prev(log, l);
            && (p.At? ==> p in linked && R.IsPointer(log, k, p) && R.AddressOf(p) < R.AddressOf(l))
            && Touched(log, rows, q, R.Walk(log, k, l)) ==
                 (if PointerHit(log, rows, q, l) && q.start <= R.AddressOf(l) <= q.end then [l.rec] else [])
                 + Touched(log, rows, q, R.Walk(log, k, p))
  {
    assert R.Descends(log, linked, k, l);
    var w := R.Walk(log, k, l);
    assert w[0] == l && w[1..] == R.Walk(log, k, R.Prev(log, l));
  }

  /** TraceBackForMatch: the next matching key pointer of a valid record. */
  method TraceBackForMatch(log: R.Log, ghost linked: set<R.Link>, rows: Rows, q: Query, ghost k: nat, from: R.Link,
                           min: nat) returns (r: R.Link)
    requires R.Chained(log, linked) && Described(log, rows) && InMemory(log, min) && OnChain(log, linked, k, min, from)
    ensures OnChain(log, linked, k, min, r) && (r.At? ==> PointerHit(log, rows, q, r))
    ensures R.AddressOf(r) <= R.AddressOf(from)
    ensures Touched(log, rows, q, R.Walk(log, k, r)) == Touched(log, rows, q, R.Walk(log, k, from))
  {
    r := from;
    while r.At? && R.AddressOf(r) >= min
      invariant OnChain(log, linked, k, min, r) && R.AddressOf(r) <= R.AddressOf(from)
      invariant Touched(log, rows, q, R.Walk(log, k, r)) == Touched(log, rows, q, R.Walk(log, k, from))
      decreases R.AddressOf(r)
    {
      if !log[r.rec].invalid && rows[r.rec].pointers[r.ptr] == Pointer(q.psf, q.value) {
        return;
      }
      Step(log, linked, rows, q, k, r);
      r := log[r.rec].kpts[r.ptr].prev;
    }
  }

  /** A walk that starts below the range touches nothing. */
  lemma {:induction false} BelowRange(log: R.Log, linked: set<R.Link>, rows: Rows, q: Query, k: nat, l: R.Link)
    requires R.Chained(log, linked) && (R.IsPointer(log, k, l) ==> l in linked) && R.AddressOf(l) < q.start
    ensures Touched(log, rows, q, R.Walk(log, k, l)) == []
    decreases R.AddressOf(l)
  {
    if R.IsPointer(log, k, l) {
      Step(log, linked, rows, q, k, l);
      if R.Prev(log, l).At? { BelowRange(log, linked, rows, q, k, R.Prev(log, l)); }
    }
  }

  /** The first loop of InternalScan: skip what lies above the range. */
  method SkipAbove(log: R.Log, ghost linked: set<R.Link>, rows: Rows, q: Query, ghost k: nat, entry: R.Link,
                   head: nat) returns (r: R.Link)
    requires R.Chained(log, linked) && Described(log, rows) && InMemory(log, head)
    requires OnChain(log, linked, k, head, entry)
    ensures OnChain(log, linked, k, head, r) && (r.At? ==> R.AddressOf(r) <= q.end)
    ensures Touched(log, rows, q, R.Walk(log, k, r)) == Touched(log, rows, q, R.Walk(log, k, entry))
  {
    r := entry;
    while r.At? && R.AddressOf(r) > q.end && R.AddressOf(r) >= head
      invariant OnChain(log, linked, k, head, r)
      invariant Touched(log, rows, q, R.Walk(log, k, r)) == Touched(log, rows, q, R.Walk(log, k, entry))
      decreases R.AddressOf(r)
    {
      Step(log, linked, rows, q, k, r);
      r := log[r.rec].kpts[r.ptr].prev;
    }
  }

  /** The second loop: hop from match to match down to the start of the range. */
  method TouchMatches(log: R.Log, ghost linked: set<R.Link>, rows: Rows, q: Query, ghost k: nat, from: R.Link,
                      head: nat) returns (touched: seq<nat>)
    requires R.Chained(log, linked) && Described(log, rows) && InMemory(log, head)
    requires OnChain(log, linked, k, head, from)
    requires from.At? ==> PointerHit(log, rows, q, from) && R.AddressOf(from) <= q.end
    ensures touched == Touched(log, rows, q, R.Walk(log, k, from))
  {
    var address := from;
    touched := [];
    while address.At? && R.AddressOf(address) >= q.start && R.AddressOf(address) >= head
      invariant OnChain(log, linked, k, head, address)
      invariant address.At? ==> PointerHit(log, rows, q, address) && R.AddressOf(address) <= q.end
      invariant touched + Touched(log, rows, q, R.Walk(log, k, address)) == Touched(log, rows, q, R.Walk(log, k, from))
      decreases R.AddressOf(address)
    {
      Step(log, linked, rows, q, k, address);
      ghost var before, rest := touched, Touched(log, rows, q, R.Walk(log, k, R.Prev(log, address)));
      touched := touched + [address.rec];
      assert before + ([address.rec] + rest) == touched + rest;
      address := TraceBackForMatch(log, linked, rows, q, k, log[address.rec].kpts[address.ptr].prev, head);
    }
    if address.At? { BelowRange(log, linked, rows, q, k, address); }
  }

  /** InternalScan on a chain that lies in memory. */
  method InternalScan(log: R.Log, ghost linked: set<R.Link>, rows: Rows, q: Query, ghost k: nat, entry: R.Link,
                      head: nat) returns (touched: seq<nat>)
    requires R.Chained(log, linked) && Described(log, rows) && InMemory(log, head)
    requires OnChain(log, linked, k, head, entry) && q.start < q.end
    ensures touched == Touched(log, rows, q, R.Walk(log, k, entry))
  {
    var address := SkipAbove(log, linked, rows, q, k, entry, head);
    if address.At? && R.AddressOf(address) >= head {
      if log[address.rec].invalid || rows[address.rec].pointers[address.ptr] != Pointer(q.psf, q.value) {
        Step(log, linked, rows, q, k, address);
        address := TraceBackForMatch(log, linked, rows, q, k, log[address.rec].kpts[address.ptr].prev, head);
      }
    }
    touched := TouchMatches(log, linked, rows, q, k, address, head);
  }

  // ---------------------------------------------------------------- full scan

  /** The valid records from lo to hi that the query selects, each once and in ascending order. */
  ghost predicate Exactly(log: R.Log, rows: Rows, q: Query, lo: nat, hi: int, touched: seq<nat>) {
    && (forall a | a in touched :: lo <= a <= hi && q.start <= a && RecordHit(log, rows, q, a))
    && (forall a | a in log && lo <= a <= hi && q.start <= a && RecordHit(log, rows, q, a) :: a in touched)
    && (forall i, j | 0 <= i < j < |touched| :: touched[i] < touched[j])
  }

  lemma Append(log: R.Log, rows: Rows, q: Query, lo: nat, address: nat, hi: nat, touched: seq<nat>)
    requires Exactly(log, rows, q, lo, address - 1, touched) && lo <= address <= hi && address in log
    requires forall a | a in log :: !(address < a <= hi)
    ensures Exactly(log, rows, q, lo, hi,
                    if q.start <= address && RecordHit(log, rows, q, address) then touched + [address] else touched)
  {
    assert forall i | 0 <= i < |touched| :: touched[i] in touched;
  }

  /** The records of one page up to `last`, header by header. */
  method ScanPage(log: R.Log, rows: Rows, q: Query, first: nat, last: nat) returns (touched: seq<nat>)
    requires R.Laid(log) && R.Boundary(log, first) && Described(log, rows) && first <= last
    ensures Exactly(log, rows, q, first, last, touched)
  {
    touched := [];
    var address := first;
    while address <= last
      invariant first <= address && R.Boundary(log, address) && Exactly(log, rows, q, first, address - 1, touched)
      invariant forall a | a in log && last < a :: address <= a
      decreases last + 1 - address
    {
      if address !in log {
        R.AfterNull(log, address);
        address := address + R.HEADER;
      } else {
        R.AfterRecord(log, address);
        Append(log, rows, q, first, address, address + log[address].size - 1, touched);
        var row := rows[address];
        if address >= q.start && !log[address].invalid && q.psf in row.results && row.results[q.psf] == q.value {
          touched := touched + [address];
        }
        address := address + log[address].size;
      }
    }
  }

  /** The same as a set, each record once: what pages scanned in any order add up to. */
  ghost predicate Covers(log: R.Log, rows: Rows, q: Query, lo: nat, hi: int, touched: seq<nat>) {
    && (forall a | a in touched :: lo <= a <= hi && q.start <= a && RecordHit(log, rows, q, a))
    && (forall a | a in log && lo <= a <= hi && q.start <= a && RecordHit(log, rows, q, a) :: a in touched)
    && (forall i, j | 0 <= i < j < |touched| :: touched[i] != touched[j])
  }

  lemma AddPage(log: R.Log, rows: Rows, q: Query, lo: nat, mid: nat, hi: int, above: seq<nat>, page: seq<nat>)
    requires Covers(log, rows, q, mid + 1, hi, above) && Exactly(log, rows, q, lo, mid, page) && lo <= mid <= hi
    ensures Covers(log, rows, q, lo, hi, above + page)
  {
    var all := above + page;
    forall i, j | 0 <= i < j < |all| ensures all[i] != all[j] {
      if i < |above| { assert all[i] in above; }
      if j >= |above| { assert all[j] in page; }
    }
  }

  /** InternalFullScan on a log that lies in memory: page by page from the end of the range down. */
  method InternalFullScan(log: R.Log, rows: Rows, q: Query, begin: nat, head: nat,
                          tail: nat) returns (touched: seq<nat>)
    requires R.Laid(log) && Described(log, rows) && q.start < q.end && begin <= tail
    requires head / R.PAGE_SIZE <= begin / R.PAGE_SIZE
    requires forall a | a in log :: begin <= a < tail
    ensures Covers(log, rows, q, 0, if q.end < tail then q.end else tail, touched)
  {
    var top := if q.end < tail then q.end else tail;
    var last, page := top, top / R.PAGE_SIZE;
    touched := [];
    PageOf(top);
    PageOf(q.start);
    PageOf(begin);
    while true
      invariant q.start / R.PAGE_SIZE <= page || begin / R.PAGE_SIZE <= page
      invariant R.PageStart(page) <= last <= top && (last == top || last + 1 == R.PageStart(page + 1))
      invariant Covers(log, rows, q, last + 1, top, touched)
      decreases page
    {
      R.PageBoundary(log, page);
      var found := ScanPage(log, rows, q, R.PageStart(page), last);
      AddPage(log, rows, q, R.PageStart(page), last, top, touched, found);
      touched := touched + found;
      if page == q.start / R.PAGE_SIZE || page == begin / R.PAGE_SIZE {
        return;
      }
      page := page - 1;
      last := R.PageStart(page) + (R.PAGE_SIZE - 1);
    }
  }

  lemma PageOf(x: nat)
    ensures R.PageStart(x / R.PAGE_SIZE) <= x < R.PageStart(x / R.PAGE_SIZE + 1)
  {
  }

  // ---------------------------------------------------------------- the two agree

  predicate InRange(q: Query, x: nat) { q.start <= x <= q.end }

  /** Key pointer i of the valid record at a was made for the query's PSF and value. */
  predicate Matches(log: R.Log, rows: Rows, q: Query, a: nat, i: nat) { PointerHit(log, rows, q, R.At(a, i)) }

  /** Key k is the query's: all its key pointers are on k's chain. */
  ghost predicate Keyed(log: R.Log, rows: Rows, q: Query, k: nat) {
    forall a, i: nat | Matches(log, rows, q, a, i) :: R.IsPointer(log, k, R.At(a, i))
  }

  /** The record at a was inserted with the PSF registered: if it is valid, it has one key pointer for the
      query exactly if the query selects it. */
  ghost predicate Registered(log: R.Log, rows: Rows, q: Query, a: nat) {
    && (RecordHit(log, rows, q, a) <==> exists i: nat :: Matches(log, rows, q, a, i))
    && (forall i: nat, j: nat | Matches(log, rows, q, a, i) && Matches(log, rows, q, a, j) :: i == j)
  }

  /** The records a scan of the range may come across. */
  ghost predicate Near(log: R.Log, rows: Rows, q: Query, a: nat) {
    a in log && (InRange(q, a) || exists i: nat :: Matches(log, rows, q, a, i) && InRange(q, R.AddressOf(R.At(a, i))))
  }

  ghost predicate RegisteredOver(log: R.Log, rows: Rows, q: Query) {
    forall a | Near(log, rows, q, a) :: Registered(log, rows, q, a)
  }

  /** The entry is at or above every finished key pointer of its key. */
  ghost predicate Heads(log: R.Log, linked: set<R.Link>, k: nat, entry: R.Link) {
    && (entry.At? ==> entry in linked && R.IsPointer(log, k, entry))
    && forall l | R.IsPointer(log, k, l) && !log[l.rec].invalid :: entry.At? && R.AddressOf(l) <= R.AddressOf(entry)
  }

  ghost predicate HitAt(log: R.Log, rows: Rows, q: Query, w: seq<R.Link>, i: nat, a: nat) {
    i < |w| && PointerHit(log, rows, q, w[i]) && InRange(q, R.AddressOf(w[i])) && w[i].rec == a
  }

  lemma {:induction false} TouchedAre(log: R.Log, rows: Rows, q: Query, w: seq<R.Link>, a: nat)
    ensures a in Touched(log, rows, q, w) <==> exists i: nat :: HitAt(log, rows, q, w, i, a)
  {
    if w != [] {
      TouchedAre(log, rows, q, w[1..], a);
      var first := if w[0].At? && HitAt(log, rows, q, w, 0, w[0].rec) then [w[0].rec] else [];
      assert Touched(log, rows, q, w) == first + Touched(log, rows, q, w[1..]);
      if i: nat :| HitAt(log, rows, q, w[1..], i, a) {
        assert w[i + 1] == w[1..][i] && HitAt(log, rows, q, w, i + 1, a);
      }
      if i: nat :| HitAt(log, rows, q, w, i, a) {
        if i > 0 { assert w[1..][i - 1] == w[i] && HitAt(log, rows, q, w[1..], i - 1, a); }
      }
    }
  }

  /** The index scan touches the valid records with a key pointer for the query whose own address is in the
      range. */
  lemma IndexTouches(log: R.Log, linked: set<R.Link>, rows: Rows, q: Query, k: nat, entry: R.Link, a: nat)
    requires R.Laid(log) && R.Chained(log, linked) && Heads(log, linked, k, entry) && Keyed(log, rows, q, k)
    requires Described(log, rows)
    ensures a in Touched(log, rows, q, R.Walk(log, k, entry)) <==>
              exists i: nat :: Matches(log, rows, q, a, i) && InRange(q, R.AddressOf(R.At(a, i)))
  {
    var w := R.Walk(log, k, entry);
    TouchedAre(log, rows, q, w, a);
    if entry.At? { R.WalkExact(log, linked, k, entry); }
    if i: nat :| Matches(log, rows, q, a, i) && InRange(q, R.AddressOf(R.At(a, i))) {
      assert R.IsPointer(log, k, R.At(a, i)) && R.At(a, i) in w;
      var j: nat :| j < |w| && w[j] == R.At(a, i);
      assert HitAt(log, rows, q, w, j, a);
    }
    if j: nat :| HitAt(log, rows, q, w, j, a) {
      assert w[j] == R.At(a, w[j].ptr) && Matches(log, rows, q, a, w[j].ptr);
    }
  }

  /** On a quiescent log in memory, for a record that either scan may come across: if it has no key pointer
      for the query, neither scan touches it; if it has, the index scan goes by the key pointer's address
      and the full scan by the record's. */
  lemma ScansCompare(log: R.Log, linked: set<R.Link>, rows: Rows, q: Query, k: nat, entry: R.Link, tail: nat,
                     full: seq<nat>, a: nat)
    requires R.Laid(log) && R.Chained(log, linked) && Heads(log, linked, k, entry) && Keyed(log, rows, q, k)
    requires Described(log, rows) && (forall x | x in log :: x < tail) && RegisteredOver(log, rows, q)
    requires Covers(log, rows, q, 0, if q.end < tail then q.end else tail, full)
    ensures var index := Touched(log, rows, q, R.Walk(log, k, entry));
            && (a in full <==> InRange(q, a) && exists i: nat :: Matches(log, rows, q, a, i))
            && (a in index ==> RecordHit(log, rows, q, a))
            && forall i: nat | Matches(log, rows, q, a, i) ::
                 && (a in full <==> InRange(q, a))
                 && (a in index <==> InRange(q, R.AddressOf(R.At(a, i))))
  {
    IndexTouches(log, linked, rows, q, k, entry, a);
    if a in log && InRange(q, a) { assert Near(log, rows, q, a) && Registered(log, rows, q, a); }
    forall i: nat | Matches(log, rows, q, a, i) && InRange(q, R.AddressOf(R.At(a, i)))
      ensures Registered(log, rows, q, a)
    {
      assert Near(log, rows, q, a);
    }
  }

  /** Exactly one of a matching key pointer and its record is in the range. */
  predicate Cut(log: R.Log, rows: Rows, q: Query, a: nat, i: nat) {
    && Matches(log, rows, q, a, i)
    && (a < q.start <= R.AddressOf(R.At(a, i)) <= q.end || q.start <= a <= q.end < R.AddressOf(R.At(a, i)))
  }

  /** The two scans touch the same records exactly if neither end of the range cuts a selected record
      between its address and its key pointer's. */
  lemma ScansAgree(log: R.Log, linked: set<R.Link>, rows: Rows, q: Query, k: nat, entry: R.Link, tail: nat,
                   full: seq<nat>)
    requires R.Laid(log) && R.Chained(log, linked) && Heads(log, linked, k, entry) && Keyed(log, rows, q, k)
    requires Described(log, rows) && (forall x | x in log :: x < tail) && RegisteredOver(log, rows, q)
    requires Covers(log, rows, q, 0, if q.end < tail then q.end else tail, full)
    ensures (forall a: nat :: a in full <==> a in Touched(log, rows, q, R.Walk(log, k, entry))) <==>
              forall a: nat, i: nat :: !Cut(log, rows, q, a, i)
  {
    var index := Touched(log, rows, q, R.Walk(log, k, entry));
    forall a: nat ensures (a in full <==> a in index) <==> forall i: nat :: !Cut(log, rows, q, a, i) {
      ScansCompare(log, linked, rows, q, k, entry, tail, full, a);
      IndexTouches(log, linked, rows, q, k, entry, a);
      if i: nat :| Matches(log, rows, q, a, i) {
        assert Cut(log, rows, q, a, i) <==> !(InRange(q, a) <==> InRange(q, R.AddressOf(R.At(a, i))));
      }
    }
    if a: nat, i: nat :| Cut(log, rows, q, a, i) {
      assert !(a in full <==> a in index);
    }
  }

  /** So they agree on a range that starts on a record boundary and reaches beyond all key pointers, as the
      default range from 0 to kMaxAddress does. */
  lemma WholeRangeAgrees(log: R.Log, linked: set<R.Link>, rows: Rows, q: Query, k: nat, entry: R.Link, tail: nat,
                         full: seq<nat>, a: nat)
    requires R.Laid(log) && R.Chained(log, linked) && Heads(log, linked, k, entry) && Keyed(log, rows, q, k)
    requires Described(log, rows) && (forall x | x in log :: x < tail) && RegisteredOver(log, rows, q)
    requires Covers(log, rows, q, 0, if q.end < tail then q.end else tail, full)
    requires R.Boundary(log, q.start) && forall x | x in log :: x + log[x].size <= q.end
    ensures a in full <==> a in Touched(log, rows, q, R.Walk(log, k, entry))
  {
    forall x, i: nat ensures !Cut(log, rows, q, x, i) {
      if Matches(log, rows, q, x, i) { assert R.RecordLaid(x, log[x]); }
    }
    ScansAgree(log, linked, rows, q, k, entry, tail, full);
  }

  /** A log of one record, at 64, with one key pointer, at 72. */
  function OneLog(): R.Log { map[64 := R.Record(0, false, [R.KeyPointer(0, R.End)], 24)] }

  function OneRow(): Rows { map[64 := Row(map[5 := 1], [Pointer(5, 1)])] }

  lemma OneRecord(q: Query)
    requires q.psf == 5 && q.value == 1
    ensures R.Laid(OneLog()) && R.Chained(OneLog(), {R.At(64, 0)}) && Heads(OneLog(), {R.At(64, 0)}, 0, R.At(64, 0))
    ensures Described(OneLog(), OneRow()) && RegisteredOver(OneLog(), OneRow(), q)
    ensures R.Walk(OneLog(), 0, R.At(64, 0)) == [R.At(64, 0)]
  {
    assert R.Word(8) == 64 && R.Word(3) == 24;
    assert R.RecordLaid(64, OneLog()[64]);
    assert Matches(OneLog(), OneRow(), q, 64, 0) && RecordHit(OneLog(), OneRow(), q, 64);
  }

  /** Where they differ: a range ending at 64 lets only the full scan touch that record, and a range starting
      at 72 only the index scan. */
  lemma ScansDiffer()
    ensures var walk, upper, lower := R.Walk(OneLog(), 0, R.At(64, 0)), Query(5, 1, 0, 64), Query(5, 1, 72, 100);
            && RegisteredOver(OneLog(), OneRow(), upper) && RegisteredOver(OneLog(), OneRow(), lower)
            && Covers(OneLog(), OneRow(), upper, 0, 64, [64]) && Touched(OneLog(), OneRow(), upper, walk) == []
            && Covers(OneLog(), OneRow(), lower, 0, 88, []) && Touched(OneLog(), OneRow(), lower, walk) == [64]
  {
    OneRecord(Query(5, 1, 0, 64));
    OneRecord(Query(5, 1, 72, 100));
  }

  predicate Falling(t: seq<nat>) { forall i, j | 0 <= i < j < |t| :: t[j] < t[i] }

  /** The index scan touches each record once, from high to low addresses. */
  lemma {:induction false} TouchedOnce(log: R.Log, rows: Rows, q: Query, k: nat, w: seq<R.Link>)
    requires R.Laid(log) && Described(log, rows) && RegisteredOver(log, rows, q) && R.Falls(w)
    requires forall l | l in w :: R.IsPointer(log, k, l)
    ensures Falling(Touched(log, rows, q, w))
  {
    if w != [] {
      var t, rest := Touched(log, rows, q, w), Touched(log, rows, q, w[1..]);
      TouchedOnce(log, rows, q, k, w[1..]);
      assert Falling(rest);
      if t == rest {
        assert Falling(t);
      } else {
        forall a | a in rest ensures a < w[0].rec {
          TouchedAre(log, rows, q, w[1..], a);
          var i: nat :| HitAt(log, rows, q, w[1..], i, a);
          Higher(log, rows, q, k, w[0], w[i + 1]);
        }
        assert t == [w[0].rec] + rest;
        forall i, j | 0 <= i < j < |t| ensures t[j] < t[i] {
          assert t[j] == rest[j - 1] && rest[j - 1] in rest;
          if i > 0 { assert t[i] == rest[i - 1]; }
        }
      }
    }
  }

  lemma Higher(log: R.Log, rows: Rows, q: Query, k: nat, l: R.Link, m: R.Link)
    requires R.Laid(log) && Described(log, rows) && RegisteredOver(log, rows, q)
    requires R.IsPointer(log, k, l) && R.IsPointer(log, k, m) && R.AddressOf(m) < R.AddressOf(l)
    requires PointerHit(log, rows, q, l) && PointerHit(log, rows, q, m) && InRange(q, R.AddressOf(l))
    ensures m.rec < l.rec
  {
    assert Matches(log, rows, q, l.rec, l.ptr) && Near(log, rows, q, l.rec);
    assert m.rec == l.rec ==> Matches(log, rows, q, l.rec, m.ptr);
    if l.rec < m.rec { R.LowerRecord(log, k, l, m); }
  }
}
