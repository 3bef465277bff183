/** Growing the hash table (src/core/fishstore.h: SplitHashTableBuckets, TraceBackForOtherChainStart,
    AddHashEntry, GrowIndex; src/core/key_hash.h).

    Every old bucket chain is rewritten into two new ones. A key pointer chain is not cut: the new
    entries point into it, at or below where the old one did. Insertion is held off while buckets are
    split, so the log does not change. */
module IndexSplit {

  const ENTRIES: nat := 7
  const CHUNK: nat := 16384

  /** The 48 address bits and the 14 tag bits of a key hash. */
  datatype Hash = Hash(address: nat, tag: nat)

  /** address & (size - 1), for a size that is a power of two. */
  function Idx(h: Hash, size: nat): nat
    requires size > 0
  {
    h.address % size
  }

  /** The bucket depends on the address bits alone: addresses below the size are their own bucket, and addresses
      a multiple of the size apart share theirs. */
  lemma IdxExactly(a: nat, t: nat, size: nat, m: nat)
    requires size > 0
    ensures Idx(Hash(a, t), size) < size && (a < size ==> Idx(Hash(a, t), size) == a)
    ensures Idx(Hash(a + m * size, t), size) == Idx(Hash(a, 0), size)
  {
    var k := (a + m * size) / size - a / size - m;
    assert size * k == a % size - (a + m * size) % size;
    assert k >= 1 ==> size * k >= size;
    assert k <= -1 ==> size * k + size <= 0;
  }

  datatype KeyPointer = KeyPointer(hash: Hash, prev: nat)

  type Log = map<nat, KeyPointer>

  /** Chains point to lower addresses. */
  ghost predicate Descending(log: Log) { forall a | a in log :: log[a].prev < a }

  /** Whatever lies in memory (at or above head) can be read. */
  ghost predicate Readable(log: Log, head: nat) { forall a | a in log :: log[a].prev >= head ==> log[a].prev in log }

  datatype Entry = Unused | Entry(address: nat, tag: nat)

  /** The addresses a walk from a passes. */
  ghost function Chain(log: Log, a: nat): set<nat>
    requires Descending(log)
    decreases a
  {
    if a in log then {a} + Chain(log, log[a].prev) else {}
  }

  /** 0 or 1: the half of the doubled table a hash belongs to. */
  function Side(h: Hash, size: nat): nat
    requires size > 0
  {
    if Idx(h, 2 * size) < size then 0 else 1
  }

  ghost predicate Finds(log: Log, e: Entry, h: Hash, a: nat)
    requires Descending(log)
  {
    e.Entry? && e.tag == h.tag && a in Chain(log, e.address)
  }

  /** The key pointers of hash h found through the entries of a bucket, down to begin. */
  ghost function Lookup(log: Log, es: seq<Entry>, h: Hash, begin: nat): set<nat>
    requires Descending(log)
  {
    set a | a in log && begin <= a && log[a].hash == h && exists i :: 0 <= i < |es| && Finds(log, es[i], h, a)
  }

  predicate UniqueTags(es: seq<Entry>) {
    forall i, j | 0 <= i < j < |es| && es[i].Entry? && es[j].Entry? :: es[i].tag != es[j].tag
  }

  predicate HasTag(es: seq<Entry>, tag: nat) { exists i :: 0 <= i < |es| && es[i].Entry? && es[i].tag == tag }

  // ---------------------------------------------------------------- one entry

  /** TraceBackForOtherChainStart: skip the key pointers of one side, as far as they are in memory. */
  method TraceBack(log: Log, size: nat, from: nat, min: nat, side: nat) returns (r: nat)
    requires Descending(log) && Readable(log, min) && size > 0 && (from >= min ==> from in log)
    ensures r < min || (r in log && Side(log[r].hash, size) != side)
    ensures Chain(log, r) <= Chain(log, from)
    ensures forall a | a in Chain(log, from) && a !in Chain(log, r) :: a in log && Side(log[a].hash, size) == side
  {
    r := from;
    while r >= min
      invariant r >= min ==> r in log
      invariant Chain(log, r) <= Chain(log, from)
      invariant forall a | a in Chain(log, from) && a !in Chain(log, r) :: a in log && Side(log[a].hash, size) == side
    {
      if Side(log[r].hash, size) != side {
        return;
      }
      r := log[r].prev;
    }
  }

  /** What rewriting entry e must leave on the two sides. */
  ghost predicate EntrySplit(log: Log, size: nat, begin: nat, e: Entry, on0: seq<Entry>, on1: seq<Entry>)
    requires Descending(log) && size > 0
  {
    && |on0| <= 1 && |on1| <= 1
    && (forall x | x in on0 || x in on1 :: x.Entry? && e.Entry? && x.tag == e.tag)
    && forall h: Hash, a | a in log && begin <= a && log[a].hash == h ::
         Finds(log, e, h, a) <==>
           exists i :: 0 <= i < |Half(on0, on1, Side(h, size))| && Finds(log, Half(on0, on1, Side(h, size))[i], h, a)
  }

  function Half(on0: seq<Entry>, on1: seq<Entry>, side: nat): seq<Entry> { if side == 0 then on0 else on1 }

  /** The entries of one side begin with key pointers of that side, as far as memory tells. */
  predicate Sided(log: Log, size: nat, head: nat, es: seq<Entry>, side: nat)
    requires size > 0
  {
    forall x | x in es && x.Entry? && x.address >= head :: x.address in log && Side(log[x.address].hash, size) == side
  }

  /** A new entry is the old one, or leads into the part of the log that is still there. */
  predicate Fresh(begin: nat, olds: seq<Entry>, es: seq<Entry>) {
    forall x | x in es :: x in olds || (x.Entry? && begin <= x.address)
  }

  lemma ChainBelow(log: Log, a: nat, x: nat)
    requires Descending(log) && x in Chain(log, a)
    ensures x <= a && x in log
    decreases a
  {
    if a in log && x != a { ChainBelow(log, log[a].prev, x); }
  }

  /** Cutting the chain at `other` loses nothing of the other side. */
  lemma CutKeeps(log: Log, size: nat, begin: nat, e: Entry, other: nat, side: nat)
    requires Descending(log) && size > 0 && e.Entry? && e.address in log && Side(log[e.address].hash, size) == side
    requires side < 2
    requires Chain(log, other) <= Chain(log, log[e.address].prev)
    requires forall a | a in Chain(log, log[e.address].prev) && a !in Chain(log, other) ::
               a in log && Side(log[a].hash, size) == side
    ensures var rest := if other >= begin then [Entry(other, e.tag)] else [];
            EntrySplit(log, size, begin, e, if side == 0 then [e] else rest, if side == 0 then rest else [e])
  {
    var rest := if other >= begin then [Entry(other, e.tag)] else [];
    var on0, on1 := if side == 0 then [e] else rest, if side == 0 then rest else [e];
    forall h: Hash, a | a in log && begin <= a && log[a].hash == h
      ensures Finds(log, e, h, a) <==>
              exists i :: 0 <= i < |Half(on0, on1, Side(h, size))| && Finds(log, Half(on0, on1, Side(h, size))[i], h, a)
    {
      var half := Half(on0, on1, Side(h, size));
      if Side(h, size) == side {
        assert half == [e];
        if Finds(log, e, h, a) { assert Finds(log, half[0], h, a); }
      } else {
        assert half == rest;
        if Finds(log, e, h, a) {
          assert a != e.address && a in Chain(log, other);
          ChainBelow(log, other, a);
          assert Finds(log, half[0], h, a);
        }
      }
    }
  }

  lemma BothKeep(log: Log, size: nat, begin: nat, e: Entry)
    requires Descending(log) && size > 0 && e.Entry?
    ensures EntrySplit(log, size, begin, e, [e], [e])
  {
    forall h: Hash, a | a in log && begin <= a && log[a].hash == h
      ensures Finds(log, e, h, a) <==>
              exists i :: 0 <= i < |Half([e], [e], Side(h, size))| && Finds(log, Half([e], [e], Side(h, size))[i], h, a)
    {
      assert Half([e], [e], Side(h, size))[0] == e;
    }
  }

  /** The body of the loop over old entries. */
  method SplitEntry(log: Log, size: nat, head: nat, begin: nat, e: Entry) returns (on0: seq<Entry>, on1: seq<Entry>)
    requires Descending(log) && Readable(log, head) && size > 0 && (e.Entry? && e.address >= head ==> e.address in log)
    ensures EntrySplit(log, size, begin, e, on0, on1)
    ensures Sided(log, size, head, on0, 0) && Sided(log, size, head, on1, 1)
    ensures Fresh(begin, [e], on0) && Fresh(begin, [e], on1)
  {
    if e.Unused? {
      on0, on1 := [], [];
    } else if e.address < head {
      // Can't tell which new bucket the entry should go into.
      on0, on1 := [e], [e];
      BothKeep(log, size, begin, e);
    } else {
      var kpt := log[e.address];
      var side := if Idx(kpt.hash, 2 * size) < size then 0 else 1;
      var other := TraceBack(log, size, kpt.prev, head, side);
      var rest := if other >= begin then [Entry(other, e.tag)] else [];
      CutKeeps(log, size, begin, e, other, side);
      if side == 0 {
        on0, on1 := [e], rest;
      } else {
        on0, on1 := rest, [e];
      }
    }
  }

  // ---------------------------------------------------------------- one bucket

  /** A bucket followed by its overflow buckets. */
  type Buckets = seq<seq<Entry>>

  function Flat(b: Buckets): seq<Entry> { if b == [] then [] else Flat(b[..|b| - 1]) + b[|b| - 1] }

  /** A bucket chain being filled: every bucket but the last is full. */
  predicate Filling(b: Buckets) {
    |b| > 0 && |b[|b| - 1]| <= ENTRIES && forall i | 0 <= i < |b| - 1 :: |b[i]| == ENTRIES
  }

  /** AddHashEntry: into the last bucket, or into a fresh overflow bucket if that is full. */
  function AddHashEntry(b: Buckets, e: Entry): (r: Buckets)
    requires Filling(b)
    ensures Filling(r) && Flat(r) == Flat(b) + [e]
  {
    var last := b[|b| - 1];
    if |last| == ENTRIES then
      assert (b + [[e]])[..|b|] == b;
      b + [[e]]
    else
      assert (b[..|b| - 1] + [last + [e]])[..|b| - 1] == b[..|b| - 1];
      assert Flat(b) == Flat(b[..|b| - 1]) + last;
      b[..|b| - 1] + [last + [e]]
  }

  method AddAll(b: Buckets, es: seq<Entry>) returns (r: Buckets)
    requires Filling(b) && |es| <= 1
    ensures Filling(r) && Flat(r) == Flat(b) + es
  {
    r := if es == [] then b else AddHashEntry(b, es[0]);
  }

  /** Both new chains together find what the old entries found, and keep tags unique. */
  ghost predicate BucketSplit(log: Log, size: nat, begin: nat, olds: seq<Entry>, new0: seq<Entry>, new1: seq<Entry>)
    requires Descending(log) && size > 0
  {
    && (forall h: Hash :: Lookup(log, Half(new0, new1, Side(h, size)), h, begin) == Lookup(log, olds, h, begin))
    && (forall tag | HasTag(new0, tag) || HasTag(new1, tag) :: HasTag(olds, tag))
    && (UniqueTags(olds) ==> UniqueTags(new0) && UniqueTags(new1))
  }

  lemma LookupAppend(log: Log, es: seq<Entry>, more: seq<Entry>, h: Hash, begin: nat)
    requires Descending(log)
    ensures Lookup(log, es + more, h, begin) == Lookup(log, es, h, begin) + Lookup(log, more, h, begin)
  {
    var all := es + more;
    forall a | a in Lookup(log, es, h, begin) ensures a in Lookup(log, all, h, begin) {
      var i :| 0 <= i < |es| && Finds(log, es[i], h, a);
      assert Finds(log, all[i], h, a);
    }
    forall a | a in Lookup(log, more, h, begin) ensures a in Lookup(log, all, h, begin) {
      var i :| 0 <= i < |more| && Finds(log, more[i], h, a);
      assert Finds(log, all[|es| + i], h, a);
    }
    forall a | a in Lookup(log, all, h, begin) ensures a in Lookup(log, es, h, begin) + Lookup(log, more, h, begin) {
      var i :| 0 <= i < |all| && Finds(log, all[i], h, a);
      if i < |es| { assert Finds(log, es[i], h, a); } else { assert Finds(log, more[i - |es|], h, a); }
    }
  }

  lemma EntryLookup(log: Log, size: nat, begin: nat, e: Entry, on0: seq<Entry>, on1: seq<Entry>, h: Hash)
    requires Descending(log) && size > 0 && EntrySplit(log, size, begin, e, on0, on1)
    ensures Lookup(log, Half(on0, on1, Side(h, size)), h, begin) == Lookup(log, [e], h, begin)
  {
    var half := Half(on0, on1, Side(h, size));
    forall a | a in log && begin <= a && log[a].hash == h
      ensures a in Lookup(log, half, h, begin) <==> a in Lookup(log, [e], h, begin)
    {
      assert [e][0] == e;
    }
  }

  lemma TagsAppend(es: seq<Entry>, on: seq<Entry>, olds: seq<Entry>, e: Entry)
    requires |on| <= 1 && (forall x | x in on :: x.Entry? && e.Entry? && x.tag == e.tag)
    requires (forall tag | HasTag(es, tag) :: HasTag(olds, tag)) && (UniqueTags(olds) ==> UniqueTags(es))
    ensures forall tag | HasTag(es + on, tag) :: HasTag(olds + [e], tag)
    ensures UniqueTags(olds + [e]) ==> UniqueTags(es + on)
  {
    var all, news := olds + [e], es + on;
    forall tag | HasTag(news, tag) ensures HasTag(all, tag) {
      var i :| 0 <= i < |news| && news[i].Entry? && news[i].tag == tag;
      if i < |es| {
        assert HasTag(es, tag);
        var j :| 0 <= j < |olds| && olds[j].Entry? && olds[j].tag == tag;
        assert all[j] == olds[j];
      } else {
        assert news[i] in on && all[|olds|] == e;
      }
    }
    if UniqueTags(all) {
      assert forall i, j | 0 <= i < j < |olds| :: all[i] == olds[i] && all[j] == olds[j];
      forall i, j | 0 <= i < j < |news| && news[i].Entry? && news[j].Entry? ensures news[i].tag != news[j].tag {
        if j >= |es| {
          assert i < |es| && news[j] in on;
          assert HasTag(es, es[i].tag);
          var m :| 0 <= m < |olds| && olds[m].Entry? && olds[m].tag == es[i].tag;
          assert all[m] == olds[m] && all[|olds|] == e;
        } else {
          assert news[i] == es[i] && news[j] == es[j];
        }
      }
    }
  }

  lemma AddEntry(log: Log, size: nat, begin: nat, olds: seq<Entry>, new0: seq<Entry>, new1: seq<Entry>, e: Entry,
                 on0: seq<Entry>, on1: seq<Entry>)
    requires Descending(log) && size > 0 && BucketSplit(log, size, begin, olds, new0, new1)
    requires EntrySplit(log, size, begin, e, on0, on1)
    ensures BucketSplit(log, size, begin, olds + [e], new0 + on0, new1 + on1)
  {
    forall h: Hash
      ensures Lookup(log, Half(new0 + on0, new1 + on1, Side(h, size)), h, begin) == Lookup(log, olds + [e], h, begin)
    {
      LookupAppend(log, olds, [e], h, begin);
      LookupAppend(log, Half(new0, new1, Side(h, size)), Half(on0, on1, Side(h, size)), h, begin);
      EntryLookup(log, size, begin, e, on0, on1, h);
    }
    TagsAppend(new0, on0, olds, e);
    TagsAppend(new1, on1, olds, e);
  }

  lemma SidedAppend(log: Log, size: nat, head: nat, begin: nat, olds: seq<Entry>, e: Entry, es: seq<Entry>,
                    on: seq<Entry>, side: nat)
    requires size > 0 && Sided(log, size, head, es, side) && Sided(log, size, head, on, side)
    requires Fresh(begin, olds, es) && Fresh(begin, [e], on) && e in olds
    ensures Sided(log, size, head, es + on, side) && Fresh(begin, olds, es + on)
  {
  }

  lemma FlatAppend(b: Buckets, i: nat)
    requires i < |b|
    ensures Flat(b[..i + 1]) == Flat(b[..i]) + b[i]
  {
    assert b[..i + 1][..i] == b[..i];
  }

  /** One old bucket chain. */
  method SplitBucket(log: Log, size: nat, head: nat, begin: nat, source: Buckets) returns (new0: Buckets, new1: Buckets)
    requires Descending(log) && Readable(log, head) && size > 0
    requires forall e | e in Flat(source) :: e.Entry? && e.address >= head ==> e.address in log
    ensures Filling(new0) && Filling(new1) && BucketSplit(log, size, begin, Flat(source), Flat(new0), Flat(new1))
    ensures Sided(log, size, head, Flat(new0), 0) && Sided(log, size, head, Flat(new1), 1)
    ensures Fresh(begin, Flat(source), Flat(new0)) && Fresh(begin, Flat(source), Flat(new1))
  {
    new0, new1 := [[]], [[]];
    var i := 0;
    assert Flat(source[..0]) == [] && Flat([[]]) == [];
    while i < |source|
      invariant 0 <= i <= |source| && Filling(new0) && Filling(new1)
      invariant BucketSplit(log, size, begin, Flat(source[..i]), Flat(new0), Flat(new1))
      invariant Sided(log, size, head, Flat(new0), 0) && Sided(log, size, head, Flat(new1), 1)
      invariant Fresh(begin, Flat(source), Flat(new0)) && Fresh(begin, Flat(source), Flat(new1))
    {
      var j := 0;
      FlatAppend(source, i);
      FlatPrefix(source, i + 1);
      assert Flat(source[..i]) + source[i][..0] == Flat(source[..i]);
      while j < |source[i]|
        invariant 0 <= j <= |source[i]| && Filling(new0) && Filling(new1)
        invariant BucketSplit(log, size, begin, Flat(source[..i]) + source[i][..j], Flat(new0), Flat(new1))
        invariant Sided(log, size, head, Flat(new0), 0) && Sided(log, size, head, Flat(new1), 1)
        invariant Fresh(begin, Flat(source), Flat(new0)) && Fresh(begin, Flat(source), Flat(new1))
      {
        var e := source[i][j];
        assert e in Flat(source[..i + 1]);
        var on0, on1 := SplitEntry(log, size, head, begin, e);
        AddEntry(log, size, begin, Flat(source[..i]) + source[i][..j], Flat(new0), Flat(new1), e, on0, on1);
        assert Flat(source[..i]) + source[i][..j + 1] == Flat(source[..i]) + source[i][..j] + [e];
        assert e in Flat(source);
        SidedAppend(log, size, head, begin, Flat(source), e, Flat(new0), on0, 0);
        SidedAppend(log, size, head, begin, Flat(source), e, Flat(new1), on1, 1);
        new0 := AddAll(new0, on0);
        new1 := AddAll(new1, on1);
        j := j + 1;
      }
      assert source[i][..j] == source[i];
      i := i + 1;
    }
    assert source[..i] == source;
  }

  lemma {:induction false} FlatPrefix(b: Buckets, i: nat)
    requires i <= |b|
    ensures forall e | e in Flat(b[..i]) :: e in Flat(b)
    decreases |b|
  {
    if i == |b| {
      assert b[..i] == b;
    } else {
      var c := b[..|b| - 1];
      assert c[..i] == b[..i];
      FlatPrefix(c, i);
    }
  }

  // ---------------------------------------------------------------- the table

  type Table = seq<Buckets>

  /** GrowIndex: one chunk per CHUNK buckets, at least one. */
  function NumChunks(size: nat): nat { if size / CHUNK >= 1 then size / CHUNK else 1 }

  /** The last chunk may hold more or fewer buckets. */
  function UpperBound(size: nat, chunk: nat): int {
    if chunk + 1 < NumChunks(size) then CHUNK else size - chunk * CHUNK
  }

  predicate InChunk(size: nat, chunk: nat, b: nat) { chunk * CHUNK <= b < chunk * CHUNK + UpperBound(size, chunk) }

  /** The chunks handed out by the shared counter share out the buckets: whichever threads take them,
      every bucket is split by exactly one. */
  lemma ChunksPartition(size: nat, b: nat)
    requires b < size
    ensures exists chunk: nat :: chunk < NumChunks(size) && InChunk(size, chunk, b)
    ensures forall c: nat, d: nat
              | c < NumChunks(size) && d < NumChunks(size) && InChunk(size, c, b) && InChunk(size, d, b) :: c == d
  {
    var n := NumChunks(size);
    var chunk := if b / CHUNK < n then b / CHUNK else n - 1;
    assert InChunk(size, chunk, b);
  }

  lemma ChunkBounds(size: nat, chunk: nat)
    requires size > 0 && chunk < NumChunks(size)
    ensures 0 <= UpperBound(size, chunk) && chunk * CHUNK + UpperBound(size, chunk) <= size
  {
  }

  ghost predicate TableOk(log: Log, head: nat, table: Table) {
    && Descending(log) && Readable(log, head)
    && forall b, e | 0 <= b < |table| && e in Flat(table[b]) :: e.Entry? && e.address >= head ==> e.address in log
  }

  /** Bucket b of the old table has been split into its two new chains. */
  ghost predicate Split(log: Log, begin: nat, source: Table, target: Table, b: nat)
    requires Descending(log) && |target| == 2 * |source|
  {
    b < |source| ==>
      && Filling(target[b]) && Filling(target[|source| + b])
      && BucketSplit(log, |source|, begin, Flat(source[b]), Flat(target[b]), Flat(target[|source| + b]))
  }

  predicate Same(source: Table, target: Table, target': Table, b: nat)
    requires |target| == |target'| == 2 * |source|
  {
    b < |source| ==> target'[b] == target[b] && target'[|source| + b] == target[|source| + b]
  }

  /** SplitHashTableBuckets on one chunk: it writes the new chains of its own buckets only. */
  method SplitChunk(log: Log, head: nat, begin: nat, source: Table, target: array<Buckets>, chunk: nat)
    requires |source| > 0 && target.Length == 2 * |source| && TableOk(log, head, source) && chunk < NumChunks(|source|)
    modifies target
    ensures forall b: nat | b < |source| && InChunk(|source|, chunk, b) :: Split(log, begin, source, target[..], b)
    ensures forall b: nat | b < |source| && !InChunk(|source|, chunk, b) :: Same(source, old(target[..]), target[..], b)
  {
    var size := |source|;
    var first, upper := chunk * CHUNK, UpperBound(size, chunk);
    ChunkBounds(size, chunk);
    var idx := 0;
    while idx < upper
      invariant 0 <= idx <= upper
      invariant forall b: nat {:trigger Split(log, begin, source, target[..], b)} | first <= b < first + idx ::
                  Split(log, begin, source, target[..], b)
      invariant forall b: nat {:trigger Same(source, old(target[..]), target[..], b)} | b < first || first + idx <= b ::
                  Same(source, old(target[..]), target[..], b)
    {
      var b := first + idx;
      ghost var before := target[..];
      var new0, new1 := SplitBucket(log, size, head, begin, source[b]);
      target[b] := new0;
      target[size + b] := new1;
      forall c: nat | c < size && c != b ensures Same(source, before, target[..], c) {
      }
      forall c: nat | first <= c < b ensures Split(log, begin, source, target[..], c) {
        assert Split(log, begin, source, before, c) && Same(source, before, target[..], c);
      }
      forall c: nat | c < first || first + idx + 1 <= c ensures Same(source, old(target[..]), target[..], c) {
        assert Same(source, old(target[..]), before, c) && (c < size ==> Same(source, before, target[..], c));
      }
      idx := idx + 1;
    }
  }

  /** All chunks, as one thread would take them. */
  method SplitTable(log: Log, head: nat, begin: nat, source: Table) returns (target: array<Buckets>)
    requires |source| > 0 && TableOk(log, head, source)
    ensures fresh(target) && target.Length == 2 * |source|
    ensures forall b: nat | b < |source| :: Split(log, begin, source, target[..], b)
  {
    var size := |source|;
    target := new Buckets[2 * size];
    var chunk := 0;
    while chunk < NumChunks(size)
      invariant 0 <= chunk <= NumChunks(size)
      invariant forall b: nat, c: nat | b < size && c < chunk && InChunk(size, c, b) ::
                  Split(log, begin, source, target[..], b)
    {
      ghost var before := target[..];
      SplitChunk(log, head, begin, source, target, chunk);
      forall b: nat, c: nat | b < size && c < chunk && InChunk(size, c, b)
        ensures Split(log, begin, source, target[..], b)
      {
        ChunksPartition(size, b);
        assert Split(log, begin, source, before, b) && Same(source, before, target[..], b);
      }
      chunk := chunk + 1;
    }
    forall b: nat | b < size ensures Split(log, begin, source, target[..], b) {
      ChunksPartition(size, b);
      var c: nat :| c < NumChunks(size) && InChunk(size, c, b);
    }
  }

  /** In a table of twice the size a hash keeps its bucket or moves up by the old size. */
  lemma TwiceTheSize(h: Hash, size: nat)
    requires size > 0
    ensures Idx(h, size) < size && Idx(h, 2 * size) == Idx(h, size) + (if Side(h, size) == 1 then size else 0)
  {
    InDouble(h.address, size, 2 * size);
  }

  lemma InDouble(x: nat, d: nat, m: nat)
    requires d > 0 && m == 2 * d
    ensures x % m == if x % m < d then x % d else x % d + d
  {
    var q, r := Divide(x, m);
    DoubleRemainder(x, d, m, q, r);
  }

  lemma Divide(x: nat, m: nat) returns (q: nat, r: nat)
    requires m > 0
    ensures x == m * q + r && r < m && r == x % m
  {
    q, r := x / m, x % m;
  }

  lemma DoubleRemainder(x: nat, d: nat, m: nat, q: nat, r: nat)
    requires d > 0 && m == 2 * d && r < m && x == m * q + r
    ensures x % d == if r < d then r else r - d
  {
    assert m * q == d * (2 * q);
    if r < d {
      Remainder(x, d, 2 * q, r);
    } else {
      assert d * (2 * q + 1) == d * (2 * q) + d;
      Remainder(x, d, 2 * q + 1, r - d);
    }
  }

  lemma Remainder(x: nat, d: nat, q: nat, r: nat)
    requires d > 0 && r < d && x == d * q + r
    ensures x % d == r
  {
    var k := x / d - q;
    assert d * k == r - x % d;
    assert k >= 1 ==> d * k >= d;
    assert k <= -1 ==> d * k + d <= 0;
  }

  /** Growing keeps lookup: for every hash, the key pointers found at or above begin are the same before
      and after, and tags stay unique in every new bucket chain. */
  lemma GrowKeepsLookup(log: Log, head: nat, begin: nat, source: Table, target: Table, h: Hash)
    requires |source| > 0 && |target| == 2 * |source| && TableOk(log, head, source)
    requires forall b: nat | b < |source| :: Split(log, begin, source, target, b)
    ensures Idx(h, |source|) < |source| && Idx(h, |target|) < |target|
    ensures Lookup(log, Flat(target[Idx(h, |target|)]), h, begin)
            == Lookup(log, Flat(source[Idx(h, |source|)]), h, begin)
    ensures UniqueTags(Flat(source[Idx(h, |source|)])) ==> UniqueTags(Flat(target[Idx(h, |target|)]))
  {
    var b := Idx(h, |source|);
    TwiceTheSize(h, |source|);
    assert Split(log, begin, source, target, b);
    assert Idx(h, |target|) == b + (if Side(h, |source|) == 1 then |source| else 0);
    assert Half(Flat(target[b]), Flat(target[|source| + b]), Side(h, |source|)) == Flat(target[Idx(h, |target|)]);
  }
}
