/** From a run of the store to a scan after recovery. An execution is seen through three models at once:
    `Checkpoint` (what sessions insert and what the checkpoints record), `HashChain` (how far each insert
    has got with its chains) and `TailAllocator` (where the records lie). The crash may come at any moment
    at which an index and a log checkpoint of one version are complete, in the middle of any number of
    inserts. What is left is what the disk holds below final_address (`FlushedBytes`); `Recovery` works on
    that. */
module RunRecovery {
  import B = FlushedBytes
  import C = Checkpoint
  import H = HashChain
  import L = HybridLog
  import R = Recovery
  import T = TailAllocator

  // ---------------------------------------------------------------- chains of a run

  /** l stands for the chain address a: the key pointer at home there, or none. */
  ghost predicate Stands(s: H.State, a: nat, l: R.Link) {
    if l.At? then H.Home(s, a, l.rec, l.ptr) else forall b: nat, j: nat :: !H.Home(s, a, b, j)
  }

  /** Key pointer j of record r as the run has it. One that is not constructed yet may hold anything. */
  ghost predicate PointerImage(s: H.State, b: nat, j: nat, k: R.KeyPointer)
    requires b in s.records && j < |s.records[b].keys|
  {
    H.Slot(b, j) in s.m.kpts ==> k.key == s.records[b].keys[j] && Stands(s, s.m.kpts[H.Slot(b, j)].prev, k.prev)
  }

  ghost predicate RecordImage(s: H.State, b: nat, r: R.Record)
    requires b in s.records
  {
    && r.invalid == s.records[b].invalid && |r.kpts| == |s.records[b].keys|
    && forall j | 0 <= j < |r.kpts| :: PointerImage(s, b, j, r.kpts[j])
  }

  /** The log holds the records of state s. */
  ghost predicate Image(s: H.State, log: R.Log) {
    log.Keys == s.records.Keys && forall b | b in log :: RecordImage(s, b, log[b])
  }

  function Linked(s: H.State): set<R.Link> {
    set b, j | b in s.records && 0 <= j < |s.records[b].keys| && H.Slot(b, j) in s.m.linked :: R.At(b, j)
  }

  /** A key pointer constructed in the run has its record's key there. */
  lemma KeyAtHome(s: H.State, b: nat, j: nat)
    requires H.Homes(s) && b in s.records && j < |s.records[b].keys| && H.Slot(b, j) in s.m.kpts
    ensures s.m.kpts[H.Slot(b, j)].key == s.records[b].keys[j]
  {
    var a := H.Slot(b, j);
    assert H.Housed(s, a);
    var c: nat, k: nat :| H.Home(s, a, c, k) && s.m.kpts[a].key == s.records[c].keys[k];
    H.OneHome(s, a, b, j, c, k);
  }

  /** A linked key pointer of the log is on its key's chain, at its own address. */
  lemma LinkedIsOn(s: H.State, log: R.Log, k: nat, l: R.Link)
    requires H.Chained(s.m) && H.Homes(s) && Image(s, log) && R.IsPointer(log, k, l) && l in Linked(s)
    ensures H.On(s.m, k, R.AddressOf(l)) && R.AddressOf(l) == H.Slot(l.rec, l.ptr)
  {
    assert H.Slot(l.rec, l.ptr) in s.m.linked && H.Slot(l.rec, l.ptr) in s.m.kpts;
    assert RecordImage(s, l.rec, log[l.rec]);
    assert PointerImage(s, l.rec, l.ptr, log[l.rec].kpts[l.ptr]);
    KeyAtHome(s, l.rec, l.ptr);
  }

  /** Its prev is the next lower linked key pointer of the chain. */
  lemma PrevIsNext(s: H.State, log: R.Log, k: nat, l: R.Link)
    requires H.Chained(s.m) && H.Homes(s) && Image(s, log) && R.IsPointer(log, k, l) && l in Linked(s)
    ensures R.Descends(log, Linked(s), k, l)
    ensures var p := s.m.kpts[R.AddressOf(l)].prev;
            if p == H.NOWHERE then R.Prev(log, l).End? else R.Prev(log, l).At? && R.AddressOf(R.Prev(log, l)) == p
  {
    LinkedIsOn(s, log, k, l);
    assert RecordImage(s, l.rec, log[l.rec]) && PointerImage(s, l.rec, l.ptr, log[l.rec].kpts[l.ptr]);
    var p, q := s.m.kpts[R.AddressOf(l)].prev, R.Prev(log, l);
    assert H.Below(s.m, k, R.AddressOf(l), p);
    if p != H.NOWHERE {
      assert H.Housed(s, p);
      var b: nat, j: nat :| H.Home(s, p, b, j) && s.m.kpts[p].key == s.records[b].keys[j];
      H.OneHome(s, p, b, j, q.rec, q.ptr);
      assert RecordImage(s, b, log[b]) && PointerImage(s, b, j, log[b].kpts[j]);
    }
  }

  /** In every state of every run of the inserters, mid-insert or not, the log's chains are as recovery and
      scans need them. */
  lemma ImageChained(run: seq<H.State>, steps: seq<H.Step>, n: nat, i: nat, log: R.Log)
    requires H.IsRun(run, steps, n) && i < |run| && Image(run[i], log)
    ensures R.Chained(log, Linked(run[i]))
  {
    H.RunHomes(run, steps, n, i);
    var s, linked := run[i], Linked(run[i]);
    forall k: nat, l | R.IsPointer(log, k, l) && !log[l.rec].invalid ensures l in linked {
      assert RecordImage(s, l.rec, log[l.rec]);
      assert H.On(s.m, s.records[l.rec].keys[l.ptr], H.Slot(l.rec, l.ptr));
    }
    forall k: nat, l | l in linked && R.IsPointer(log, k, l) ensures R.Descends(log, linked, k, l) {
      PrevIsNext(s, log, k, l);
    }
    forall k: nat, l, m | l in linked && m in linked && R.IsPointer(log, k, l) && R.IsPointer(log, k, m)
      ensures R.Covers(log, k, l, m)
    {
      PrevIsNext(s, log, k, l);
      LinkedIsOn(s, log, k, l);
      LinkedIsOn(s, log, k, m);
      assert H.Below(s.m, k, R.AddressOf(l), s.m.kpts[R.AddressOf(l)].prev);
    }
  }

  // ---------------------------------------------------------------- records of a run

  predicate SameRecord(slot: C.Slot, r: R.Record) {
    && slot.Record? && r.version == slot.version && r.invalid == !slot.valid && |r.kpts| == |slot.keys|
    && (slot.valid ==> forall i | 0 <= i < |r.kpts| :: r.kpts[i].key == slot.keys[i])
  }

  /** Where slot i lies: block 0 is the cache line allocated when the log is created. */
  function Where(blocks: seq<T.Block>, i: nat): nat
    requires i + 1 < |blocks|
  {
    blocks[i + 1].addr
  }

  ghost predicate SlotPlaced(slots: seq<C.Slot>, blocks: seq<T.Block>, log: R.Log, i: nat)
    requires i < |slots| && |blocks| == |slots| + 1
  {
    slots[i].Record? ==>
      && Where(blocks, i) in log && SameRecord(slots[i], log[Where(blocks, i)])
      && log[Where(blocks, i)].size == blocks[i + 1].size
      && blocks[i + 1].size >= R.HEADER + R.KPT_SIZE * |log[Where(blocks, i)].kpts|
  }

  /** The log holds the records of the slots, each in the block allocated for it, and nothing else. */
  ghost predicate Placed(slots: seq<C.Slot>, blocks: seq<T.Block>, log: R.Log) {
    && |blocks| == |slots| + 1
    && (forall i | 0 <= i < |slots| :: SlotPlaced(slots, blocks, log, i))
    && (forall a | a in log :: exists i: nat :: i < |slots| && Where(blocks, i) == a && slots[i].Record?)
  }

  predicate Ascending(blocks: seq<T.Block>) {
    forall i, j | 0 <= i < j < |blocks| ::
      blocks[i].addr + blocks[i].size <= blocks[j].addr && blocks[i].addr < blocks[j].addr
  }

  /** x separates the first n slots from the others. */
  predicate Splits(blocks: seq<T.Block>, n: nat, x: nat) {
    && (forall i | 0 < i <= n && i < |blocks| :: blocks[i].addr < x)
    && (forall i | n < i < |blocks| :: x <= blocks[i].addr)
  }

  /** l is a key pointer for key k of the record in slot a. */
  predicate Holds(slots: seq<C.Slot>, blocks: seq<T.Block>, a: nat, k: nat, l: R.Link) {
    && l.At? && a < |slots| && a + 1 < |blocks| && Where(blocks, a) == l.rec && slots[a].Record?
    && l.ptr < |slots[a].keys| && slots[a].keys[l.ptr] == k
  }

  function PlacedEntries(snap: seq<C.Entry>, blocks: seq<T.Block>): R.Entries {
    map k: nat | k < |snap| && snap[k].Head? && snap[k].address + 1 < |blocks| ::
      R.At(Where(blocks, snap[k].address), snap[k].ptr)
  }

  lemma PlacedPointer(slots: seq<C.Slot>, blocks: seq<T.Block>, log: R.Log, snap: seq<C.Entry>,
                      start: nat, final: nat, v: nat, k: nat)
    requires Placed(slots, blocks, log) && C.Recoverable(slots, snap, start, final, v) && k < |snap| && snap[k].Head?
    ensures snap[k].address < |slots| && R.Committed(log, v, k, R.At(Where(blocks, snap[k].address), snap[k].ptr))
  {
    assert C.CopyOk(slots, start, v, k, snap[k]);
    assert SlotPlaced(slots, blocks, log, snap[k].address);
  }

  /** A committed key pointer of the log is one of a committed slot. */
  lemma CommittedSlot(slots: seq<C.Slot>, blocks: seq<T.Block>, log: R.Log, v: nat, k: nat, l: R.Link) returns (a: nat)
    requires Placed(slots, blocks, log) && R.Committed(log, v, k, l)
    ensures Holds(slots, blocks, a, k, l) && slots[a].version <= v
  {
    a :| a < |slots| && Where(blocks, a) == l.rec && slots[a].Record?;
    assert SlotPlaced(slots, blocks, log, a);
  }

  lemma PlacedReaches(slots: seq<C.Slot>, blocks: seq<T.Block>, log: R.Log, snap: seq<C.Entry>,
                      start: nat, final: nat, v: nat, x: nat, k: nat, l: R.Link)
    requires R.Laid(log) && Ascending(blocks) && Placed(slots, blocks, log)
    requires C.Recoverable(slots, snap, start, final, v)
    requires Splits(blocks, start, x) && R.Committed(log, v, k, l) && l.rec < x
    ensures k < |snap| && snap[k].Head? && snap[k].address < |slots|
    ensures R.AddressOf(l) <= R.AddressOf(R.At(Where(blocks, snap[k].address), snap[k].ptr))
  {
    var i := CommittedSlot(slots, blocks, log, v, k, l);
    assert i < start;
    assert C.CopyOk(slots, start, v, k, snap[k]) && C.Reaches(snap[k], i, l.ptr);
    PlacedPointer(slots, blocks, log, snap, start, final, v, k);
    if i < snap[k].address { R.LowerRecord(log, k, l, R.At(Where(blocks, snap[k].address), snap[k].ptr)); }
  }

  lemma RecordsConsistent(slots: seq<C.Slot>, blocks: seq<T.Block>, log: R.Log, snap: seq<C.Entry>,
                          start: nat, final: nat, v: nat, x: nat, y: nat, a: nat)
    requires Ascending(blocks) && Placed(slots, blocks, log) && C.Recoverable(slots, snap, start, final, v)
    requires Splits(blocks, start, x) && Splits(blocks, final, y) && a in log
    ensures a < x ==> log[a].version <= v
    ensures log[a].version <= v ==> !log[a].invalid && a < y
  {
    var i: nat :| i < |slots| && Where(blocks, i) == a && slots[i].Record?;
    assert SlotPlaced(slots, blocks, log, i);
  }

  /** What Checkpoint.CheckpointRecoverable proves of every run is what recovery needs, at whatever addresses
      the tail was reported when the two checkpoints were taken. */
  lemma CheckpointConsistent(slots: seq<C.Slot>, blocks: seq<T.Block>, log: R.Log, snap: seq<C.Entry>,
                             start: nat, final: nat, v: nat, x: nat, y: nat)
    requires R.Laid(log) && Ascending(blocks) && Placed(slots, blocks, log)
    requires C.Recoverable(slots, snap, start, final, v)
    requires Splits(blocks, start, x) && Splits(blocks, final, y) && x <= y
    ensures R.Consistent(log, PlacedEntries(snap, blocks), x, y, v)
  {
    forall a | a in log ensures (a < x ==> log[a].version <= v) && (log[a].version <= v ==> !log[a].invalid && a < y) {
      RecordsConsistent(slots, blocks, log, snap, start, final, v, x, y, a);
    }
    forall k: nat | k < |snap| && snap[k].Head?
      ensures snap[k].address < |slots| && R.Committed(log, v, k, R.At(Where(blocks, snap[k].address), snap[k].ptr))
    {
      PlacedPointer(slots, blocks, log, snap, start, final, v, k);
    }
    forall k: nat, l | R.Committed(log, v, k, l) && l.rec < x
      ensures k < |snap| && snap[k].Head? && snap[k].address < |slots|
      ensures R.AddressOf(l) <= R.AddressOf(R.At(Where(blocks, snap[k].address), snap[k].ptr))
    {
      PlacedReaches(slots, blocks, log, snap, start, final, v, x, k, l);
    }
  }

  // ---------------------------------------------------------------- an execution and a crash

  /** One execution through the three models. */
  datatype Execution = Execution(
    check: seq<C.State>, checkSteps: seq<C.Step>, chains: seq<H.State>, chainSteps: seq<H.Step>,
    tails: seq<T.State>, tailSteps: seq<T.Step>, threads: nat, keys: nat)

  /** Reservations come in multiples of 8 (Record::size pads). */
  ghost predicate Runs(x: Execution) {
    && C.IsRun(x.check, x.checkSteps, x.threads, x.keys) && H.IsRun(x.chains, x.chainSteps, x.threads)
    && T.IsRun(x.tails, x.tailSteps, x.threads)
    && forall i | 0 <= i < |x.tailSteps| && x.tailSteps[i].Reserve? :: T.Eights(x.tailSteps[i].slots)
  }

  /** The moment of the crash in each model, and the moments at which checkpoint_start_address and
      final_address were read off the tail. */
  datatype Cut = Cut(check: nat, chains: nat, tail: nat, start: nat, final: nat)

  ghost predicate CrashedAt(x: Execution, cut: Cut, log: R.Log) {
    && Runs(x) && cut.check < |x.check| && cut.chains < |x.chains| && cut.start <= cut.final <= cut.tail < |x.tails|
    && var s := x.check[cut.check];
       && s.index.progress.Done? && s.log.final.Tail? && s.index.version == s.log.version
       && |x.tails[cut.start].blocks| == s.index.start + 1 && |x.tails[cut.final].blocks| == s.log.final.address + 1
       && Placed(s.slots, x.tails[cut.tail].blocks, log) && Image(x.chains[cut.chains], log)
  }

  function TailAt(x: Execution, k: nat): nat
    requires k < |x.tails|
  {
    T.GetTailAddress(x.tails[k].word)
  }

  lemma InOnePage(a: nat, size: nat)
    requires a % R.PAGE_SIZE + size <= R.PAGE_SIZE
    ensures R.InPage(a, size)
  {
    forall page: nat | a < R.PageStart(page) ensures a + size <= R.PageStart(page) {
    }
  }

  lemma EightsAligned(x: nat)
    requires T.Eights(x)
    ensures R.Aligned(x)
  {
    assert x == R.Word(x / 8);
  }

  lemma BlocksLaid(x: Execution, k: nat, i: nat)
    requires Runs(x) && k < |x.tails| && i < |x.tails[k].blocks|
    ensures var b := x.tails[k].blocks[i];
            1 <= b.size && R.Aligned(b.addr) && R.Aligned(b.size) && R.InPage(b.addr, b.size)
    ensures T.Eights(x.tails[k].blocks[i].addr)
  {
    T.RunInv(x.tails, x.tailSteps, x.threads, k);
    T.BlocksAligned(x.tails, x.tailSteps, x.threads, k);
    var b := x.tails[k].blocks[i];
    assert b in x.tails[k].blocks;
    EightsAligned(b.addr);
    EightsAligned(b.size);
    InOnePage(b.addr, b.size);
  }

  lemma BlocksAscend(x: Execution, k: nat)
    requires Runs(x) && k < |x.tails|
    ensures Ascending(x.tails[k].blocks)
  {
    T.RunInv(x.tails, x.tailSteps, x.threads, k);
    forall i | 0 <= i < |x.tails[k].blocks| ensures 1 <= x.tails[k].blocks[i].size {
      BlocksLaid(x, k, i);
    }
  }

  lemma RecordsApart(slots: seq<C.Slot>, blocks: seq<T.Block>, log: R.Log, a: nat, b: nat)
    requires Placed(slots, blocks, log) && Ascending(blocks) && a in log && b in log
    ensures R.Apart(a, log[a], b)
  {
    var i: nat :| i < |slots| && Where(blocks, i) == a && slots[i].Record?;
    var j: nat :| j < |slots| && Where(blocks, j) == b && slots[j].Record?;
    assert SlotPlaced(slots, blocks, log, i);
  }

  /** The log is laid out as the allocator laid it out. */
  lemma LogLaid(x: Execution, k: nat, slots: seq<C.Slot>, log: R.Log)
    requires Runs(x) && k < |x.tails| && Placed(slots, x.tails[k].blocks, log)
    ensures R.Laid(log)
  {
    var blocks := x.tails[k].blocks;
    forall a | a in log ensures R.RecordLaid(a, log[a]) {
      var i: nat :| i < |slots| && Where(blocks, i) == a && slots[i].Record?;
      assert SlotPlaced(slots, blocks, log, i);
      BlocksLaid(x, k, i + 1);
    }
    BlocksAscend(x, k);
    forall a, b | a in log && b in log ensures R.Apart(a, log[a], b) {
      RecordsApart(slots, blocks, log, a, b);
    }
  }

  /** A tail reported when n slots had been allocated separates them from the others. */
  lemma TailSplits(x: Execution, k: nat, l: nat)
    requires Runs(x) && k <= l < |x.tails| && |x.tails[k].blocks| > 0
    ensures Splits(x.tails[l].blocks, |x.tails[k].blocks| - 1, TailAt(x, k))
  {
    var blocks, n, tail := x.tails[l].blocks, |x.tails[k].blocks| - 1, TailAt(x, k);
    forall i | 0 < i < |blocks| ensures if i <= n then blocks[i].addr < tail else tail <= blocks[i].addr {
      T.TailSeparates(x.tails, x.tailSteps, x.threads, k, l, i);
      BlocksLaid(x, l, i);
    }
  }

  /** The replay can start at a reported tail: it is a record boundary or the last byte of a full page. */
  lemma TailStartable(x: Execution, k: nat, l: nat, slots: seq<C.Slot>, log: R.Log)
    requires Runs(x) && k <= l < |x.tails| && |x.tails[k].blocks| > 0 && Placed(slots, x.tails[l].blocks, log)
    ensures R.Boundary(log, TailAt(x, k)) || R.Clamped(TailAt(x, k))
  {
    var blocks, tail := x.tails[l].blocks, TailAt(x, k);
    T.TailAligned(x.tails, x.tailSteps, x.threads, k);
    if !T.Clamped(tail) {
      EightsAligned(tail);
      TailSplits(x, k, l);
      forall a | a in log && a < tail ensures a + log[a].size <= tail {
        var i: nat :| i < |slots| && Where(blocks, i) == a && slots[i].Record?;
        assert SlotPlaced(slots, blocks, log, i);
        T.TailSeparates(x.tails, x.tailSteps, x.threads, k, l, i + 1);
      }
    }
  }

  /** What a crash leaves for recovery. */
  lemma CrashLeaves(x: Execution, cut: Cut, log: R.Log)
    requires CrashedAt(x, cut, log)
    ensures var s := x.check[cut.check];
            && R.Laid(log) && R.Chained(log, Linked(x.chains[cut.chains]))
            && TailAt(x, cut.start) <= TailAt(x, cut.final)
            && (R.Boundary(log, TailAt(x, cut.start)) || R.Clamped(TailAt(x, cut.start)))
            && R.Consistent(log, PlacedEntries(C.Snapshot(s), x.tails[cut.tail].blocks),
                            TailAt(x, cut.start), TailAt(x, cut.final), s.log.version)
  {
    var s, blocks := x.check[cut.check], x.tails[cut.tail].blocks;
    LogLaid(x, cut.tail, s.slots, log);
    BlocksAscend(x, cut.tail);
    ImageChained(x.chains, x.chainSteps, x.threads, cut.chains, log);
    TailStartable(x, cut.start, cut.tail, s.slots, log);
    TailSplits(x, cut.start, cut.tail);
    TailSplits(x, cut.final, cut.tail);
    T.TailGrows(x.tails, x.tailSteps, x.threads, cut.start, cut.final);
    C.CheckpointRecoverable(x.check, x.checkSteps, x.threads, x.keys, cut.check);
    CheckpointConsistent(s.slots, blocks, log, C.Snapshot(s), s.index.start, s.log.final.address, s.log.version,
                         TailAt(x, cut.start), TailAt(x, cut.final));
  }

  /** The record in slot a belongs to the log checkpoint. */
  ghost predicate Durable(s: C.State, a: nat)
    requires a < |s.slots| && s.slots[a].Record?
  {
    s.slots[a].version <= s.log.version
  }

  /** A slot is durable exactly if its insert is at or before the (serial_num, offset) its session is told
      to continue from. */
  lemma DurableIsPrefix(run: seq<C.State>, steps: seq<C.Step>, n: nat, keys: nat, i: nat, a: nat)
    requires C.IsRun(run, steps, n, keys) && i < |run| && a < |run[i].slots| && run[i].slots[a].Record?
    ensures run[i].slots[a].owner < |run[i].log.tokens|
    ensures var token := run[i].log.tokens[run[i].slots[a].owner];
            token.Written? ==> (Durable(run[i], a) <==> C.AtMost(run[i].slots[a].serial, token.serial))
  {
    C.RunInv(run, steps, n, keys, i);
    var s := run[i];
    var t := s.slots[a].owner;
    assert C.TokenOk(s.slots, s.log, t, s.sessions[t], s.log.tokens[t]);
  }

  /** Exactly the durable records' key pointers are touched, in descending order. */
  ghost predicate ScansDurable(s: C.State, blocks: seq<T.Block>, log: R.Log, entries: R.Entries, k: nat) {
    && (forall l ::
          R.Touches(log, entries, k, l) <==> exists a: nat :: Holds(s.slots, blocks, a, k, l) && Durable(s, a))
    && R.Falls(R.Walk(log, k, R.Entry(entries, k)))
  }

  /** The committed key pointers of the log are those of the durable slots. */
  lemma CommittedIsDurable(s: C.State, blocks: seq<T.Block>, log: R.Log, k: nat, l: R.Link)
    requires Placed(s.slots, blocks, log)
    requires forall a: nat | a < |s.slots| && s.slots[a].Record? && Durable(s, a) :: s.slots[a].valid
    ensures R.Committed(log, s.log.version, k, l) <==> exists a: nat :: Holds(s.slots, blocks, a, k, l) && Durable(s, a)
  {
    if R.Committed(log, s.log.version, k, l) {
      var a := CommittedSlot(s.slots, blocks, log, s.log.version, k, l);
    }
    if a: nat :| Holds(s.slots, blocks, a, k, l) && Durable(s, a) {
      assert SlotPlaced(s.slots, blocks, log, a);
    }
  }

  // ---------------------------------------------------------------- what is left of the log

  /** The log up to x. */
  function Below(log: R.Log, x: nat): R.Log { map a | a in log && a < x :: log[a] }

  lemma BelowLaid(log: R.Log, x: nat)
    requires R.Laid(log)
    ensures R.Laid(Below(log, x)) && forall y | R.Boundary(log, y) :: R.Boundary(Below(log, x), y)
  {
    var cut := Below(log, x);
    forall a | a in cut ensures R.RecordLaid(a, cut[a]) { assert R.RecordLaid(a, log[a]); }
    forall a, b | a in cut && b in cut ensures R.Apart(a, cut[a], b) { assert R.Apart(a, log[a], b); }
  }

  /** Chains run downwards, so a cut leaves them alone below it. */
  lemma BelowChained(log: R.Log, linked: set<R.Link>, x: nat)
    requires R.Laid(log) && R.Chained(log, linked)
    ensures R.Chained(Below(log, x), linked)
  {
    var cut := Below(log, x);
    assert forall k: nat, l | R.IsPointer(cut, k, l) :: R.IsPointer(log, k, l) && l.rec < x;
    forall k: nat, l | l in linked && R.IsPointer(cut, k, l) ensures R.Descends(cut, linked, k, l) {
      assert R.Descends(log, linked, k, l);
      var p := R.Prev(log, l);
      if p.At? && l.rec < p.rec { R.LowerRecord(log, k, l, p); }
    }
    forall k: nat, l, m | l in linked && m in linked && R.IsPointer(cut, k, l) && R.IsPointer(cut, k, m)
      ensures R.Covers(cut, k, l, m)
    {
      assert R.Covers(log, k, l, m);
    }
  }

  /** Nothing committed is lost. */
  lemma BelowConsistent(log: R.Log, snapshot: R.Entries, start: nat, final: nat, v: nat)
    requires R.Consistent(log, snapshot, start, final, v)
    ensures forall k: nat, l :: R.Committed(Below(log, final), v, k, l) <==> R.Committed(log, v, k, l)
    ensures R.Consistent(Below(log, final), snapshot, start, final, v)
  {
    assert forall k: nat, l :: R.Committed(Below(log, final), v, k, l) <==> R.Committed(log, v, k, l);
  }

  /** What CrashLeaves says holds of the cut as well. */
  lemma CutLeaves(x: Execution, cut: Cut, log: R.Log)
    requires CrashedAt(x, cut, log)
    ensures var s, image := x.check[cut.check], Below(log, TailAt(x, cut.final));
            && R.Laid(image) && R.Chained(image, Linked(x.chains[cut.chains]))
            && TailAt(x, cut.start) <= TailAt(x, cut.final)
            && (R.Boundary(image, TailAt(x, cut.start)) || R.Clamped(TailAt(x, cut.start)))
            && R.Consistent(image, PlacedEntries(C.Snapshot(s), x.tails[cut.tail].blocks),
                            TailAt(x, cut.start), TailAt(x, cut.final), s.log.version)
            && forall k: nat, l :: R.Committed(image, s.log.version, k, l) <==> R.Committed(log, s.log.version, k, l)
  {
    var s := x.check[cut.check];
    CrashLeaves(x, cut, log);
    BelowLaid(log, TailAt(x, cut.final));
    BelowChained(log, Linked(x.chains[cut.chains]), TailAt(x, cut.final));
    BelowConsistent(log, PlacedEntries(C.Snapshot(s), x.tails[cut.tail].blocks),
                    TailAt(x, cut.start), TailAt(x, cut.final), s.log.version);
  }

  // ---------------------------------------------------------------- recovery

  /** After the replay a scan of key k touches exactly the key pointers of the durable records. */
  lemma ReplayRecovers(x: Execution, cut: Cut, log: R.Log, log': R.Log, entries: R.Entries, k: nat)
    requires CrashedAt(x, cut, log)
    requires R.Replays(Below(log, TailAt(x, cut.final)),
                       PlacedEntries(C.Snapshot(x.check[cut.check]), x.tails[cut.tail].blocks), log', entries,
                       TailAt(x, cut.start), TailAt(x, cut.final), x.check[cut.check].log.version)
    ensures ScansDurable(x.check[cut.check], x.tails[cut.tail].blocks, log', entries, k)
  {
    var s, blocks := x.check[cut.check], x.tails[cut.tail].blocks;
    CutLeaves(x, cut, log);
    R.RecoveredExactly(Below(log, TailAt(x, cut.final)), Linked(x.chains[cut.chains]),
                       PlacedEntries(C.Snapshot(s), blocks), log', entries,
                       TailAt(x, cut.start), TailAt(x, cut.final), s.log.version, k);
    C.CheckpointRecoverable(x.check, x.checkSteps, x.threads, x.keys, cut.check);
    forall l
      ensures R.Touches(log', entries, k, l) <==> exists a: nat :: Holds(s.slots, blocks, a, k, l) && Durable(s, a)
    {
      CommittedIsDurable(s, blocks, log, k, l);
    }
  }

  /** Take any execution and any crash at which an index and a log checkpoint of one version are complete.
      Recover, given the log below final_address and the checkpoints' own data, succeeds, and afterwards a
      scan of any key touches exactly the key pointers of the durable records. The one excluded case is a
      start address clamped to the last byte of the page the log ends with (Recovery.StartableExact). */
  method RecoverRun(ghost x: Execution, ghost cut: Cut, ghost log: R.Log, store: R.Store, snapshot: R.Entries,
                    start: nat, final: nat, indexVersion: nat, logVersion: nat) returns (status: R.Status)
    requires CrashedAt(x, cut, log) && store.log == Below(log, final)
    requires snapshot == PlacedEntries(C.Snapshot(x.check[cut.check]), x.tails[cut.tail].blocks)
    requires start == TailAt(x, cut.start) && final == TailAt(x, cut.final)
    requires indexVersion == x.check[cut.check].index.version && logVersion == x.check[cut.check].log.version
    requires !(R.Clamped(start) && final == start + 1)
    modifies store
    ensures status.Ok?
    ensures forall k: nat :: ScansDurable(x.check[cut.check], x.tails[cut.tail].blocks, store.log, store.entries, k)
  {
    CutLeaves(x, cut, log);
    status := store.Recover(indexVersion, logVersion, snapshot, start, final);
    forall k: nat ensures ScansDurable(x.check[cut.check], x.tails[cut.tail].blocks, store.log, store.entries, k) {
      ReplayRecovers(x, cut, log, store.log, store.entries, k);
    }
  }

  // ---------------------------------------------------------------- from the disk

  type Cells = map<nat, int>

  /** Byte i of what lies at a. */
  function ByteAt(cells: Cells, a: nat, i: nat): int { L.At(cells, a + i) }

  ghost predicate SameCells(b: Cells, c: Cells, a: nat, size: nat) {
    forall i: nat | i < size :: ByteAt(b, a, i) == ByteAt(c, a, i)
  }

  /** Reading a record at an address depends on the record's own bytes only (RecordLayout.RecordRoundTrip). */
  ghost predicate Local(decode: (Cells, nat) -> R.Record) {
    forall b: Cells, c: Cells, a: nat | SameCells(b, c, a, decode(b, a).size) :: decode(c, a) == decode(b, a)
  }

  /** The log as read from memory at its records' addresses. */
  ghost predicate Reads(cells: Cells, log: R.Log, decode: (Cells, nat) -> R.Record) {
    forall a | a in log :: decode(cells, a) == log[a]
  }

  /** What reading the disk at those addresses gives, up to x. */
  ghost function DiskImage(disk: Cells, log: R.Log, x: nat, decode: (Cells, nat) -> R.Record): R.Log {
    map a | a in log && a < x :: decode(disk, a)
  }

  /** A record stays on one page. */
  lemma SamePage(a: nat, size: nat, i: nat)
    requires R.InPage(a, size) && i < size
    ensures L.Page(a + i) == L.Page(a)
  {
    assert a < R.PageStart(L.Page(a) + 1);
  }

  /** Once flushed_until_address has reached final_address, reading the disk up to there gives the log. */
  lemma DiskHoldsLog(run: seq<B.State>, steps: seq<B.Step>, n: nat, b: nat, k: nat, log: R.Log, x: nat,
                     decode: (Cells, nat) -> R.Record)
    requires B.IsRun(run, steps, n, b) && k < |run| && x <= run[k].f.flushed * L.PAGE_SIZE
    requires R.Laid(log) && Local(decode) && Reads(run[k].h.log, log, decode)
    ensures DiskImage(run[k].disk, log, x, decode) == Below(log, x)
  {
    forall a | a in log && a < x ensures decode(run[k].disk, a) == log[a] {
      assert R.RecordLaid(a, log[a]);
      forall i: nat | i < log[a].size ensures ByteAt(run[k].h.log, a, i) == ByteAt(run[k].disk, a, i) {
        SamePage(a, log[a].size, i);
        B.FlushedOnDisk(run, steps, n, b, k, a + i);
      }
      assert SameCells(run[k].h.log, run[k].disk, a, decode(run[k].h.log, a).size);
    }
  }

  /** End to end: recovery from the disk of a crashed store. WAIT_FLUSH has waited for flushed_until_address. */
  method RecoverDisk(ghost x: Execution, ghost cut: Cut, ghost log: R.Log, ghost run: seq<B.State>,
                     ghost steps: seq<B.Step>, ghost b: nat, ghost k: nat, ghost decode: (Cells, nat) -> R.Record,
                     store: R.Store, snapshot: R.Entries, start: nat, final: nat, indexVersion: nat, logVersion: nat)
    returns (status: R.Status)
    requires CrashedAt(x, cut, log) && B.IsRun(run, steps, x.threads, b) && k < |run|
    requires Local(decode) && Reads(run[k].h.log, log, decode)
    requires final <= run[k].f.flushed * L.PAGE_SIZE && store.log == DiskImage(run[k].disk, log, final, decode)
    requires snapshot == PlacedEntries(C.Snapshot(x.check[cut.check]), x.tails[cut.tail].blocks)
    requires start == TailAt(x, cut.start) && final == TailAt(x, cut.final)
    requires indexVersion == x.check[cut.check].index.version && logVersion == x.check[cut.check].log.version
    requires !(R.Clamped(start) && final == start + 1)
    modifies store
    ensures status.Ok?
    ensures forall l: nat :: ScansDurable(x.check[cut.check], x.tails[cut.tail].blocks, store.log, store.entries, l)
  {
    CrashLeaves(x, cut, log);
    DiskHoldsLog(run, steps, x.threads, b, k, log, final, decode);
    status := RecoverRun(x, cut, log, store, snapshot, start, final, indexVersion, logVersion);
  }
}
