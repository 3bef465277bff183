/** Threading records onto hash chains (InternalInsert in src/core/fishstore.h over KeyPointer in
    src/core/record.h). A record at `base` has a header word, then 16-byte key pointers at
    base + 8, base + 24, ... Each key pointer goes onto the chain of its key (a bucket entry) with
    the "CAS trick": swap the bucket entry while that keeps addresses descending, otherwise walk to
    the first key pointer above whose predecessor is below and swap that one's prev_address.

    One atomic access per step, any number of inserters and of scanners walking chains beside them. */
module HashChain {

  /** Address::kInvalidAddress: the end of every chain. */
  const NOWHERE: nat := 1
  const HEADER: nat := 8
  const KPT_SIZE: nat := 16

  datatype KeyPointer = KeyPointer(key: nat, prev: nat)

  /** `linked` is history: the key pointers whose linking compare-and-swap has succeeded. */
  datatype Memory = Memory(heads: map<nat, nat>, kpts: map<nat, KeyPointer>, linked: set<nat>, tail: nat)

  function Head(m: Memory, key: nat): nat { if key in m.heads then m.heads[key] else NOWHERE }

  predicate On(m: Memory, key: nat, a: nat) { a in m.linked && a in m.kpts && m.kpts[a].key == key }

  /** p is the highest linked key pointer of the chain below x, or NOWHERE when there is none. */
  ghost predicate Below(m: Memory, key: nat, x: nat, p: nat) {
    && p < x && (p == NOWHERE || On(m, key, p))
    && forall a: nat | On(m, key, a) && a < x :: a <= p
  }

  /** Every chain holds exactly its linked key pointers, in strictly descending order. */
  ghost predicate Chained(m: Memory) {
    && NOWHERE < m.tail
    && (forall a | a in m.linked :: a in m.kpts && NOWHERE < a < m.tail)
    && (forall key {:trigger Head(m, key)} :: Below(m, key, m.tail, Head(m, key)))
    && (forall a | a in m.linked :: Below(m, m.kpts[a].key, a, m.kpts[a].prev))
  }

  /** Where an inserter is, with key pointer number i at `Mine`. */
  datatype Pc =
    | Idle
    | Finding                                   // FindOrCreateEntry for key |found|
    | Construct                                 // about to construct key pointer i
    | SwapHead(e: nat)                          // about to swap the bucket entry, expecting e
    | FixHead(e: nat)                           // bucket entry is e < Mine: about to write prev
    | LoadNode(node: nat)
    | Walk(node: nat, p: nat)                   // loaded prev_address p of node
    | SwapNode(node: nat, p: nat)               // about to swap node's prev_address, expecting p
    | Publish                                   // about to clear the invalid bit
    | Scanning(key: nat, at: nat, seen: seq<nat>, goal: set<nat>)

  datatype Thread = Thread(pc: Pc, keys: seq<nat>, found: seq<nat>, base: nat, i: nat)

  function Slot(base: nat, i: nat): nat { base + HEADER + KPT_SIZE * i }
  function Mine(th: Thread): nat { Slot(th.base, th.i) }

  /** The record is allocated and not yet published. */
  predicate Inserting(pc: Pc) {
    !pc.Idle? && !pc.Finding? && !pc.Scanning?
  }

  /** A record header: what it was built with, and the invalid bit. */
  datatype Record = Record(keys: seq<nat>, invalid: bool)

  datatype State = State(m: Memory, records: map<nat, Record>, threads: seq<Thread>)

  datatype Step =
    | Insert(t: nat, keys: seq<nat>)
    | Find(t: nat)
    | Allocate(t: nat, gap: nat, size: nat)
    | Act(t: nat)
    | StartScan(t: nat, key: nat)
    | ScanOn(t: nat)
    | EndScan(t: nat)

  predicate Init(s: State, n: nat) {
    s == State(Memory(map[], map[], {}, 64), map[], seq(n, _ => Thread(Idle, [], [], 0, 0)))
  }

  /** After key pointer i is linked: the next one, or publish. */
  function AfterLink(th: Thread): Thread {
    th.(i := th.i + 1, pc := if th.i + 1 < |th.keys| then Construct else Publish)
  }

  predicate NextStep(s: State, s': State, step: Step) {
    && step.t < |s.threads|
    && var t, th, m := step.t, s.threads[step.t], s.m;
    match step
    case Insert(_, keys) =>
      && th.pc.Idle?
      && s' == s.(threads := s.threads[t := Thread(Finding, keys, [], 0, 0)])
    case Find(_) =>
      && th.pc.Finding? && |th.found| < |th.keys|
      && s' == s.(threads := s.threads[t := th.(found := th.found + [Head(m, th.keys[|th.found|])])])
    case Allocate(_, gap, size) =>
      // BlockAllocate may have thrown earlier allocations away: `gap`. The header is written invalid.
      && th.pc.Finding? && |th.found| == |th.keys| && HEADER + KPT_SIZE * |th.keys| <= size
      && var base := m.tail + gap;
         s' == s.(m := m.(tail := base + size), records := s.records[base := Record(th.keys, true)],
                  threads := s.threads[t := th.(base := base, i := 0,
                                                pc := if |th.keys| > 0 then Construct else Publish)])
    case Act(_) => ActStep(s, s', t, th)
    case StartScan(_, key) =>
      && th.pc.Idle?
      && s' == s.(threads := s.threads[t := th.(pc :=
                    Scanning(key, Head(m, key), [], set a | a in m.linked && On(m, key, a)))])
    case ScanOn(_) =>
      && th.pc.Scanning? && th.pc.at != NOWHERE && th.pc.at in m.kpts
      && s' == s.(threads := s.threads[t := th.(pc :=
                    th.pc.(seen := th.pc.seen + [th.pc.at], at := m.kpts[th.pc.at].prev))])
    case EndScan(_) =>
      && th.pc.Scanning? && th.pc.at == NOWHERE
      && s' == s.(threads := s.threads[t := th.(pc := Idle)])
  }

  /** The loop body of InternalInsert for key pointer i. */
  predicate ActStep(s: State, s': State, t: nat, th: Thread)
    requires t < |s.threads|
  {
    var m, a := s.m, Mine(th);
    match th.pc
    case Construct =>
      && th.i < |th.keys| && th.i < |th.found|
      && s' == s.(m := m.(kpts := m.kpts[a := KeyPointer(th.keys[th.i], th.found[th.i])]),
                  threads := s.threads[t := th.(pc := SwapHead(th.found[th.i]))])
    case SwapHead(e) =>
      && th.i < |th.keys|
      && var key := th.keys[th.i];
         var now := Head(m, key);
         if now == e
         then s' == s.(m := m.(heads := m.heads[key := a], linked := m.linked + {a}),
                       threads := s.threads[t := AfterLink(th)])
         else s' == s.(threads := s.threads[t := th.(pc := if now < a then FixHead(now) else LoadNode(now))])
    case FixHead(e) =>
      && a in m.kpts
      && s' == s.(m := m.(kpts := m.kpts[a := m.kpts[a].(prev := e)]),
                  threads := s.threads[t := th.(pc := SwapHead(e))])
    case LoadNode(node) =>
      && node in m.kpts
      && s' == s.(threads := s.threads[t := th.(pc := Walk(node, m.kpts[node].prev))])
    case Walk(node, p) =>
      if p > a
      then s' == s.(threads := s.threads[t := th.(pc := LoadNode(p))])
      else
        && a in m.kpts
        && s' == s.(m := m.(kpts := m.kpts[a := m.kpts[a].(prev := p)]),
                    threads := s.threads[t := th.(pc := SwapNode(node, p))])
    case SwapNode(node, p) =>
      && node in m.kpts
      && if m.kpts[node].prev == p
         then s' == s.(m := m.(kpts := m.kpts[node := m.kpts[node].(prev := a)], linked := m.linked + {a}),
                       threads := s.threads[t := AfterLink(th)])
         else s' == s.(threads := s.threads[t := th.(pc := Walk(node, m.kpts[node].prev))])
    case Publish =>
      && th.base in s.records
      && s' == s.(records := s.records[th.base := s.records[th.base].(invalid := false)],
                  threads := s.threads[t := th.(pc := Idle)])
    case _ => false
  }

  // ---------------------------------------------------------------- chains

  /** Writing a key pointer that is on no chain changes no chain. */
  lemma PutUnlinked(m: Memory, m': Memory, a: nat, k: KeyPointer)
    requires Chained(m) && a !in m.linked && m' == m.(kpts := m.kpts[a := k])
    ensures Chained(m')
    ensures forall key, b :: On(m', key, b) <==> On(m, key, b)
  {
    assert forall key, b :: On(m', key, b) <==> On(m, key, b);
    forall key ensures Below(m', key, m'.tail, Head(m', key)) {
      assert Below(m, key, m.tail, Head(m, key));
    }
    forall b | b in m'.linked ensures Below(m', m'.kpts[b].key, b, m'.kpts[b].prev) {
      assert Below(m, m.kpts[b].key, b, m.kpts[b].prev);
    }
  }

  lemma GrowTail(m: Memory, m': Memory)
    requires Chained(m) && m.tail <= m'.tail && m' == m.(tail := m'.tail)
    ensures Chained(m')
    ensures forall key, b :: On(m', key, b) <==> On(m, key, b)
  {
    assert forall key, b :: On(m', key, b) <==> On(m, key, b);
    forall key ensures Below(m', key, m'.tail, Head(m', key)) {
      assert Below(m, key, m.tail, Head(m, key));
    }
    forall b | b in m'.linked ensures Below(m', m'.kpts[b].key, b, m'.kpts[b].prev) {
      assert Below(m, m.kpts[b].key, b, m.kpts[b].prev);
    }
  }

  /** Winning the bucket entry puts a on top of its chain. */
  lemma LinkAtHead(m: Memory, m': Memory, key: nat, a: nat)
    requires Chained(m) && a !in m.linked && NOWHERE < a < m.tail
    requires a in m.kpts && m.kpts[a] == KeyPointer(key, Head(m, key)) && Head(m, key) < a
    requires m' == m.(heads := m.heads[key := a], linked := m.linked + {a})
    ensures Chained(m')
    ensures forall k, b :: On(m', k, b) <==> On(m, k, b) || (k == key && b == a)
  {
    assert forall k, b :: On(m', k, b) <==> On(m, k, b) || (k == key && b == a);
    assert Below(m, key, m.tail, Head(m, key));
    forall k ensures Below(m', k, m'.tail, Head(m', k)) {
      assert Below(m, k, m.tail, Head(m, k));
    }
    forall b | b in m'.linked ensures Below(m', m'.kpts[b].key, b, m'.kpts[b].prev) {
      if b != a { assert Below(m, m.kpts[b].key, b, m.kpts[b].prev) && On(m, m.kpts[b].key, b); }
    }
  }

  /** Winning node's prev_address puts a between node and its old predecessor p. */
  lemma LinkBelowNode(m: Memory, m': Memory, key: nat, a: nat, node: nat, p: nat)
    requires Chained(m) && a !in m.linked && NOWHERE < a
    requires On(m, key, node) && p < a < node && m.kpts[node].prev == p
    requires a in m.kpts && m.kpts[a] == KeyPointer(key, p)
    requires m' == m.(kpts := m.kpts[node := m.kpts[node].(prev := a)], linked := m.linked + {a})
    ensures Chained(m')
    ensures forall k, b :: On(m', k, b) <==> On(m, k, b) || (k == key && b == a)
  {
    assert forall k, b :: On(m', k, b) <==> On(m, k, b) || (k == key && b == a);
    assert Below(m, key, node, p);
    forall k ensures Below(m', k, m'.tail, Head(m', k)) {
      assert Below(m, k, m.tail, Head(m, k));
    }
    forall b | b in m'.linked ensures Below(m', m'.kpts[b].key, b, m'.kpts[b].prev) {
      if b != a { assert Below(m, m.kpts[b].key, b, m.kpts[b].prev) && On(m, m.kpts[b].key, b); }
    }
  }

  // ---------------------------------------------------------------- invariant

  /** Key pointers 0..i-1 of the record are linked, the others are on no chain. */
  predicate RecordOk(s: State, th: Thread) {
    && |th.found| == |th.keys| && th.i <= |th.keys| && (th.pc.Publish? <==> th.i == |th.keys|)
    && NOWHERE < th.base && Slot(th.base, |th.keys|) <= s.m.tail
    && th.base in s.records && s.records[th.base] == Record(th.keys, true)
    && (forall j | 0 <= j < |th.keys| :: th.found[j] < th.base)
    && (forall j | 0 <= j < th.i :: On(s.m, th.keys[j], Slot(th.base, j)))
    && (forall j | th.i <= j < |th.keys| :: Slot(th.base, j) !in s.m.linked)
  }

  /** What the inserter knows at each point of the loop. */
  predicate LoopOk(m: Memory, th: Thread)
    requires th.i <= |th.keys|
  {
    var a := Mine(th);
    (!th.pc.Construct? && !th.pc.Publish? ==>
      && th.i < |th.keys| && a in m.kpts && m.kpts[a].key == th.keys[th.i]
      && match th.pc
         case SwapHead(e) => e < a && m.kpts[a].prev == e
         case FixHead(e) => e < a
         case LoadNode(node) => a < node && On(m, th.keys[th.i], node)
         case Walk(node, p) => a < node && On(m, th.keys[th.i], node) && p != a && (a < p ==> On(m, th.keys[th.i], p))
         case SwapNode(node, p) => a < node && On(m, th.keys[th.i], node) && p < a && m.kpts[a].prev == p
         case _ => true)
  }

  /** A scan has seen, in descending order, every key pointer that was linked when it began and lies
      above the point it has reached. */
  predicate ScanOk(m: Memory, pc: Pc)
    requires pc.Scanning?
  {
    && (pc.at == NOWHERE || On(m, pc.key, pc.at))
    && (forall j | 0 <= j < |pc.seen| :: On(m, pc.key, pc.seen[j]) && pc.at < pc.seen[j])
    && (forall j, k | 0 <= j < k < |pc.seen| :: pc.seen[k] < pc.seen[j])
    && (forall a | a in pc.goal :: On(m, pc.key, a) && (a <= pc.at || a in pc.seen))
  }

  predicate ThreadOk(s: State, th: Thread) {
    && (th.pc.Finding? ==> forall j | 0 <= j < |th.found| :: th.found[j] < s.m.tail)
    && (Inserting(th.pc) ==> RecordOk(s, th) && LoopOk(s.m, th))
    && (th.pc.Scanning? ==> ScanOk(s.m, th.pc))
  }

  /** Records being inserted do not overlap. */
  predicate Apart(th: Thread, other: Thread) {
    Slot(th.base, |th.keys|) <= other.base || Slot(other.base, |other.keys|) <= th.base
  }

  /** A record whose invalid bit is clear is on all its chains. */
  predicate VisibleOk(s: State) {
    forall b | b in s.records ::
      && Slot(b, |s.records[b].keys|) <= s.m.tail
      && (!s.records[b].invalid ==>
            forall j | 0 <= j < |s.records[b].keys| :: On(s.m, s.records[b].keys[j], Slot(b, j)))
  }

  ghost predicate Inv(s: State) {
    && Chained(s.m) && VisibleOk(s)
    && (forall t | 0 <= t < |s.threads| :: ThreadOk(s, s.threads[t]))
    && (forall t, u | 0 <= t < u < |s.threads| && Inserting(s.threads[t].pc) && Inserting(s.threads[u].pc) ::
          Apart(s.threads[t], s.threads[u]))
  }

  /** The memory a step may touch: nothing that is on a chain changes its key, only the mover's key
      pointer may join a chain, and no unlinked key pointer but the mover's own is written. */
  ghost predicate Effect(m: Memory, m': Memory, a: nat) {
    && Chained(m') && m.tail <= m'.tail
    && (forall key, b :: On(m, key, b) ==> On(m', key, b))
    && (forall b | b in m'.linked :: b in m.linked || b == a)
    && (forall b | b in m.kpts && b != a && b !in m.linked :: b in m'.kpts && m'.kpts[b] == m.kpts[b])
  }

  lemma StepEffect(s: State, s': State, step: Step)
    requires Inv(s) && NextStep(s, s', step)
    ensures Effect(s.m, s'.m, Mine(s.threads[step.t]))
    ensures !Inserting(s.threads[step.t].pc) ==> s'.m.linked == s.m.linked && s'.m.kpts == s.m.kpts
    ensures step.Act? ==> s'.m.tail == s.m.tail
  {
    var th, m, m' := s.threads[step.t], s.m, s'.m;
    assert ThreadOk(s, th);
    if step.Allocate? {
      GrowTail(m, m');
    } else if step.Act? {
      var a := Mine(th);
      match th.pc
      case Construct => PutUnlinked(m, m', a, m'.kpts[a]);
      case FixHead(e) => PutUnlinked(m, m', a, m'.kpts[a]);
      case Walk(_, p) => if p <= a { PutUnlinked(m, m', a, m'.kpts[a]); }
      case SwapHead(e) => if Head(m, th.keys[th.i]) == e { LinkAtHead(m, m', th.keys[th.i], a); }
      case SwapNode(node, p) => if m.kpts[node].prev == p { LinkBelowNode(m, m', th.keys[th.i], a, node, p); }
      case _ =>
    }
  }

  /** A thread keeps what it knows when somebody else links or writes key pointer a. */
  lemma StableUnder(s: State, s': State, a: nat, th: Thread)
    requires ThreadOk(s, th) && Effect(s.m, s'.m, a)
    requires Inserting(th.pc) ==>
               && (forall j | 0 <= j < |th.keys| :: Slot(th.base, j) != a)
               && th.base in s'.records && s'.records[th.base] == s.records[th.base]
    ensures ThreadOk(s', th)
  {
    if Inserting(th.pc) {
      forall j | 0 <= j < th.i ensures On(s'.m, th.keys[j], Slot(th.base, j)) {
        assert On(s.m, th.keys[j], Slot(th.base, j));
      }
    }
  }

  lemma ThreadStable(s: State, s': State, step: Step, t: nat)
    requires Inv(s) && NextStep(s, s', step) && t < |s.threads| && t != step.t
    ensures s'.threads[t] == s.threads[t] && ThreadOk(s', s'.threads[t])
  {
    StepEffect(s, s', step);
    var th, mover := s.threads[t], s.threads[step.t];
    assert ThreadOk(s, th) && ThreadOk(s, mover);
    if !Inserting(mover.pc) {
      // The mover wrote no key pointer: name one that is nobody's.
      StableUnder(s, s', s.m.tail, th);
    } else {
      if Inserting(th.pc) {
        assert if t < step.t then Apart(th, mover) else Apart(mover, th);
      }
      StableUnder(s, s', Mine(mover), th);
    }
  }

  lemma ScanBegins(m: Memory, key: nat)
    requires Chained(m)
    ensures ScanOk(m, Scanning(key, Head(m, key), [], set a | a in m.linked && On(m, key, a)))
  {
    assert Below(m, key, m.tail, Head(m, key));
  }

  lemma ScanAdvances(m: Memory, pc: Pc)
    requires Chained(m) && pc.Scanning? && ScanOk(m, pc) && pc.at != NOWHERE
    ensures ScanOk(m, pc.(seen := pc.seen + [pc.at], at := m.kpts[pc.at].prev))
  {
    var pc' := pc.(seen := pc.seen + [pc.at], at := m.kpts[pc.at].prev);
    assert Below(m, pc.key, pc.at, pc'.at);
    forall a | a in pc.goal ensures a <= pc'.at || a in pc'.seen { GoalAdvances(m, pc, a); }
  }

  lemma GoalAdvances(m: Memory, pc: Pc, a: nat)
    requires pc.Scanning? && On(m, pc.key, pc.at) && Below(m, pc.key, pc.at, m.kpts[pc.at].prev)
    requires On(m, pc.key, a) && (a <= pc.at || a in pc.seen)
    ensures a <= m.kpts[pc.at].prev || a in pc.seen + [pc.at]
  {
  }

  /** Once key pointer i is linked, the record has one linked key pointer more. */
  lemma RecordLinks(s: State, s': State, th: Thread)
    requires RecordOk(s, th) && th.i < |th.keys| && Effect(s.m, s'.m, Mine(th))
    requires s'.records == s.records && On(s'.m, th.keys[th.i], Mine(th))
    ensures RecordOk(s', AfterLink(th)) && LoopOk(s'.m, AfterLink(th))
  {
    forall j | 0 <= j <= th.i ensures On(s'.m, th.keys[j], Slot(th.base, j)) {
      if j < th.i { assert On(s.m, th.keys[j], Slot(th.base, j)); }
    }
  }

  lemma LinkMover(s: State, s': State, step: Step)
    requires Inv(s) && NextStep(s, s', step) && step.Act?
    requires s'.threads[step.t] == AfterLink(s.threads[step.t]) && !s.threads[step.t].pc.Publish?
    ensures ThreadOk(s', s'.threads[step.t])
  {
    StepEffect(s, s', step);
    var th := s.threads[step.t];
    assert ThreadOk(s, th);
    RecordLinks(s, s', th);
  }

  /** Everything else an inserter does keeps its record as it is. */
  lemma RecordMover(s: State, s': State, step: Step)
    requires Inv(s) && NextStep(s, s', step) && step.Act?
    requires Inserting(s'.threads[step.t].pc) && s'.threads[step.t].i == s.threads[step.t].i
    ensures RecordOk(s', s'.threads[step.t])
  {
    StepEffect(s, s', step);
    var th := s.threads[step.t];
    assert ThreadOk(s, th);
    assert s'.m.linked == s.m.linked && s'.records == s.records;
    forall j | 0 <= j < th.i ensures On(s'.m, th.keys[j], Slot(th.base, j)) {
      assert On(s.m, th.keys[j], Slot(th.base, j));
    }
  }

  lemma LoopMover(s: State, s': State, step: Step)
    requires Inv(s) && NextStep(s, s', step) && step.Act?
    requires Inserting(s'.threads[step.t].pc) && s'.threads[step.t].i == s.threads[step.t].i
    ensures s'.threads[step.t].i <= |s'.threads[step.t].keys| && LoopOk(s'.m, s'.threads[step.t])
  {
    StepEffect(s, s', step);
    var th := s.threads[step.t];
    assert ThreadOk(s, th);
    match th.pc
    case SwapHead(_) => assert Below(s.m, th.keys[th.i], s.m.tail, Head(s.m, th.keys[th.i]));
    case LoadNode(node) => assert Below(s.m, th.keys[th.i], node, s.m.kpts[node].prev);
    case SwapNode(node, _) => assert Below(s.m, th.keys[th.i], node, s.m.kpts[node].prev);
    case _ =>
  }

  lemma ActMover(s: State, s': State, step: Step)
    requires Inv(s) && NextStep(s, s', step) && step.Act?
    ensures ThreadOk(s', s'.threads[step.t])
  {
    var th' := s'.threads[step.t];
    if Inserting(th'.pc) {
      if th'.i == s.threads[step.t].i {
        RecordMover(s, s', step);
        LoopMover(s, s', step);
      } else {
        LinkMover(s, s', step);
      }
    }
  }

  lemma Mover(s: State, s': State, step: Step)
    requires Inv(s) && NextStep(s, s', step)
    ensures ThreadOk(s', s'.threads[step.t])
  {
    var th := s.threads[step.t];
    assert ThreadOk(s, th);
    if step.Act? {
      ActMover(s, s', step);
    } else if step.StartScan? {
      ScanBegins(s.m, step.key);
    } else if step.ScanOn? {
      ScanAdvances(s.m, th.pc);
    } else {
      StepEffect(s, s', step);
      if step.Find? {
        assert Below(s.m, th.keys[|th.found|], s.m.tail, Head(s.m, th.keys[|th.found|]));
      }
    }
  }

  lemma ApartInductive(s: State, s': State, step: Step, u: nat)
    requires Inv(s) && NextStep(s, s', step) && u < |s.threads| && u != step.t
    requires Inserting(s'.threads[step.t].pc) && Inserting(s'.threads[u].pc)
    ensures Apart(s'.threads[step.t], s'.threads[u])
  {
    assert ThreadOk(s, s.threads[u]) && ThreadOk(s, s.threads[step.t]);
    if step.Act? {
      assert if u < step.t then Apart(s.threads[u], s.threads[step.t]) else Apart(s.threads[step.t], s.threads[u]);
    }
  }

  lemma VisibleInductive(s: State, s': State, step: Step)
    requires Inv(s) && NextStep(s, s', step)
    ensures VisibleOk(s')
  {
    StepEffect(s, s', step);
    assert ThreadOk(s, s.threads[step.t]);
  }

  lemma ThreadsInductive(s: State, s': State, step: Step, t: nat)
    requires Inv(s) && NextStep(s, s', step) && t < |s.threads|
    ensures |s'.threads| == |s.threads| && ThreadOk(s', s'.threads[t])
    ensures (t != step.t ==> s'.threads[t] == s.threads[t])
  {
    if t == step.t { Mover(s, s', step); } else { ThreadStable(s, s', step, t); }
  }

  lemma PairsInductive(s: State, s': State, step: Step, t: nat, u: nat)
    requires Inv(s) && NextStep(s, s', step) && t < u < |s.threads| == |s'.threads|
    requires Inserting(s'.threads[t].pc) && Inserting(s'.threads[u].pc)
    ensures Apart(s'.threads[t], s'.threads[u])
  {
    if u == step.t {
      ApartInductive(s, s', step, t);
    } else if t == step.t {
      ApartInductive(s, s', step, u);
    } else {
      ThreadsInductive(s, s', step, t);
      ThreadsInductive(s, s', step, u);
    }
  }

  lemma InvInductive(s: State, s': State, step: Step)
    requires Inv(s) && NextStep(s, s', step)
    ensures Inv(s')
  {
    StepEffect(s, s', step);
    VisibleInductive(s, s', step);
    forall t | 0 <= t < |s.threads| ensures |s'.threads| == |s.threads| && ThreadOk(s', s'.threads[t]) {
      ThreadsInductive(s, s', step, t);
    }
    forall t, u | 0 <= t < u < |s'.threads| && Inserting(s'.threads[t].pc) && Inserting(s'.threads[u].pc)
      ensures Apart(s'.threads[t], s'.threads[u])
    {
      PairsInductive(s, s', step, t, u);
    }
  }

  // ---------------------------------------------------------------- guarantees

  lemma InitInv(s: State, n: nat)
    requires Init(s, n)
    ensures Inv(s)
  {
  }

  predicate IsRun(run: seq<State>, steps: seq<Step>, n: nat) {
    && |run| == |steps| + 1 && Init(run[0], n)
    && forall i {:trigger steps[i]} | 0 <= i < |steps| :: NextStep(run[i], run[i + 1], steps[i])
  }

  lemma {:induction false} RunInv(run: seq<State>, steps: seq<Step>, n: nat, k: nat)
    requires IsRun(run, steps, n) && k < |run|
    ensures Inv(run[k])
  {
    if k == 0 {
      InitInv(run[0], n);
    } else {
      RunInv(run, steps, n, k - 1);
      var s, s', step := run[k - 1], run[k], steps[k - 1];
      assert NextStep(s, s', step);
      InvInductive(s, s', step);
    }
  }

  /** The key pointers of a chain, as a walk from the bucket entry meets them. */
  ghost function Chain(m: Memory, key: nat, from: nat): (r: seq<nat>)
    requires Chained(m) && (from == NOWHERE || On(m, key, from))
    decreases from
  {
    if from == NOWHERE then []
    else
      assert Below(m, key, from, m.kpts[from].prev);
      [from] + Chain(m, key, m.kpts[from].prev)
  }

  lemma {:induction false} ChainContents(m: Memory, key: nat, from: nat)
    requires Chained(m) && (from == NOWHERE || On(m, key, from))
    ensures forall a | a in Chain(m, key, from) :: On(m, key, a) && a <= from
    ensures forall a: nat | On(m, key, a) && a <= from :: a in Chain(m, key, from)
    ensures forall i, j | 0 <= i < j < |Chain(m, key, from)| :: Chain(m, key, from)[j] < Chain(m, key, from)[i]
    decreases from
  {
    if from != NOWHERE {
      assert Below(m, key, from, m.kpts[from].prev);
      ChainContents(m, key, m.kpts[from].prev);
      var rest := Chain(m, key, m.kpts[from].prev);
      assert Chain(m, key, from) == [from] + rest;
      assert forall i | 0 <= i < |rest| :: rest[i] in rest;
    } else {
      assert forall a: nat | On(m, key, a) :: a in m.linked;
    }
  }

  /** In every interleaving, walking a chain from its bucket entry meets exactly the key pointers of
      that key whose linking compare-and-swap succeeded, in strictly descending order (so none is lost
      and none appears twice). */
  lemma ChainsExact(run: seq<State>, steps: seq<Step>, n: nat, k: nat, key: nat)
    requires IsRun(run, steps, n) && k < |run|
    ensures var m := run[k].m;
            && Chained(m) && (Head(m, key) == NOWHERE || On(m, key, Head(m, key)))
            && var c := Chain(m, key, Head(m, key));
               && (forall a: nat :: a in c <==> On(m, key, a))
               && (forall i, j | 0 <= i < j < |c| :: c[j] < c[i])
  {
    RunInv(run, steps, n, k);
    var m := run[k].m;
    assert Below(m, key, m.tail, Head(m, key));
    ChainContents(m, key, Head(m, key));
  }

  /** A record whose invalid bit is clear is on the chain of each of its keys. */
  lemma VisibleMeansLinked(run: seq<State>, steps: seq<Step>, n: nat, k: nat, base: nat, j: nat)
    requires IsRun(run, steps, n) && k < |run|
    requires base in run[k].records && !run[k].records[base].invalid && j < |run[k].records[base].keys|
    ensures On(run[k].m, run[k].records[base].keys[j], Slot(base, j))
  {
    RunInv(run, steps, n, k);
  }

  /** Some thread is between allocating the record at b and publishing it. */
  predicate Underway(s: State, b: nat) {
    exists t :: 0 <= t < |s.threads| && Inserting(s.threads[t].pc) && s.threads[t].base == b
  }

  predicate BitsOk(s: State) { forall b | b in s.records :: s.records[b].invalid <==> Underway(s, b) }

  /** The record the mover is at. */
  lemma OwnBit(s: State, s': State, step: Step)
    requires Inv(s) && Inv(s') && BitsOk(s) && NextStep(s, s', step) && (step.Allocate? || step.Act?)
    ensures var b := s'.threads[step.t].base; b in s'.records && (s'.records[b].invalid <==> Underway(s', b))
  {
    var t, b := step.t, s'.threads[step.t].base;
    assert ThreadOk(s, s.threads[t]);
    if Inserting(s'.threads[t].pc) { assert ThreadOk(s', s'.threads[t]); }
  }

  /** Another record, and whoever is at it. */
  lemma OtherRecord(s: State, s': State, step: Step, b: nat)
    requires NextStep(s, s', step) && !((step.Allocate? || step.Act?) && b == s'.threads[step.t].base)
    requires b in s'.records
    ensures b in s.records && s'.records[b] == s.records[b] && |s'.threads| == |s.threads|
    ensures Inserting(s.threads[step.t].pc) ==> s'.threads[step.t].base == s.threads[step.t].base
    ensures Inserting(s'.threads[step.t].pc) ==> step.Allocate? || step.Act?
  {
  }

  lemma OtherBit(s: State, s': State, step: Step, b: nat)
    requires NextStep(s, s', step) && !((step.Allocate? || step.Act?) && b == s'.threads[step.t].base)
    requires b in s'.records
    ensures Underway(s', b) <==> Underway(s, b)
  {
    OtherRecord(s, s', step, b);
    if u :| 0 <= u < |s.threads| && Inserting(s.threads[u].pc) && s.threads[u].base == b {
      assert u != step.t && s'.threads[u] == s.threads[u];
    }
    if u :| 0 <= u < |s'.threads| && Inserting(s'.threads[u].pc) && s'.threads[u].base == b {
      assert u != step.t && s'.threads[u] == s.threads[u];
    }
  }

  lemma BitsInductive(s: State, s': State, step: Step)
    requires Inv(s) && Inv(s') && BitsOk(s) && NextStep(s, s', step)
    ensures BitsOk(s')
  {
    forall b | b in s'.records ensures s'.records[b].invalid <==> Underway(s', b) {
      if (step.Allocate? || step.Act?) && b == s'.threads[step.t].base {
        OwnBit(s, s', step);
      } else {
        OtherRecord(s, s', step, b);
        OtherBit(s, s', step, b);
      }
    }
  }

  lemma {:induction false} RunBits(run: seq<State>, steps: seq<Step>, n: nat, k: nat)
    requires IsRun(run, steps, n) && k < |run|
    ensures BitsOk(run[k])
  {
    if k > 0 {
      RunBits(run, steps, n, k - 1);
      RunInv(run, steps, n, k - 1);
      RunInv(run, steps, n, k);
      assert NextStep(run[k - 1], run[k], steps[k - 1]);
      BitsInductive(run[k - 1], run[k], steps[k - 1]);
    }
  }

  /** A record is invalid exactly as long as some thread is inserting it. */
  lemma InvalidExactly(run: seq<State>, steps: seq<Step>, n: nat, k: nat, base: nat)
    requires IsRun(run, steps, n) && k < |run| && base in run[k].records
    ensures run[k].records[base].invalid <==>
              exists t :: 0 <= t < |run[k].threads| && Inserting(run[k].threads[t].pc) && run[k].threads[t].base == base
  {
    RunBits(run, steps, n, k);
  }

  /** Thread t is in the insert it began in state s0 with these keys. */
  predicate InsertOf(s0: State, s: State, t: nat, keys: seq<nat>) {
    && t < |s.threads| && s.threads[t].keys == keys && (s.threads[t].pc.Finding? || Inserting(s.threads[t].pc))
    && (forall b | b in s0.records :: b in s.records)
    && (Inserting(s.threads[t].pc) ==> s.threads[t].base !in s0.records)
  }

  lemma InsertGoesOn(s0: State, s: State, s': State, step: Step, t: nat, keys: seq<nat>)
    requires Inv(s) && NextStep(s, s', step) && InsertOf(s0, s, t, keys) && !s'.threads[t].pc.Idle?
    ensures InsertOf(s0, s', t, keys)
  {
    assert ThreadOk(s, s.threads[t]) && ThreadOk(s, s.threads[step.t]);
  }

  lemma {:induction false} InsertLasts(run: seq<State>, steps: seq<Step>, n: nat, i: nat, j: nat, t: nat,
                                       keys: seq<nat>)
    requires IsRun(run, steps, n) && i < j < |run| && steps[i] == Insert(t, keys)
    requires forall m | i < m <= j :: t < |run[m].threads| && !run[m].threads[t].pc.Idle?
    ensures InsertOf(run[i], run[j], t, keys)
    decreases j
  {
    assert NextStep(run[i], run[i + 1], steps[i]);
    if i + 1 < j {
      InsertLasts(run, steps, n, i, j - 1, t, keys);
      RunInv(run, steps, n, j - 1);
      assert NextStep(run[j - 1], run[j], steps[j - 1]);
      InsertGoesOn(run[i], run[j - 1], run[j], steps[j - 1], t, keys);
    }
  }

  lemma InsertEnds(s0: State, s: State, s': State, step: Step, t: nat, keys: seq<nat>)
    requires Inv(s) && NextStep(s, s', step) && InsertOf(s0, s, t, keys) && s'.threads[t].pc.Idle?
    ensures var b := s'.threads[t].base; b !in s0.records && b in s'.records && s'.records[b] == Record(keys, false)
  {
    assert ThreadOk(s, s.threads[t]);
  }

  /** An insert that has finished, whatever ran beside it, has left a new record with its keys, visible and on
      the chain of each of them. */
  lemma InsertFinished(run: seq<State>, steps: seq<Step>, n: nat, i: nat, j: nat, t: nat, keys: seq<nat>)
      returns (base: nat)
    requires IsRun(run, steps, n) && i + 1 < j < |run| && steps[i] == Insert(t, keys)
    requires forall m | i < m <= j :: t < |run[m].threads| && (run[m].threads[t].pc.Idle? <==> m == j)
    ensures base in run[j].records && base !in run[i].records && run[j].records[base] == Record(keys, false)
    ensures forall x | 0 <= x < |keys| :: On(run[j].m, keys[x], Slot(base, x))
  {
    InsertLasts(run, steps, n, i, j - 1, t, keys);
    RunInv(run, steps, n, j - 1);
    assert NextStep(run[j - 1], run[j], steps[j - 1]);
    InsertEnds(run[i], run[j - 1], run[j], steps[j - 1], t, keys);
    base := run[j].threads[t].base;
    forall x | 0 <= x < |keys| ensures On(run[j].m, keys[x], Slot(base, x)) {
      VisibleMeansLinked(run, steps, n, j, base, x);
    }
  }

  /** Everything an inserter writes lies at or above its own record: its header, its key pointers,
      and the key pointer it links itself below. */
  lemma WritesAbove(run: seq<State>, steps: seq<Step>, n: nat, k: nat, a: nat)
    requires IsRun(run, steps, n) && k < |steps| && Inserting(run[k].threads[steps[k].t].pc)
    requires a < run[k].threads[steps[k].t].base
    ensures a in run[k].m.kpts ==> a in run[k + 1].m.kpts && run[k + 1].m.kpts[a] == run[k].m.kpts[a]
    ensures a in run[k].records ==> a in run[k + 1].records && run[k + 1].records[a] == run[k].records[a]
  {
    RunInv(run, steps, n, k);
    assert NextStep(run[k], run[k + 1], steps[k]);
    assert ThreadOk(run[k], run[k].threads[steps[k].t]);
  }

  /** A scan that runs beside inserters and reaches the end of the chain has met every key pointer
      linked before it began, met only linked ones, each once and in descending order. */
  lemma ScanComplete(run: seq<State>, steps: seq<Step>, n: nat, k: nat, t: nat)
    requires IsRun(run, steps, n) && k < |run| && t < |run[k].threads|
    requires run[k].threads[t].pc.Scanning? && run[k].threads[t].pc.at == NOWHERE
    ensures var pc := run[k].threads[t].pc;
            && (forall a | a in pc.goal :: a in pc.seen)
            && (forall a | a in pc.seen :: On(run[k].m, pc.key, a))
            && (forall i, j | 0 <= i < j < |pc.seen| :: pc.seen[j] < pc.seen[i])
  {
    RunInv(run, steps, n, k);
    assert ThreadOk(run[k], run[k].threads[t]);
    forall a | a in run[k].threads[t].pc.goal ensures a in run[k].threads[t].pc.seen {
      assert a in run[k].m.linked;
    }
  }

  // ---------------------------------------------------------------- where key pointers live

  /** a is key pointer j of the record at b. */
  predicate Home(s: State, a: nat, b: nat, j: nat) {
    b in s.records && j < |s.records[b].keys| && Slot(b, j) == a
  }

  /** Records do not overlap. */
  predicate Spaced(s: State) {
    forall b, c | b in s.records && c in s.records && b < c :: Slot(b, |s.records[b].keys|) <= c
  }

  ghost predicate Housed(s: State, a: nat)
    requires a in s.m.kpts
  {
    exists b: nat, j: nat :: Home(s, a, b, j) && s.m.kpts[a].key == s.records[b].keys[j]
  }

  /** Every key pointer constructed so far is one of a record's, for the key the record has there. */
  ghost predicate Homes(s: State) {
    Spaced(s) && forall a | a in s.m.kpts :: Housed(s, a)
  }

  lemma AllocateSpaces(s: State, base: nat, r: Record)
    requires VisibleOk(s) && Spaced(s) && s.m.tail <= base
    ensures Spaced(s.(records := s.records[base := r])) && base !in s.records
  {
  }

  predicate SameKeys(s: State, s': State) {
    s'.records.Keys == s.records.Keys && forall b | b in s.records :: s'.records[b].keys == s.records[b].keys
  }

  lemma StillSpaced(s: State, s': State)
    requires Spaced(s) && SameKeys(s, s')
    ensures Spaced(s')
  {
  }

  lemma RecordsSame(s: State, s': State, step: Step)
    requires NextStep(s, s', step) && !step.Allocate?
    ensures SameKeys(s, s')
  {
  }

  /** Records keep their keys, and a new one lies above the rest. */
  lemma RecordsKept(s: State, s': State, step: Step)
    requires VisibleOk(s) && Spaced(s) && NextStep(s, s', step)
    ensures Spaced(s')
    ensures forall b | b in s.records :: b in s'.records && s'.records[b].keys == s.records[b].keys
  {
    if step.Allocate? {
      AllocateSpaces(s, s.m.tail + step.gap, Record(s.threads[step.t].keys, true));
    } else {
      RecordsSame(s, s', step);
      StillSpaced(s, s');
    }
  }

  /** A step writes key pointers only at the mover's own, with its key, or keeps the key. */
  lemma KeysKept(s: State, s': State, step: Step, a: nat)
    requires Inv(s) && NextStep(s, s', step) && a in s'.m.kpts
    requires !(a in s.m.kpts && s'.m.kpts[a].key == s.m.kpts[a].key)
    ensures var th := s.threads[step.t];
            Home(s', a, th.base, th.i) && s'.m.kpts[a].key == s'.records[th.base].keys[th.i]
  {
    assert ThreadOk(s, s.threads[step.t]);
  }

  lemma HomesInductive(s: State, s': State, step: Step)
    requires Inv(s) && Homes(s) && NextStep(s, s', step)
    ensures Homes(s')
  {
    RecordsKept(s, s', step);
    forall a | a in s'.m.kpts ensures Housed(s', a) {
      if a in s.m.kpts && s'.m.kpts[a].key == s.m.kpts[a].key {
        assert Housed(s, a);
        var b: nat, j: nat :| Home(s, a, b, j) && s.m.kpts[a].key == s.records[b].keys[j];
        assert Home(s', a, b, j);
      } else {
        KeysKept(s, s', step, a);
      }
    }
  }

  lemma {:induction false} RunHomes(run: seq<State>, steps: seq<Step>, n: nat, k: nat)
    requires IsRun(run, steps, n) && k < |run|
    ensures Inv(run[k]) && Homes(run[k])
  {
    RunInv(run, steps, n, k);
    if k > 0 {
      RunHomes(run, steps, n, k - 1);
      assert NextStep(run[k - 1], run[k], steps[k - 1]);
      HomesInductive(run[k - 1], run[k], steps[k - 1]);
    }
  }

  /** A key pointer is at home in one place only. */
  lemma OneHome(s: State, a: nat, b: nat, j: nat, c: nat, k: nat)
    requires Spaced(s) && Home(s, a, b, j) && Home(s, a, c, k)
    ensures b == c && j == k
  {
  }
}
