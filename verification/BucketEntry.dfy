/** Hash bucket entries (FindTentativeEntry, HasConflictingEntry, FindOrCreateEntry in
    src/core/fishstore.h over src/core/hash_bucket.h): a thread puts a tentative entry for its tag
    into a free slot, looks for another entry with that tag, and either backs off or makes the
    entry final.

    One bucket chain is the sequence of its slots, seven to a bucket; appending an overflow bucket
    appends seven free slots. One load, store or compare-and-swap per step, any number of threads,
    no garbage collection. */
module BucketEntry {

  const ENTRIES: nat := 7

  /** HashBucketEntry: all zeros, tentative_ set, or tentative_ clear with a log address. */
  datatype Slot = Free | Tentative(tag: nat) | Final(tag: nat, addr: nat)

  datatype Option = None | Some(value: nat)

  /** Program counter of FindOrCreateEntry for `tag`. */
  datatype Pc =
    | Idle
    | Search(tag: nat, j: nat, free: Option)      // FindTentativeEntry about to load slot j
    | SearchNext(tag: nat, j: nat, free: Option)  // about to load the overflow entry before slot j
    | Append(tag: nat, j: nat)                    // about to compare-and-swap the overflow entry
    | Install(tag: nat, own: nat)                 // about to compare-and-swap the free slot
    | Check(tag: nat, own: nat, j: nat)           // HasConflictingEntry about to load slot j
    | CheckNext(tag: nat, own: nat, j: nat)       // about to load the overflow entry before slot j
    | BackOff(tag: nat, own: nat)                 // conflict found, about to store zero
    | Confirm(tag: nat, own: nat)                 // no conflict, about to clear the tentative bit
    | Found(tag: nat, own: nat)                   // returned slot `own`

  datatype State = State(slots: seq<Slot>, pcs: seq<Pc>)

  datatype Step =
    | Call(t: nat, tag: nat)
    | Load(t: nat)
    | LoadOverflow(t: nat)
    | SwapOverflow(t: nat)
    | SwapSlot(t: nat)
    | StoreSlot(t: nat)
    | SwapAddress(t: nat, addr: nat)     // InternalInsert moves the entry to a newer key pointer
    | Return(t: nat)

  function Bucket(): (r: seq<Slot>) { seq(ENTRIES, _ => Free) }

  predicate Init(s: State, n: nat) {
    s == State(Bucket(), seq(n, _ => Idle))
  }

  /** Slot j is the first of a bucket, so reaching it needs an overflow load. */
  predicate Boundary(j: nat) { j % ENTRIES == 0 }

  predicate NextStep(s: State, s': State, step: Step) {
    && step.t < |s.pcs|
    && var t, pc := step.t, s.pcs[step.t];
    match step
    case Call(_, tag) =>
      pc == Idle && s' == s.(pcs := s.pcs[t := Search(tag, 0, None)])
    case Load(_) =>
      && (pc.Search? || pc.Check?) && pc.j < |s.slots|
      && var slot := s.slots[pc.j];
         var next := pc.j + 1;
         s' == s.(pcs := s.pcs[t :=
           if pc.Search? then
             if slot.Final? && slot.tag == pc.tag then Found(pc.tag, pc.j)
             else
               var free := if slot.Free? && pc.free.None? then Some(pc.j) else pc.free;
               if Boundary(next) then SearchNext(pc.tag, next, free) else Search(pc.tag, next, free)
           else if !slot.Free? && slot.tag == pc.tag && pc.j != pc.own then BackOff(pc.tag, pc.own)
           else if Boundary(next) then CheckNext(pc.tag, pc.own, next)
           else Check(pc.tag, pc.own, next)])
    case LoadOverflow(_) =>
      && (pc.SearchNext? || pc.CheckNext?)
      && s' == s.(pcs := s.pcs[t :=
           if pc.j < |s.slots| then
             (if pc.SearchNext? then Search(pc.tag, pc.j, pc.free) else Check(pc.tag, pc.own, pc.j))
           else if pc.CheckNext? then Confirm(pc.tag, pc.own)
           else if pc.free.Some? then Install(pc.tag, pc.free.value)
           else Append(pc.tag, pc.j)])
    case SwapOverflow(_) =>
      && pc.Append?
      && if |s.slots| == pc.j
         then s' == s.(slots := s.slots + Bucket(), pcs := s.pcs[t := Install(pc.tag, pc.j)])
         else s' == s.(pcs := s.pcs[t := Search(pc.tag, pc.j, None)])
    case SwapSlot(_) =>
      && pc.Install? && pc.own < |s.slots|
      && if s.slots[pc.own].Free?
         then s' == s.(slots := s.slots[pc.own := Tentative(pc.tag)], pcs := s.pcs[t := Check(pc.tag, pc.own, 0)])
         else s' == s.(pcs := s.pcs[t := Search(pc.tag, 0, None)])
    case StoreSlot(_) =>
      && (pc.BackOff? || pc.Confirm?) && pc.own < |s.slots|
      && if pc.BackOff?
         then s' == s.(slots := s.slots[pc.own := Free], pcs := s.pcs[t := Search(pc.tag, 0, None)])
         else s' == s.(slots := s.slots[pc.own := Final(pc.tag, 1)], pcs := s.pcs[t := Found(pc.tag, pc.own)])
    case SwapAddress(_, addr) =>
      && pc.Found? && pc.own < |s.slots| && s.slots[pc.own].Final?
      && s' == s.(slots := s.slots[pc.own := Final(pc.tag, addr)])
    case Return(_) =>
      pc.Found? && s' == s.(pcs := s.pcs[t := Idle])
  }

  /** The slot whose tentative entry the thread put there. */
  function Owns(pc: Pc): Option {
    match pc
    case Check(_, own, _) => Some(own)
    case CheckNext(_, own, _) => Some(own)
    case BackOff(_, own) => Some(own)
    case Confirm(_, own) => Some(own)
    case _ => None
  }

  /** The thread's conflict check has already gone past slot y without finding anything. */
  predicate Past(pc: Pc, y: nat) {
    match pc
    case Check(_, _, j) => y < j
    case CheckNext(_, _, j) => y < j
    case Confirm(_, _) => true
    case _ => false
  }

  predicate PcOk(s: State, pc: Pc) {
    match pc
    case Search(_, j, free) => j < |s.slots| && (free.Some? ==> free.value < j)
    case SearchNext(_, j, free) => Boundary(j) && j <= |s.slots| && (free.Some? ==> free.value < j)
    case Append(_, j) => Boundary(j) && j <= |s.slots|
    case Install(_, own) => own < |s.slots|
    case Check(tag, own, j) => own < |s.slots| && s.slots[own] == Tentative(tag) && j < |s.slots|
    case CheckNext(tag, own, j) => own < |s.slots| && s.slots[own] == Tentative(tag) && Boundary(j) && j <= |s.slots|
    case BackOff(tag, own) => own < |s.slots| && s.slots[own] == Tentative(tag)
    case Confirm(tag, own) => own < |s.slots| && s.slots[own] == Tentative(tag)
    case Found(tag, own) => own < |s.slots| && s.slots[own].Final? && s.slots[own].tag == tag
    case Idle => true
  }

  predicate OwnersInv(s: State) {
    && Boundary(|s.slots|) && |s.slots| > 0
    && (forall t | 0 <= t < |s.pcs| :: PcOk(s, s.pcs[t]))
    && (forall t, u | 0 <= t < u < |s.pcs| && Owns(s.pcs[t]).Some? :: Owns(s.pcs[t]) != Owns(s.pcs[u]))
  }

  /** Of two entries with one tag, an owner that has checked past the other entry faces an owner that
      has not checked past it: at most one of the two can become final. */
  predicate TagsInv(s: State) {
    && (forall x, y | 0 <= x < y < |s.slots| && s.slots[x].Final? && s.slots[y].Final? ::
          s.slots[x].tag != s.slots[y].tag)
    && (forall t, x | 0 <= t < |s.pcs| && 0 <= x < |s.slots| && s.slots[x].Final? && Owns(s.pcs[t]).Some? ::
          s.slots[x].tag == s.pcs[t].tag ==> !Past(s.pcs[t], x))
    && (forall t, u | 0 <= t < |s.pcs| && 0 <= u < |s.pcs| && t != u && Owns(s.pcs[t]).Some? && Owns(s.pcs[u]).Some? ::
          s.pcs[t].tag == s.pcs[u].tag ==> !(Past(s.pcs[t], s.pcs[u].own) && Past(s.pcs[u], s.pcs[t].own)))
  }

  predicate Inv(s: State) { OwnersInv(s) && TagsInv(s) }

  // ---------------------------------------------------------------- proof

  /** A slot somebody else owns is left alone; final slots stay final with their tag. */
  lemma SlotsStable(s: State, s': State, step: Step, x: nat)
    requires OwnersInv(s) && NextStep(s, s', step) && x < |s.slots|
    ensures |s.slots| <= |s'.slots|
    ensures s.slots[x].Final? ==> s'.slots[x].Final? && s'.slots[x].tag == s.slots[x].tag
    ensures s.slots[x].Tentative? && Owns(s.pcs[step.t]) != Some(x) ==> s'.slots[x] == s.slots[x]
  {
    assert PcOk(s, s.pcs[step.t]);
  }

  lemma MoverOk(s: State, s': State, step: Step)
    requires OwnersInv(s) && NextStep(s, s', step)
    ensures PcOk(s', s'.pcs[step.t]) && Boundary(|s'.slots|) && |s'.slots| > 0
  {
    assert PcOk(s, s.pcs[step.t]);
  }

  lemma OtherOk(s: State, s': State, step: Step, t: nat)
    requires OwnersInv(s) && NextStep(s, s', step) && t < |s.pcs| && t != step.t
    ensures s'.pcs[t] == s.pcs[t] && PcOk(s', s'.pcs[t])
    ensures Owns(s'.pcs[t]).Some? ==> Owns(s'.pcs[t]) != Owns(s'.pcs[step.t])
  {
    var pc := s.pcs[t];
    assert PcOk(s, pc) && PcOk(s, s.pcs[step.t]);
    if Owns(pc).Some? || pc.Found? { SlotsStable(s, s', step, pc.own); }
  }

  lemma OwnersInductive(s: State, s': State, step: Step)
    requires OwnersInv(s) && NextStep(s, s', step)
    ensures OwnersInv(s')
  {
    MoverOk(s, s', step);
    forall t | 0 <= t < |s.pcs| && t != step.t
      ensures PcOk(s', s'.pcs[t]) && s'.pcs[t] == s.pcs[t]
      ensures Owns(s'.pcs[t]).Some? ==> Owns(s'.pcs[t]) != Owns(s'.pcs[step.t])
    {
      OtherOk(s, s', step, t);
    }
  }

  /** A thread confirming its tag has checked past every other entry, so nobody else can confirm it. */
  lemma FinalsInductive(s: State, s': State, step: Step)
    requires Inv(s) && NextStep(s, s', step)
    ensures forall x, y | 0 <= x < y < |s'.slots| && s'.slots[x].Final? && s'.slots[y].Final? ::
              s'.slots[x].tag != s'.slots[y].tag
  {
    assert PcOk(s, s.pcs[step.t]);
  }

  lemma FinalAgainstOwner(s: State, s': State, step: Step, t: nat, x: nat)
    requires Inv(s) && NextStep(s, s', step) && t < |s'.pcs| && x < |s'.slots|
    requires s'.slots[x].Final? && Owns(s'.pcs[t]).Some? && s'.slots[x].tag == s'.pcs[t].tag
    ensures !Past(s'.pcs[t], x)
  {
    assert PcOk(s, s.pcs[step.t]) && PcOk(s, s.pcs[t]);
    if t != step.t && (x >= |s.slots| || !s.slots[x].Final?) {
      assert s.pcs[step.t].Confirm? && s.pcs[step.t].own == x;
      assert Past(s.pcs[step.t], s.pcs[t].own);
    }
  }

  lemma OwnersFaceOff(s: State, s': State, step: Step, u: nat)
    requires Inv(s) && NextStep(s, s', step) && u < |s'.pcs| && u != step.t
    requires Owns(s'.pcs[step.t]).Some? && Owns(s'.pcs[u]).Some? && s'.pcs[step.t].tag == s'.pcs[u].tag
    ensures !(Past(s'.pcs[step.t], s'.pcs[u].own) && Past(s'.pcs[u], s'.pcs[step.t].own))
  {
    var t := step.t;
    assert PcOk(s, s.pcs[t]) && PcOk(s, s.pcs[u]);
  }

  lemma InvInductive(s: State, s': State, step: Step)
    requires Inv(s) && NextStep(s, s', step)
    ensures Inv(s')
  {
    OwnersInductive(s, s', step);
    FinalsInductive(s, s', step);
    forall t, x | 0 <= t < |s'.pcs| && 0 <= x < |s'.slots| && s'.slots[x].Final? && Owns(s'.pcs[t]).Some?
      ensures s'.slots[x].tag == s'.pcs[t].tag ==> !Past(s'.pcs[t], x)
    {
      if s'.slots[x].tag == s'.pcs[t].tag { FinalAgainstOwner(s, s', step, t, x); }
    }
    forall u | 0 <= u < |s'.pcs| && u != step.t && Owns(s'.pcs[step.t]).Some? && Owns(s'.pcs[u]).Some?
      ensures s'.pcs[step.t].tag == s'.pcs[u].tag ==>
                !(Past(s'.pcs[step.t], s'.pcs[u].own) && Past(s'.pcs[u], s'.pcs[step.t].own))
    {
      if s'.pcs[step.t].tag == s'.pcs[u].tag { OwnersFaceOff(s, s', step, u); }
    }
  }

  lemma InitInv(s: State, n: nat)
    requires Init(s, n)
    ensures Inv(s)
  {
  }

  predicate IsRun(run: seq<State>, steps: seq<Step>, n: nat) {
    && |run| == |steps| + 1 && Init(run[0], n)
    && forall i {:trigger steps[i]} | 0 <= i < |steps| :: NextStep(run[i], run[i + 1], steps[i])
  }

  lemma {:induction false} RunInv(run: seq<State>, steps: seq<Step>, n: nat, k: nat)
    requires IsRun(run, steps, n) && k < |run|
    ensures Inv(run[k])
  {
    if k == 0 {
      InitInv(run[0], n);
    } else {
      RunInv(run, steps, n, k - 1);
      var s, s', step := run[k - 1], run[k], steps[k - 1];
      InvInductive(s, s', step);
    }
  }

  /** No bucket chain ever holds two final entries with the same tag. */
  lemma TagsUnique(run: seq<State>, steps: seq<Step>, n: nat, k: nat, x: nat, y: nat)
    requires IsRun(run, steps, n) && k < |run| && x < |run[k].slots| && y < |run[k].slots|
    requires run[k].slots[x].Final? && run[k].slots[y].Final? && run[k].slots[x].tag == run[k].slots[y].tag
    ensures x == y
  {
    RunInv(run, steps, n, k);
  }

  lemma {:induction false} FinalStays(run: seq<State>, steps: seq<Step>, n: nat, i: nat, j: nat, x: nat)
    requires IsRun(run, steps, n) && i <= j < |run| && x < |run[i].slots| && run[i].slots[x].Final?
    ensures x < |run[j].slots| && run[j].slots[x].Final? && run[j].slots[x].tag == run[i].slots[x].tag
    decreases j
  {
    if i < j {
      FinalStays(run, steps, n, i, j - 1, x);
      RunInv(run, steps, n, j - 1);
      SlotsStable(run[j - 1], run[j], steps[j - 1], x);
    }
  }

  /** Any two calls of FindOrCreateEntry for one tag, whenever they return, return the same slot. */
  lemma CallsAgree(run: seq<State>, steps: seq<Step>, n: nat, i: nat, j: nat, t: nat, u: nat)
    requires IsRun(run, steps, n) && i <= j < |run| && t < |run[i].pcs| && u < |run[j].pcs|
    requires run[i].pcs[t].Found? && run[j].pcs[u].Found? && run[i].pcs[t].tag == run[j].pcs[u].tag
    ensures run[i].pcs[t].own == run[j].pcs[u].own
  {
    RunInv(run, steps, n, i);
    RunInv(run, steps, n, j);
    assert PcOk(run[i], run[i].pcs[t]) && PcOk(run[j], run[j].pcs[u]);
    FinalStays(run, steps, n, i, j, run[i].pcs[t].own);
    TagsUnique(run, steps, n, j, run[i].pcs[t].own, run[j].pcs[u].own);
  }

  // ---------------------------------------------------------------- what a call comes to

  /** A call for a tag that slot y holds is on its way to slot y. */
  predicate HeadsFor(s: State, pc: Pc, tag: nat, y: nat) {
    && y < |s.slots| && s.slots[y].Final? && s.slots[y].tag == tag
    && match pc
       case Search(g, j, _) => g == tag && j <= y
       case SearchNext(g, j, _) => g == tag && j <= y
       case Found(g, own) => g == tag && own == y
       case _ => false
  }

  predicate InCall(steps: seq<Step>, t: nat, i: nat, j: nat) {
    j <= |steps| && forall m | i < m < j :: steps[m] != Return(t)
  }

  lemma HeadsForStep(s: State, s': State, step: Step, t: nat, tag: nat, y: nat)
    requires Inv(s) && NextStep(s, s', step) && t < |s.pcs| && HeadsFor(s, s.pcs[t], tag, y) && step != Return(t)
    ensures HeadsFor(s', s'.pcs[t], tag, y)
  {
    assert PcOk(s, s.pcs[t]) && PcOk(s, s.pcs[step.t]);
    if step.StoreSlot? { assert s.slots[s.pcs[step.t].own].Tentative?; }
  }

  /** A call for a tag that is there, whatever runs beside it, makes no entry and finds the one there is. */
  lemma {:induction false} FindsAgain(run: seq<State>, steps: seq<Step>, n: nat, i: nat, j: nat, t: nat, tag: nat,
                                      y: nat)
    requires IsRun(run, steps, n) && i < j < |run| && steps[i] == Call(t, tag) && InCall(steps, t, i, j)
    requires y < |run[i].slots| && run[i].slots[y].Final? && run[i].slots[y].tag == tag
    ensures t < |run[j].pcs| && HeadsFor(run[j], run[j].pcs[t], tag, y)
    decreases j
  {
    assert NextStep(run[j - 1], run[j], steps[j - 1]);
    if i + 1 < j {
      FindsAgain(run, steps, n, i, j - 1, t, tag, y);
      RunInv(run, steps, n, j - 1);
      HeadsForStep(run[j - 1], run[j], steps[j - 1], t, tag, y);
    }
  }

  predicate Holds(slot: Slot, tag: nat) { !slot.Free? && slot.tag == tag }

  /** Thread t, alone since s0, is making the entry for a tag nobody has. */
  predicate Makes(s0: State, s: State, pc: Pc, tag: nat) {
    && |s0.slots| <= |s.slots|
    && (forall y | 0 <= y < |s.slots| && Owned(pc) != Some(y) ::
          !Holds(s.slots[y], tag) && s.slots[y] == if y < |s0.slots| then s0.slots[y] else Free)
    && match pc
       case Search(g, _, _) => g == tag
       case SearchNext(g, _, _) => g == tag
       case Append(g, _) => g == tag
       case Install(g, own) => g == tag
       case Check(g, own, _) => g == tag && own < |s.slots| && s.slots[own] == Tentative(tag)
       case CheckNext(g, own, _) => g == tag && own < |s.slots| && s.slots[own] == Tentative(tag)
       case Confirm(g, own) => g == tag && own < |s.slots| && s.slots[own] == Tentative(tag)
       case Found(g, own) => g == tag && own < |s.slots| && s.slots[own] == Final(tag, 1)
       case _ => false
  }

  function Owned(pc: Pc): Option { if pc.Found? then Some(pc.own) else Owns(pc) }

  lemma MakesStep(s0: State, s: State, s': State, step: Step, t: nat, tag: nat)
    requires NextStep(s, s', step) && step.t == t && Makes(s0, s, s.pcs[t], tag) && !s.pcs[t].Found?
    ensures Makes(s0, s', s'.pcs[t], tag)
  {
  }

  predicate Looks(s: State, step: Step, t: nat) { step.t == t && t < |s.pcs| && !s.pcs[t].Found? }

  /** Thread t takes all the steps from i to j, looking for its entry. */
  predicate Alone(run: seq<State>, steps: seq<Step>, i: nat, j: nat, t: nat) {
    && j <= |steps| < |run|
    && forall m {:trigger steps[m]} | i <= m < j :: Looks(run[m], steps[m], t)
  }

  lemma MakesBegins(s: State, s': State, t: nat, tag: nat)
    requires NextStep(s, s', Call(t, tag)) && forall y | 0 <= y < |s.slots| :: !Holds(s.slots[y], tag)
    ensures Makes(s, s', s'.pcs[t], tag) && |s'.pcs| == |s.pcs|
  {
  }

  /** A call, alone, for a tag that nobody has never backs off; what it finds is the one entry it has made, and
      every other slot is as it was. */
  lemma {:induction false} MakesAlone(run: seq<State>, steps: seq<Step>, n: nat, i: nat, j: nat, t: nat, tag: nat)
    requires IsRun(run, steps, n) && i < j < |run| && steps[i] == Call(t, tag) && Alone(run, steps, i, j, t)
    requires forall y | 0 <= y < |run[i].slots| :: !Holds(run[i].slots[y], tag)
    ensures t < |run[j].pcs| && Makes(run[i], run[j], run[j].pcs[t], tag)
    decreases j
  {
    var s, s', step := run[j - 1], run[j], steps[j - 1];
    assert NextStep(s, s', step) && Looks(s, step, t);
    if i + 1 < j {
      MakesAlone(run, steps, n, i, j - 1, t, tag);
      MakesStep(run[i], s, s', step, t, tag);
    } else {
      MakesBegins(s, s', t, tag);
    }
  }

  /** An entry's address is the last one swapped in. */
  lemma {:induction false} AddressIsLast(run: seq<State>, steps: seq<Step>, n: nat, i: nat, j: nat, y: nat)
    requires IsRun(run, steps, n) && i < j < |run| && steps[i].SwapAddress? && steps[i].t < |run[i].pcs|
    requires run[i].pcs[steps[i].t].Found? && run[i].pcs[steps[i].t].own == y
    requires forall m {:trigger steps[m]} | i < m < j && steps[m].SwapAddress? ::
               steps[m].t < |run[m].pcs| && run[m].pcs[steps[m].t].Found? && run[m].pcs[steps[m].t].own != y
    ensures y < |run[j].slots| && run[j].slots[y] == Final(run[i].pcs[steps[i].t].tag, steps[i].addr)
    decreases j
  {
    RunInv(run, steps, n, j - 1);
    assert NextStep(run[j - 1], run[j], steps[j - 1]);
    assert PcOk(run[j - 1], run[j - 1].pcs[steps[j - 1].t]);
    if i + 1 < j { AddressIsLast(run, steps, n, i, j - 1, y); }
  }
}
