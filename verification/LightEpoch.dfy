/** LightEpoch (src/core/light_epoch.h): the epoch table, the cached safe-to-reclaim epoch and the
    drain list, one atomic access per step, any number of threads and any drain-list length.

    `drain_count_` decides only whether a thread drains and when it stops; both choices are left
    free here, so every run of the code is a run of this machine. Memory is sequentially
    consistent. Table index t stands for table_[t + 1]: the scans start at entry 1. */
module LightEpoch {
  import EpochSpec

  datatype Option<T> = None | Some(value: T)

  /** EpochAction::epoch: kFree, kLocked or a trigger epoch. */
  datatype Word = Free | Locked | At(epoch: nat)

  /** One drain-list slot. An action is named by the epoch its bump left behind (`prior_epoch`). */
  datatype Slot = Slot(word: Word, callback: Option<nat>)

  /** Where an action is. */
  datatype Place = InHand(t: nat) | InSlot(j: nat) | ToRun(t: nat) | Ran

  /** Program counter. `arm` is the action BumpCurrentEpoch(callback, ...) will push after draining. */
  datatype Pc =
    | Idle
    | Entering(e: nat)
    | Scanning(next: nat, oldest: nat, arm: Option<nat>)
    | Draining(idx: nat, arm: Option<nat>)
    | DrainLoaded(idx: nat, e: nat, arm: Option<nat>)
    | DrainCas(idx: nat, e: nat, arm: Option<nat>)
    | DrainLocked(idx: nat, e: nat, arm: Option<nat>)
    | DrainTaken(idx: nat, act: nat, arm: Option<nat>)
    | DrainRun(idx: nat, act: nat, arm: Option<nat>)
    | Pushing(idx: nat, prior: nat)
    | PushCas(idx: nat, prior: nat)
    | PushLocked(idx: nat, prior: nat)
    | PushWritten(idx: nat, prior: nat)
    | SwapLoaded(idx: nat, e: nat, prior: nat)
    | SwapCas(idx: nat, e: nat, prior: nat)
    | SwapLocked(idx: nat, e: nat, prior: nat)
    | SwapWritten(idx: nat, act: nat, prior: nat)
    | SwapRun(act: nat)

  /** `waiting`, `place` and `ran` are history: the threads each bump still waits for, where every
      registered action is, and the actions run so far in order. */
  datatype State = State(
    current: nat, safe: nat, table: seq<nat>, slots: seq<Slot>, pcs: seq<Pc>,
    waiting: seq<set<nat>>, place: map<nat, Place>, ran: seq<nat>)

  datatype Step =
    | LoadCurrent(t: nat)          // current_epoch.load() in Protect / ProtectAndDrain
    | StoreLocal(t: nat, drain: bool)
    | Unprotect(t: nat)
    | Bump(t: nat, action: bool, drain: bool)
    | ScanEntry(t: nat)
    | StoreSafe(t: nat)
    | LoadSlot(t: nat)
    | CompareSafe(t: nat)
    | CasSlot(t: nat)
    | TakeFields(t: nat)
    | StoreSlot(t: nat)
    | RunAction(t: nat, stop: bool)
    | EndDrain(t: nat)

  predicate Init(s: State, n: nat, m: nat) {
    s == State(1, 0, seq(n, _ => 0), seq(m, _ => Slot(Free, None)), seq(n, _ => Idle), [{}], map[], [])
  }

  /** Where a thread goes when Drain returns. */
  function AfterDrain(arm: Option<nat>): Pc {
    match arm case None => Idle case Some(p) => Pushing(0, p)
  }

  function NextIdx(s: State, i: nat): nat {
    if i + 1 >= |s.slots| then 0 else i + 1
  }

  /** The threads inside a protected section. */
  function Inside(table: seq<nat>): set<nat> {
    set t | 0 <= t < |table| && table[t] != 0
  }

  predicate NextStep(s: State, s': State, step: Step) {
    && step.t < |s.pcs| && |s.table| == |s.pcs|
    && var t, pc := step.t, s.pcs[step.t];
    match step
    case LoadCurrent(_) =>
      pc == Idle && s' == s.(pcs := s.pcs[t := Entering(s.current)])
    case StoreLocal(_, drain) =>
      && pc.Entering?
      && s' == s.(table := s.table[t := pc.e], waiting := EpochSpec.Forget(s.waiting, t),
                  pcs := s.pcs[t := if drain then Scanning(0, pc.e, None) else Idle])
    case Unprotect(_) =>
      pc == Idle && s' == s.(table := s.table[t := 0], waiting := EpochSpec.Forget(s.waiting, t))
    case Bump(_, action, drain) =>
      var arm := if action then Some(s.current) else None;
      && pc == Idle
      && s' == s.(current := s.current + 1, waiting := s.waiting + [Inside(s.table)],
                  place := if action then s.place[s.current := InHand(t)] else s.place,
                  pcs := s.pcs[t := if drain then Scanning(0, s.current + 1, arm) else AfterDrain(arm)])
    case ScanEntry(_) =>
      && pc.Scanning? && pc.next < |s.table|
      && var v := s.table[pc.next];
         s' == s.(pcs := s.pcs[t := Scanning(pc.next + 1, if v != 0 && v < pc.oldest then v else pc.oldest, pc.arm)])
    case StoreSafe(_) =>
      && pc.Scanning? && pc.next == |s.table| && 1 <= pc.oldest
      && s' == s.(safe := pc.oldest - 1, pcs := s.pcs[t := Draining(0, pc.arm)])
    case LoadSlot(_) =>
      && (pc.Draining? || pc.Pushing?) && pc.idx < |s.slots|
      && var w := s.slots[pc.idx].word;
         s' == s.(pcs := s.pcs[t :=
           if pc.Draining? then
             (if w.At? then DrainLoaded(pc.idx, w.epoch, pc.arm) else Draining(pc.idx + 1, pc.arm))
           else if w.Free? then PushCas(pc.idx, pc.prior)
           else if w.At? then SwapLoaded(pc.idx, w.epoch, pc.prior)
           else Pushing(NextIdx(s, pc.idx), pc.prior)])
    case CompareSafe(_) =>
      && (pc.DrainLoaded? || pc.SwapLoaded?)
      && s' == s.(pcs := s.pcs[t :=
           if pc.DrainLoaded? then
             (if pc.e <= s.safe then DrainCas(pc.idx, pc.e, pc.arm) else Draining(pc.idx + 1, pc.arm))
           else if pc.e <= s.safe then SwapCas(pc.idx, pc.e, pc.prior)
           else Pushing(NextIdx(s, pc.idx), pc.prior)])
    case CasSlot(_) =>
      && (pc.DrainCas? || pc.PushCas? || pc.SwapCas?) && pc.idx < |s.slots|
      && var slot := s.slots[pc.idx];
         var won := slot.word == if pc.PushCas? then Free else At(pc.e);
         s' == s.(slots := if won then s.slots[pc.idx := slot.(word := Locked)] else s.slots,
                  pcs := s.pcs[t :=
           if pc.DrainCas? then
             (if won then DrainLocked(pc.idx, pc.e, pc.arm) else Draining(pc.idx + 1, pc.arm))
           else if pc.PushCas? then
             (if won then PushLocked(pc.idx, pc.prior) else Pushing(NextIdx(s, pc.idx), pc.prior))
           else
             (if won then SwapLocked(pc.idx, pc.e, pc.prior) else Pushing(NextIdx(s, pc.idx), pc.prior))])
    case TakeFields(_) =>
      && (pc.DrainLocked? || pc.PushLocked? || pc.SwapLocked?) && pc.idx < |s.slots|
      && var slot := s.slots[pc.idx];
         && (!pc.PushLocked? ==> slot.callback.Some?)
         && (if pc.DrainLocked? then
               s' == s.(slots := s.slots[pc.idx := slot.(callback := None)],
                        place := s.place[slot.callback.value := ToRun(t)],
                        pcs := s.pcs[t := DrainTaken(pc.idx, slot.callback.value, pc.arm)])
             else if pc.PushLocked? then
               s' == s.(slots := s.slots[pc.idx := slot.(callback := Some(pc.prior))],
                        place := s.place[pc.prior := InSlot(pc.idx)],
                        pcs := s.pcs[t := PushWritten(pc.idx, pc.prior)])
             else
               s' == s.(slots := s.slots[pc.idx := slot.(callback := Some(pc.prior))],
                        place := s.place[slot.callback.value := ToRun(t)][pc.prior := InSlot(pc.idx)],
                        pcs := s.pcs[t := SwapWritten(pc.idx, slot.callback.value, pc.prior)]))
    case StoreSlot(_) =>
      && (pc.DrainTaken? || pc.PushWritten? || pc.SwapWritten?) && pc.idx < |s.slots|
      && var slot := s.slots[pc.idx];
         s' == s.(slots := s.slots[pc.idx := slot.(word := if pc.DrainTaken? then Free else At(pc.prior))],
                  pcs := s.pcs[t :=
           if pc.DrainTaken? then DrainRun(pc.idx, pc.act, pc.arm)
           else if pc.PushWritten? then Idle
           else SwapRun(pc.act)])
    case RunAction(_, stop) =>
      && (pc.DrainRun? || pc.SwapRun?)
      && s' == s.(ran := s.ran + [pc.act], place := s.place[pc.act := Ran],
                  pcs := s.pcs[t :=
           if pc.SwapRun? then Idle
           else if stop then AfterDrain(pc.arm)
           else Draining(pc.idx + 1, pc.arm)])
    case EndDrain(_) =>
      && pc.Draining? && pc.idx >= |s.slots|
      && s' == s.(pcs := s.pcs[t := AfterDrain(pc.arm)])
  }

  // ---------------------------------------------------------------- the epoch invariant

  /** Threads that still have not moved since bump p hold an epoch of p or less. */
  predicate TableInv(s: State) {
    && 1 <= s.current && |s.waiting| == s.current && |s.pcs| == |s.table| && s.safe < s.current
    && (forall t | 0 <= t < |s.table| :: s.table[t] <= s.current)
    && (forall p, t {:trigger t in s.waiting[p]} | 0 <= p < s.current && t in s.waiting[p] ::
          t < |s.table| && 0 < s.table[t] <= p)
  }

  /** The cached safe epoch, racy and non-monotone as it is, never reaches a bump that still waits. */
  predicate SafeInv(s: State)
    requires TableInv(s)
  {
    forall p | 0 <= p < s.current && p <= s.safe :: s.waiting[p] == {}
  }

  /** What a thread in the middle of a scan, or of popping an action, knows. */
  predicate PcInv(s: State, pc: Pc)
    requires TableInv(s)
  {
    match pc
    case Entering(e) => 1 <= e <= s.current
    case Scanning(next, oldest, _) =>
      && next <= |s.table| && 1 <= oldest <= s.current
      && forall p, u | 0 <= p < s.current && u in s.waiting[p] && u < next :: oldest <= p
    case DrainCas(_, e, _) => Passed(s, e)
    case DrainLocked(_, e, _) => Passed(s, e)
    case DrainTaken(_, act, _) => Passed(s, act)
    case DrainRun(_, act, _) => Passed(s, act)
    case SwapCas(_, e, _) => Passed(s, e)
    case SwapLocked(_, e, _) => Passed(s, e)
    case SwapWritten(_, act, _) => Passed(s, act)
    case SwapRun(act) => Passed(s, act)
    case _ => true
  }

  /** Every thread that was inside at bump p has moved on since. */
  predicate Passed(s: State, p: nat)
    requires TableInv(s)
  {
    p < s.current && s.waiting[p] == {}
  }

  predicate EpochInv(s: State) {
    && TableInv(s) && SafeInv(s)
    && forall t | 0 <= t < |s.pcs| :: PcInv(s, s.pcs[t])
  }

  lemma TableInductive(s: State, s': State, step: Step)
    requires EpochInv(s) && SlotInv(s) && NextStep(s, s', step)
    ensures TableInv(s') && s.current <= s'.current
    ensures forall p | 0 <= p < s.current :: s'.waiting[p] <= s.waiting[p]
    ensures forall p | s.current <= p < s'.current :: p == s.current && s'.waiting[p] == Inside(s.table)
  {
  }

  /** Knowledge about old bumps survives any step of any thread. */
  lemma PcStable(s: State, s': State, step: Step, pc: Pc)
    requires EpochInv(s) && SlotInv(s) && NextStep(s, s', step) && PcInv(s, pc)
    ensures TableInv(s') && PcInv(s', pc)
  {
    TableInductive(s, s', step);
  }

  lemma SafeInductive(s: State, s': State, step: Step)
    requires EpochInv(s) && SlotInv(s) && NextStep(s, s', step)
    ensures TableInv(s') && SafeInv(s')
  {
    TableInductive(s, s', step);
    if step.StoreSafe? {
      assert PcInv(s, s.pcs[step.t]);
      forall p | 0 <= p < s'.current && p <= s'.safe ensures s'.waiting[p] == {} {
        if u :| u in s.waiting[p] {
          assert false;
        }
      }
    }
  }

  lemma MoverInductive(s: State, s': State, step: Step)
    requires EpochInv(s) && SlotInv(s) && NextStep(s, s', step)
    ensures TableInv(s') && PcInv(s', s'.pcs[step.t])
  {
    TableInductive(s, s', step);
    PcStable(s, s', step, s.pcs[step.t]);
  }

  lemma EpochInductive(s: State, s': State, step: Step)
    requires EpochInv(s) && SlotInv(s) && NextStep(s, s', step)
    ensures EpochInv(s')
  {
    SafeInductive(s, s', step);
    MoverInductive(s, s', step);
    forall t | 0 <= t < |s'.pcs| && t != step.t ensures PcInv(s', s'.pcs[t]) {
      PcStable(s, s', step, s.pcs[t]);
    }
  }

  // ---------------------------------------------------------------- the drain list

  /** The slot a thread has locked. */
  function Holds(pc: Pc): Option<nat> {
    match pc
    case DrainLocked(i, _, _) => Some(i)
    case DrainTaken(i, _, _) => Some(i)
    case PushLocked(i, _) => Some(i)
    case PushWritten(i, _) => Some(i)
    case SwapLocked(i, _, _) => Some(i)
    case SwapWritten(i, _, _) => Some(i)
    case _ => None
  }

  /** The action a thread has bumped for and not yet put into a slot. */
  function Hand(pc: Pc): Option<nat> {
    match pc
    case Scanning(_, _, arm) => arm
    case Draining(_, arm) => arm
    case DrainLoaded(_, _, arm) => arm
    case DrainCas(_, _, arm) => arm
    case DrainLocked(_, _, arm) => arm
    case DrainTaken(_, _, arm) => arm
    case DrainRun(_, _, arm) => arm
    case Pushing(_, p) => Some(p)
    case PushCas(_, p) => Some(p)
    case PushLocked(_, p) => Some(p)
    case SwapLoaded(_, _, p) => Some(p)
    case SwapCas(_, _, p) => Some(p)
    case SwapLocked(_, _, p) => Some(p)
    case _ => None
  }

  /** The action a thread has taken out of a slot and not yet run. */
  function Taken(pc: Pc): Option<nat> {
    match pc
    case DrainTaken(_, a, _) => Some(a)
    case DrainRun(_, a, _) => Some(a)
    case SwapWritten(_, a, _) => Some(a)
    case SwapRun(a) => Some(a)
    case _ => None
  }

  /** What the slot a thread has locked looks like. */
  predicate LockInv(s: State, pc: Pc) {
    Holds(pc).Some? ==>
      && pc.idx < |s.slots| && s.slots[pc.idx].word == Locked
      && s.slots[pc.idx].callback ==
         match pc {
           case DrainLocked(_, e, _) => Some(e)
           case SwapLocked(_, e, _) => Some(e)
           case PushWritten(_, p) => Some(p)
           case SwapWritten(_, _, p) => Some(p)
           case _ => None
         }
  }

  predicate SlotInv(s: State) {
    && |s.pcs| == |s.table|
    && (forall t | 0 <= t < |s.pcs| :: LockInv(s, s.pcs[t]))
    && (forall t, u | 0 <= t < u < |s.pcs| && Holds(s.pcs[t]).Some? :: Holds(s.pcs[t]) != Holds(s.pcs[u]))
    && (forall j | 0 <= j < |s.slots| ::
          match s.slots[j].word
          case Free => s.slots[j].callback == None
          case At(e) => s.slots[j].callback == Some(e)
          case Locked => true)
  }

  /** The thread that steps still holds its own slot, and what the slot words say stays true. */
  lemma SlotMover(s: State, s': State, step: Step)
    requires SlotInv(s) && NextStep(s, s', step)
    ensures LockInv(s', s'.pcs[step.t])
    ensures forall j | 0 <= j < |s'.slots| ::
              match s'.slots[j].word
              case Free => s'.slots[j].callback == None
              case At(e) => s'.slots[j].callback == Some(e)
              case Locked => true
    ensures forall u | 0 <= u < |s'.pcs| && u != step.t && Holds(s'.pcs[step.t]).Some? ::
              Holds(s'.pcs[u]) != Holds(s'.pcs[step.t])
  {
    assert LockInv(s, s.pcs[step.t]);
    if step.CasSlot? {
      forall u | 0 <= u < |s'.pcs| && u != step.t && Holds(s'.pcs[step.t]).Some?
        ensures Holds(s'.pcs[u]) != Holds(s'.pcs[step.t])
      {
        assert LockInv(s, s.pcs[u]);
      }
    }
  }

  /** A step of one thread leaves the slot another thread has locked alone. */
  lemma SlotOther(s: State, s': State, step: Step, t: nat)
    requires SlotInv(s) && NextStep(s, s', step) && t < |s.pcs| && t != step.t
    ensures LockInv(s', s'.pcs[t]) && s'.pcs[t] == s.pcs[t]
  {
    assert LockInv(s, s.pcs[step.t]) && LockInv(s, s.pcs[t]);
    assert Holds(s.pcs[t]).Some? ==> Holds(s.pcs[t]) != Holds(s.pcs[step.t]);
  }

  lemma SlotInductive(s: State, s': State, step: Step)
    requires SlotInv(s) && NextStep(s, s', step)
    ensures SlotInv(s')
  {
    SlotMover(s, s', step);
    forall t | 0 <= t < |s'.pcs| ensures LockInv(s', s'.pcs[t]) {
      if t != step.t { SlotOther(s, s', step, t); }
    }
  }

  /** Every registered action is in exactly the place the history says, and nothing else is anywhere. */
  predicate PlaceInv(s: State) {
    && (forall a | a in s.place :: a < s.current && Located(s, a, s.place[a]))
    && (forall t | 0 <= t < |s.pcs| && Hand(s.pcs[t]).Some? ::
          Hand(s.pcs[t]).value in s.place && s.place[Hand(s.pcs[t]).value] == InHand(t))
    && (forall t | 0 <= t < |s.pcs| && Taken(s.pcs[t]).Some? ::
          Taken(s.pcs[t]).value in s.place && s.place[Taken(s.pcs[t]).value] == ToRun(t))
    && (forall j | 0 <= j < |s.slots| && s.slots[j].callback.Some? ::
          s.slots[j].callback.value in s.place && s.place[s.slots[j].callback.value] == InSlot(j))
    && (forall i | 0 <= i < |s.ran| :: s.ran[i] in s.place && s.place[s.ran[i]] == Ran)
    && (forall i, j | 0 <= i < j < |s.ran| :: s.ran[i] != s.ran[j])
  }

  predicate Located(s: State, a: nat, p: Place) {
    match p
    case InHand(t) => t < |s.pcs| && Hand(s.pcs[t]) == Some(a)
    case InSlot(j) => j < |s.slots| && s.slots[j].callback == Some(a)
    case ToRun(t) => t < |s.pcs| && Taken(s.pcs[t]) == Some(a)
    case Ran => a in s.ran
  }

  predicate Inv(s: State) {
    EpochInv(s) && SlotInv(s) && PlaceInv(s)
  }

  /** Nothing that says where an action is has changed. */
  predicate SamePlaces(s: State, s': State) {
    && |s'.pcs| == |s.pcs| && |s'.slots| == |s.slots| && s.current <= s'.current
    && s'.place == s.place && s'.ran == s.ran
    && (forall t | 0 <= t < |s.pcs| :: Hand(s'.pcs[t]) == Hand(s.pcs[t]) && Taken(s'.pcs[t]) == Taken(s.pcs[t]))
    && (forall j | 0 <= j < |s.slots| :: s'.slots[j].callback == s.slots[j].callback)
  }

  predicate Quiet(step: Step) { !step.Bump? && !step.TakeFields? && !step.RunAction? }

  lemma QuietHands(s: State, s': State, step: Step)
    requires NextStep(s, s', step) && Quiet(step)
    ensures |s'.pcs| == |s.pcs| && step.t < |s.pcs|
    ensures Hand(s'.pcs[step.t]) == Hand(s.pcs[step.t]) && Taken(s'.pcs[step.t]) == Taken(s.pcs[step.t])
    ensures forall u | 0 <= u < |s.pcs| && u != step.t :: s'.pcs[u] == s.pcs[u]
  {
    match step {
      case LoadCurrent(_) =>
      case StoreLocal(_, _) =>
      case Unprotect(_) =>
      case ScanEntry(_) =>
      case StoreSafe(_) =>
      case LoadSlot(_) =>
      case CompareSafe(_) =>
      case CasSlot(_) =>
      case StoreSlot(_) =>
      case EndDrain(_) =>
    }
  }

  lemma QuietStep(s: State, s': State, step: Step)
    requires NextStep(s, s', step) && Quiet(step)
    ensures SamePlaces(s, s')
  {
    QuietHands(s, s', step);
    assert s'.place == s.place && s'.ran == s.ran && s.current <= s'.current;
  }

  lemma PlaceFrame(s: State, s': State)
    requires PlaceInv(s) && SamePlaces(s, s')
    ensures PlaceInv(s')
  {
    forall a | a in s'.place ensures a < s'.current && Located(s', a, s'.place[a]) {
      assert Located(s, a, s.place[a]);
    }
  }

  /** A bump names its action by an epoch no earlier action has. */
  lemma PlaceBump(s: State, s': State, step: Step)
    requires PlaceInv(s) && NextStep(s, s', step) && step.Bump?
    ensures PlaceInv(s')
  {
    forall a | a in s'.place ensures a < s'.current && Located(s', a, s'.place[a]) {
      assert a in s.place ==> Located(s, a, s.place[a]);
    }
  }

  /** How one step moves actions: thread t gives `gives` away and slot j (if any) takes `slot`. */
  predicate Moves(s: State, s': State, t: nat, hand: Option<nat>, taken: Option<nat>, j: Option<nat>,
                  slot: Option<nat>) {
    && t < |s.pcs| == |s'.pcs| && |s'.slots| == |s.slots| && s'.current == s.current
    && Hand(s'.pcs[t]) == hand && Taken(s'.pcs[t]) == taken
    && (forall u | 0 <= u < |s.pcs| && u != t :: s'.pcs[u] == s.pcs[u])
    && (j.Some? ==> j.value < |s.slots| && s'.slots[j.value].callback == slot)
    && (forall i | 0 <= i < |s.slots| && Some(i) != j :: s'.slots[i].callback == s.slots[i].callback)
  }

  /** Under the slot's lock an action moves from the slot to the thread, or the other way. */
  lemma PlaceTake(s: State, s': State, step: Step)
    requires PlaceInv(s) && SlotInv(s) && NextStep(s, s', step) && step.TakeFields?
    ensures PlaceInv(s')
  {
    var t, pc := step.t, s.pcs[step.t];
    assert LockInv(s, pc);
    TakeMoves(s, s', step);
    if pc.DrainLocked? {
      PlaceTakeOut(s, s', t, pc.idx, pc.e);
    } else if pc.PushLocked? {
      PlacePutIn(s, s', t, pc.idx, pc.prior);
    } else {
      PlaceSwap(s, s', t, pc.idx, pc.e, pc.prior);
    }
  }

  lemma TakeMoves(s: State, s': State, step: Step)
    requires SlotInv(s) && NextStep(s, s', step) && step.TakeFields?
    ensures var t, pc := step.t, s.pcs[step.t];
            && (pc.DrainLocked? ==> Moves(s, s', t, pc.arm, Some(pc.e), Some(pc.idx), None))
            && (pc.PushLocked? ==> Moves(s, s', t, None, None, Some(pc.idx), Some(pc.prior)))
            && (pc.SwapLocked? ==> Moves(s, s', t, None, Some(pc.e), Some(pc.idx), Some(pc.prior)))
  {
    assert LockInv(s, s.pcs[step.t]);
  }

  lemma PlaceTakeOut(s: State, s': State, t: nat, j: nat, a: nat)
    requires PlaceInv(s) && t < |s.pcs| && Taken(s.pcs[t]) == None && j < |s.slots| && s.slots[j].callback == Some(a)
    requires Moves(s, s', t, Hand(s.pcs[t]), Some(a), Some(j), None)
    requires s'.place == s.place[a := ToRun(t)] && s'.ran == s.ran
    ensures PlaceInv(s')
  {
    forall b | b in s'.place ensures b < s'.current && Located(s', b, s'.place[b]) {
      assert Located(s, b, s.place[b]);
    }
  }

  lemma PlacePutIn(s: State, s': State, t: nat, j: nat, a: nat)
    requires PlaceInv(s) && t < |s.pcs| && Hand(s.pcs[t]) == Some(a) && Taken(s.pcs[t]) == None
    requires j < |s.slots| && s.slots[j].callback == None
    requires Moves(s, s', t, None, None, Some(j), Some(a))
    requires s'.place == s.place[a := InSlot(j)] && s'.ran == s.ran
    ensures PlaceInv(s')
  {
    forall b | b in s'.place ensures b < s'.current && Located(s', b, s'.place[b]) {
      assert Located(s, b, s.place[b]);
    }
  }

  lemma PlaceSwap(s: State, s': State, t: nat, j: nat, out: nat, a: nat)
    requires PlaceInv(s) && t < |s.pcs| && Hand(s.pcs[t]) == Some(a) && Taken(s.pcs[t]) == None
    requires j < |s.slots| && s.slots[j].callback == Some(out)
    requires Moves(s, s', t, None, Some(out), Some(j), Some(a))
    requires s'.place == s.place[out := ToRun(t)][a := InSlot(j)] && s'.ran == s.ran
    ensures PlaceInv(s')
  {
    forall b | b in s'.place ensures b < s'.current && Located(s', b, s'.place[b]) {
      assert Located(s, b, s.place[b]);
    }
  }

  lemma PlaceRun(s: State, s': State, step: Step)
    requires PlaceInv(s) && NextStep(s, s', step) && step.RunAction?
    ensures PlaceInv(s')
  {
    var t, a := step.t, s.pcs[step.t].act;
    assert Taken(s.pcs[t]) == Some(a);
    assert Moves(s, s', t, Hand(s.pcs[t]), None, None, None);
    PlaceRan(s, s', t, a);
  }

  lemma PlaceRan(s: State, s': State, t: nat, a: nat)
    requires PlaceInv(s) && t < |s.pcs| && Taken(s.pcs[t]) == Some(a)
    requires Moves(s, s', t, Hand(s.pcs[t]), None, None, None)
    requires s'.place == s.place[a := Ran] && s'.ran == s.ran + [a]
    ensures PlaceInv(s')
  {
    forall b | b in s'.place ensures b < s'.current && Located(s', b, s'.place[b]) {
      assert Located(s, b, s.place[b]);
    }
  }

  lemma PlaceInductive(s: State, s': State, step: Step)
    requires PlaceInv(s) && SlotInv(s) && NextStep(s, s', step)
    ensures PlaceInv(s')
  {
    if step.Bump? {
      PlaceBump(s, s', step);
    } else if step.TakeFields? {
      PlaceTake(s, s', step);
    } else if step.RunAction? {
      PlaceRun(s, s', step);
    } else {
      QuietStep(s, s', step);
      PlaceFrame(s, s');
    }
  }

  lemma InvInductive(s: State, s': State, step: Step)
    requires Inv(s) && NextStep(s, s', step)
    ensures Inv(s')
  {
    EpochInductive(s, s', step);
    SlotInductive(s, s', step);
    PlaceInductive(s, s', step);
  }

  // ---------------------------------------------------------------- refinement and runs

  function Abs(s: State): EpochSpec.State {
    EpochSpec.State(Inside(s.table), s.waiting, set a | a in s.ran)
  }

  function SpecStep(s: State, step: Step): EpochSpec.Step
    requires step.t < |s.pcs|
  {
    match step
    case StoreLocal(t, _) => EpochSpec.Enter(t)
    case Unprotect(t) => EpochSpec.Leave(t)
    case RunAction(t, _) => if Taken(s.pcs[t]).Some? then EpochSpec.Run(Taken(s.pcs[t]).value) else EpochSpec.Bump
    case _ => EpochSpec.Bump
  }

  /** Every step of LightEpoch is a step of EpochSpec, or changes nothing EpochSpec can see. */
  lemma Refines(s: State, s': State, step: Step)
    requires Inv(s) && NextStep(s, s', step)
    ensures
      if step.StoreLocal? || step.Unprotect? || step.Bump? || step.RunAction?
      then EpochSpec.NextStep(Abs(s), Abs(s'), SpecStep(s, step))
      else Abs(s') == Abs(s)
  {
    var t := step.t;
    match step
    case StoreLocal(_, _) =>
      assert PcInv(s, s.pcs[t]);
      assert Inside(s'.table) == Inside(s.table) + {t};
    case Unprotect(_) =>
      assert Inside(s'.table) == Inside(s.table) - {t};
    case RunAction(_, _) =>
      var a := s.pcs[t].act;
      assert PcInv(s, s.pcs[t]) && Taken(s.pcs[t]) == Some(a);
      assert a !in s.ran;
      assert Abs(s').ran == Abs(s).ran + {a};
    case _ =>
  }

  lemma InitInv(s: State, n: nat, m: nat)
    requires Init(s, n, m)
    ensures Inv(s) && EpochSpec.Init(Abs(s))
  {
  }

  /** run[0] is initial and steps[i] leads from run[i] to run[i + 1]. */
  predicate IsRun(run: seq<State>, steps: seq<Step>, n: nat, m: nat) {
    && |run| == |steps| + 1 && Init(run[0], n, m)
    && forall i {:trigger steps[i]} | 0 <= i < |steps| :: NextStep(run[i], run[i + 1], steps[i])
  }

  lemma {:induction false} RunInv(run: seq<State>, steps: seq<Step>, n: nat, m: nat, k: nat)
    requires IsRun(run, steps, n, m) && k < |run|
    ensures Inv(run[k])
  {
    if k == 0 {
      InitInv(run[0], n, m);
    } else {
      RunInv(run, steps, n, m, k - 1);
      var s, s', step := run[k - 1], run[k], steps[k - 1];
      assert NextStep(s, s', step);
      InvInductive(s, s', step);
    }
  }

  /** The action a step runs, if it runs one. */
  function RunsNow(s: State, step: Step): Option<nat> {
    if step.RunAction? && step.t < |s.pcs| then Taken(s.pcs[step.t]) else None
  }

  /** An action that runs waits for nobody, was registered and has not run before. */
  lemma RunHappens(s: State, s': State, step: Step)
    requires Inv(s) && NextStep(s, s', step) && RunsNow(s, step).Some?
    ensures var a := RunsNow(s, step).value;
            Passed(s, a) && a in s.place && a !in s.ran && s'.ran == s.ran + [a]
  {
    assert PcInv(s, s.pcs[step.t]);
  }

  /** Thread t stores a fresh epoch or unprotects somewhere in steps[from..to]. */
  predicate MovesOn(steps: seq<Step>, t: nat, from: nat, to: nat) {
    exists k | from <= k < to :: k < |steps| && (steps[k] == Unprotect(t) || (steps[k].StoreLocal? && steps[k].t == t))
  }

  /** A bump goes on waiting for a thread until that thread moves. */
  lemma {:induction false} KeepsWaiting(run: seq<State>, steps: seq<Step>, n: nat, m: nat, b: nat, k: nat, t: nat)
    requires IsRun(run, steps, n, m) && b < k < |run| && steps[b].Bump?
    requires t < |run[b].table| && run[b].table[t] != 0 && !MovesOn(steps, t, b + 1, k)
    ensures run[b].current < |run[k].waiting| && t in run[k].waiting[run[b].current]
    decreases k
  {
    RunInv(run, steps, n, m, b);
    assert NextStep(run[k - 1], run[k], steps[k - 1]);
    if k > b + 1 {
      RunInv(run, steps, n, m, k - 1);
      KeepsWaiting(run, steps, n, m, b, k - 1, t);
    }
  }

  /** The guarantee, said of runs alone: if step b bumps the epoch for an action and step r runs that
      action, then every thread inside a protected section at step b has stored a fresh epoch or
      unprotected between the two. */
  lemma RunsLate(run: seq<State>, steps: seq<Step>, n: nat, m: nat, b: nat, r: nat, t: nat)
    requires IsRun(run, steps, n, m) && b < |steps| && r < |steps|
    requires steps[b].Bump? && RunsNow(run[r], steps[r]) == Some(run[b].current)
    requires t < |run[b].table| && run[b].table[t] != 0
    ensures b < r && MovesOn(steps, t, b + 1, r)
  {
    RunInv(run, steps, n, m, r);
    RunInv(run, steps, n, m, b);
    var a := run[b].current;
    RunHappens(run[r], run[r + 1], steps[r]);
    if r <= b {
      CurrentGrows(run, steps, n, m, r, b);
    } else if !MovesOn(steps, t, b + 1, r) {
      KeepsWaiting(run, steps, n, m, b, r, t);
    }
  }

  lemma {:induction false} CurrentGrows(run: seq<State>, steps: seq<Step>, n: nat, m: nat, i: nat, j: nat)
    requires IsRun(run, steps, n, m) && i <= j < |run|
    ensures run[i].current <= run[j].current
    decreases j
  {
    if i < j {
      assert NextStep(run[j - 1], run[j], steps[j - 1]);
      CurrentGrows(run, steps, n, m, i, j - 1);
    }
  }

  lemma {:induction false} RanGrows(run: seq<State>, steps: seq<Step>, n: nat, m: nat, i: nat, j: nat)
    requires IsRun(run, steps, n, m) && i <= j < |run|
    ensures run[i].ran <= run[j].ran
    decreases j
  {
    if i < j {
      assert NextStep(run[j - 1], run[j], steps[j - 1]);
      RanGrows(run, steps, n, m, i, j - 1);
    }
  }

  lemma RunAt(run: seq<State>, steps: seq<Step>, n: nat, m: nat, r: nat)
    requires IsRun(run, steps, n, m) && r < |steps| && RunsNow(run[r], steps[r]).Some?
    ensures var a := RunsNow(run[r], steps[r]).value;
            a in run[r].place && a !in run[r].ran && a in run[r + 1].ran
  {
    RunInv(run, steps, n, m, r);
    RunHappens(run[r], run[r + 1], steps[r]);
  }

  /** No action runs twice, and only actions some bump registered run at all. */
  lemma RunsAtMostOnce(run: seq<State>, steps: seq<Step>, n: nat, m: nat, r: nat, r': nat)
    requires IsRun(run, steps, n, m) && r < r' < |steps|
    requires RunsNow(run[r], steps[r]).Some? && RunsNow(run[r'], steps[r']).Some?
    ensures RunsNow(run[r], steps[r]) != RunsNow(run[r'], steps[r'])
    ensures RunsNow(run[r], steps[r]).value in run[r].place
  {
    RunAt(run, steps, n, m, r);
    RunAt(run, steps, n, m, r');
    RanGrows(run, steps, n, m, r + 1, r');
  }
}
