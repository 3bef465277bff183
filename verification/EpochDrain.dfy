/** That deferred actions run at all: a thread that computes the safe epoch and drains with nobody interfering
    runs every action in the drain list that is older than all protected epochs. Safety is in `LightEpoch`. */
module EpochDrain {
  import L = LightEpoch

  /** The oldest epoch among e and the first n entries of the table in use. */
  predicate Oldest(table: seq<nat>, n: nat, e: nat, oldest: nat)
    requires n <= |table|
  {
    && oldest <= e && (forall u | 0 <= u < n && table[u] != 0 :: oldest <= table[u])
    && (oldest == e || exists u :: 0 <= u < n && table[u] == oldest)
  }

  /** The actions of the first n slots that are safe have run. */
  predicate Swept(s0: L.State, s: L.State, n: nat) {
    forall k | 0 <= k < n && k < |s0.slots| && s0.slots[k].word.At? && s0.slots[k].word.epoch <= s.safe ::
      s0.slots[k].callback.Some? && s0.slots[k].callback.value in s.ran
  }

  /** The slots from n on are as they were. */
  predicate Ahead(s0: L.State, s: L.State, n: nat) {
    |s.slots| == |s0.slots| && forall k | n <= k < |s.slots| :: s.slots[k] == s0.slots[k]
  }

  predicate SafeStored(s0: L.State, s: L.State, e: nat) {
    s.table == s0.table && Oldest(s.table, |s.table|, e, s.safe + 1)
  }

  /** How far thread t has got alone since state s0, where it began with epoch e. */
  predicate Alone(s0: L.State, s: L.State, t: nat, e: nat, arm: L.Option<nat>) {
    && t < |s.pcs|
    && match s.pcs[t]
       case Scanning(next, oldest, a) =>
         a == arm && s.table == s0.table && Ahead(s0, s, 0) && next <= |s.table| && Oldest(s.table, next, e, oldest)
       case Draining(idx, a) => a == arm && SafeStored(s0, s, e) && Swept(s0, s, idx) && Ahead(s0, s, idx)
       case DrainLoaded(idx, x, a) =>
         && a == arm && SafeStored(s0, s, e) && Swept(s0, s, idx) && Ahead(s0, s, idx)
         && idx < |s.slots| && s.slots[idx].word == L.At(x)
       case DrainCas(idx, x, a) =>
         && a == arm && SafeStored(s0, s, e) && Swept(s0, s, idx) && Ahead(s0, s, idx)
         && idx < |s.slots| && s.slots[idx].word == L.At(x)
       case DrainLocked(idx, x, a) =>
         && a == arm && SafeStored(s0, s, e) && Swept(s0, s, idx) && Ahead(s0, s, idx + 1)
         && idx < |s.slots| && s.slots[idx].callback == s0.slots[idx].callback
       case DrainTaken(idx, act, a) =>
         && a == arm && SafeStored(s0, s, e) && Swept(s0, s, idx) && Ahead(s0, s, idx + 1)
         && idx < |s.slots| && s0.slots[idx].callback == L.Some(act)
       case DrainRun(idx, act, a) =>
         && a == arm && SafeStored(s0, s, e) && Swept(s0, s, idx) && Ahead(s0, s, idx + 1)
         && idx < |s.slots| && s0.slots[idx].callback == L.Some(act)
       case _ => false
  }

  predicate DoneDraining(s0: L.State, s: L.State, e: nat) { SafeStored(s0, s, e) && Swept(s0, s, |s0.slots|) }

  lemma ScanStep(table: seq<nat>, n: nat, e: nat, oldest: nat)
    requires n < |table| && Oldest(table, n, e, oldest)
    ensures Oldest(table, n + 1, e, if table[n] != 0 && table[n] < oldest then table[n] else oldest)
  {
  }

  lemma SweptOne(s0: L.State, s: L.State, s': L.State, idx: nat)
    requires Swept(s0, s, idx) && s'.safe == s.safe && (forall a | a in s.ran :: a in s'.ran) && idx < |s0.slots|
    requires s0.slots[idx].word.At? && s0.slots[idx].word.epoch <= s.safe ==>
               s0.slots[idx].callback.Some? && s0.slots[idx].callback.value in s'.ran
    ensures Swept(s0, s', idx + 1)
  {
  }

  lemma AloneScans(s0: L.State, s: L.State, s': L.State, step: L.Step, t: nat, e: nat, arm: L.Option<nat>)
    requires Alone(s0, s, t, e, arm) && L.NextStep(s, s', step) && step.t == t && s.pcs[t].Scanning?
    ensures Alone(s0, s', t, e, arm)
  {
    if step.ScanEntry? { ScanStep(s.table, s.pcs[t].next, e, s.pcs[t].oldest); }
  }

  lemma AloneDrains(s0: L.State, s: L.State, s': L.State, step: L.Step, t: nat, e: nat, arm: L.Option<nat>)
    requires Alone(s0, s, t, e, arm) && L.NextStep(s, s', step) && step.t == t && !s.pcs[t].Scanning?
    requires !(step.RunAction? && step.stop)
    ensures Alone(s0, s', t, e, arm) || (DoneDraining(s0, s', e) && s'.pcs[t] == L.AfterDrain(arm))
  {
    match step
    case LoadSlot(_) => if !s.slots[s.pcs[t].idx].word.At? { SweptOne(s0, s, s', s.pcs[t].idx); }
    case CompareSafe(_) => if s'.pcs[t].Draining? { SweptOne(s0, s, s', s.pcs[t].idx); }
    case RunAction(_, _) =>
      assert s'.ran[|s.ran|] == s.pcs[t].act;
      SweptOne(s0, s, s', s.pcs[t].idx);
    case _ =>
  }

  /** One own step: on with it, or done. */
  lemma AloneStep(s0: L.State, s: L.State, s': L.State, step: L.Step, t: nat, e: nat, arm: L.Option<nat>)
    requires Alone(s0, s, t, e, arm) && L.NextStep(s, s', step) && step.t == t && !(step.RunAction? && step.stop)
    ensures Alone(s0, s', t, e, arm) || (DoneDraining(s0, s', e) && s'.pcs[t] == L.AfterDrain(arm))
  {
    if s.pcs[t].Scanning? {
      AloneScans(s0, s, s', step, t, e, arm);
    } else {
      AloneDrains(s0, s, s', step, t, e, arm);
    }
  }

  /** Thread t takes all the steps from i to j and does not stop early. */
  predicate AllBy(steps: seq<L.Step>, i: nat, j: nat, t: nat) {
    j <= |steps| && forall k | i <= k < j :: steps[k].t == t && !(steps[k].RunAction? && steps[k].stop)
  }

  lemma {:induction false} AloneLasts(run: seq<L.State>, steps: seq<L.Step>, n: nat, m: nat, i: nat, j: nat, t: nat,
                                      e: nat, arm: L.Option<nat>)
    requires L.IsRun(run, steps, n, m) && i <= j < |run| && AllBy(steps, i, j, t)
    requires t < |run[i].pcs| && run[i].pcs[t] == L.Scanning(0, e, arm)
    requires forall k | i < k <= j :: t < |run[k].pcs| && run[k].pcs[t] != L.AfterDrain(arm)
    ensures Alone(run[i], run[j], t, e, arm)
    decreases j
  {
    if i < j {
      AloneLasts(run, steps, n, m, i, j - 1, t, e, arm);
      assert L.NextStep(run[j - 1], run[j], steps[j - 1]);
      AloneStep(run[i], run[j - 1], run[j], steps[j - 1], t, e, arm);
    }
  }

  /** A thread begins to scan in state i and is through with draining in state j, alone. Then the safe epoch is one
      less than the oldest of its own and the protected epochs, and every action in the drain list that is older
      than all of them has run. */
  lemma DrainRunsAll(run: seq<L.State>, steps: seq<L.Step>, n: nat, m: nat, i: nat, j: nat, t: nat, e: nat,
                     arm: L.Option<nat>, k: nat)
    requires L.IsRun(run, steps, n, m) && i < j < |run| && AllBy(steps, i, j, t)
    requires t < |run[i].pcs| && run[i].pcs[t] == L.Scanning(0, e, arm)
    requires forall x | i < x <= j :: t < |run[x].pcs| && (run[x].pcs[t] == L.AfterDrain(arm) <==> x == j)
    ensures run[j].safe < e
    ensures forall u | 0 <= u < |run[i].table| && run[i].table[u] != 0 :: run[j].safe < run[i].table[u]
    ensures run[j].safe + 1 == e || exists u :: 0 <= u < |run[i].table| && run[i].table[u] == run[j].safe + 1
    ensures k < |run[i].slots| && run[i].slots[k].word.At? && run[i].slots[k].word.epoch < e
            && (forall u | 0 <= u < |run[i].table| && run[i].table[u] != 0 ::
                  run[i].slots[k].word.epoch < run[i].table[u])
            ==> run[i].slots[k].callback.Some? && run[i].slots[k].callback.value in run[j].ran
  {
    AloneLasts(run, steps, n, m, i, j - 1, t, e, arm);
    assert L.NextStep(run[j - 1], run[j], steps[j - 1]);
    AloneStep(run[i], run[j - 1], run[j], steps[j - 1], t, e, arm);
    if Alone(run[i], run[j], t, e, arm) { assert false; }
  }

  /** All protected epochs, as they are in state s, are above x. */
  predicate Outlived(s: L.State, x: nat) { forall u | 0 <= u < |s.table| && s.table[u] != 0 :: x < s.table[u] }

  /** ProtectAndDrain: if the thread is alone from storing its epoch until it is through, every action in the drain
      list that is older than all protected epochs has run. */
  lemma RefreshDrains(run: seq<L.State>, steps: seq<L.Step>, n: nat, m: nat, i: nat, j: nat, t: nat, k: nat)
    requires L.IsRun(run, steps, n, m) && i < j < |run| && steps[i] == L.StoreLocal(t, true) && AllBy(steps, i, j, t)
    requires forall x | i < x <= j :: t < |run[x].pcs| && (run[x].pcs[t].Idle? <==> x == j)
    requires k < |run[i].slots| && run[i].slots[k].word.At? && Outlived(run[i + 1], run[i].slots[k].word.epoch)
    ensures run[i].slots[k].callback.Some? && run[i].slots[k].callback.value in run[j].ran
  {
    L.RunInv(run, steps, n, m, i);
    assert L.NextStep(run[i], run[i + 1], steps[i]);
    var e := run[i].pcs[t].e;
    assert run[i + 1].table[t] == e && L.PcInv(run[i], run[i].pcs[t]);
    DrainRunsAll(run, steps, n, m, i + 1, j, t, e, L.None, k);
  }

  /** BumpCurrentEpoch drains likewise before it pushes its own action. */
  lemma BumpDrains(run: seq<L.State>, steps: seq<L.Step>, n: nat, m: nat, i: nat, j: nat, t: nat, k: nat)
    requires L.IsRun(run, steps, n, m) && i < j < |run| && steps[i] == L.Bump(t, true, true) && AllBy(steps, i, j, t)
    requires forall x | i < x <= j :: t < |run[x].pcs| && (run[x].pcs[t].Pushing? <==> x == j)
    requires k < |run[i].slots| && run[i].slots[k].word.At? && run[i].slots[k].word.epoch <= run[i].current
    requires Outlived(run[i], run[i].slots[k].word.epoch)
    ensures run[i].slots[k].callback.Some? && run[i].slots[k].callback.value in run[j].ran
    ensures run[j].pcs[t] == L.Pushing(0, run[i].current)
  {
    assert L.NextStep(run[i], run[i + 1], steps[i]);
    BumpEnds(run, steps, n, m, i, j, t);
    DrainRunsAll(run, steps, n, m, i + 1, j, t, run[i].current + 1, L.Some(run[i].current), k);
  }

  lemma BumpEnds(run: seq<L.State>, steps: seq<L.Step>, n: nat, m: nat, i: nat, j: nat, t: nat)
    requires L.IsRun(run, steps, n, m) && i < j < |run| && steps[i] == L.Bump(t, true, true) && AllBy(steps, i, j, t)
    requires forall x | i < x <= j :: t < |run[x].pcs| && (run[x].pcs[t].Pushing? <==> x == j)
    ensures i + 1 < j && run[i + 1].pcs[t] == L.Scanning(0, run[i].current + 1, L.Some(run[i].current))
    ensures run[j].pcs[t] == L.Pushing(0, run[i].current)
  {
    var arm := L.Some(run[i].current);
    assert L.NextStep(run[i], run[i + 1], steps[i]);
    AloneLasts(run, steps, n, m, i + 1, j - 1, t, run[i].current + 1, arm);
    assert L.NextStep(run[j - 1], run[j], steps[j - 1]);
    AloneStep(run[i + 1], run[j - 1], run[j], steps[j - 1], t, run[i].current + 1, arm);
  }
}
