/** What inserts and checkpoints leave behind in a run of `Checkpoint`: records, and the addresses and entries that
    a checkpoint takes down. */
module CheckpointRuns {
  import C = Checkpoint

  // ---------------------------------------------------------------- inserts

  /** Session t is in the insert it began in state s0. */
  predicate InsertOf(s0: C.State, s: C.State, t: nat, serial: C.Serial, keys: seq<nat>) {
    && t < |s.sessions| && !s.sessions[t].op.Idle? && s.sessions[t].op.serial == serial && s.sessions[t].op.keys == keys
    && |s0.slots| <= |s.slots|
    && (s.sessions[t].op.Candidate? || s.sessions[t].op.Linking? ==> |s0.slots| <= s.sessions[t].op.addr)
  }

  lemma InsertGoesOn(s0: C.State, s: C.State, s': C.State, step: C.Step, t: nat, serial: C.Serial, keys: seq<nat>)
    requires C.NextStep(s, s', step) && InsertOf(s0, s, t, serial, keys)
    requires t < |s'.sessions| && !s'.sessions[t].op.Idle?
    ensures InsertOf(s0, s', t, serial, keys)
  {
  }

  lemma {:induction false} InsertLasts(run: seq<C.State>, steps: seq<C.Step>, n: nat, k: nat, i: nat, j: nat, t: nat,
                                       serial: C.Serial, keys: seq<nat>)
    requires C.IsRun(run, steps, n, k) && i < j < |run| && steps[i] == C.Begin(t, serial, keys)
    requires forall m | i < m <= j :: t < |run[m].sessions| && !run[m].sessions[t].op.Idle?
    ensures InsertOf(run[i], run[j], t, serial, keys)
    decreases j
  {
    assert C.NextStep(run[i], run[i + 1], steps[i]);
    if i + 1 < j {
      InsertLasts(run, steps, n, k, i, j - 1, t, serial, keys);
      assert C.NextStep(run[j - 1], run[j], steps[j - 1]);
      InsertGoesOn(run[i], run[j - 1], run[j], steps[j - 1], t, serial, keys);
    }
  }

  lemma InsertEnds(s0: C.State, s: C.State, s': C.State, step: C.Step, t: nat, serial: C.Serial, keys: seq<nat>)
      returns (a: nat)
    requires C.Inv(s) && C.NextStep(s, s', step) && InsertOf(s0, s, t, serial, keys)
    requires t < |s'.sessions| && s'.sessions[t].op.Idle?
    ensures |s0.slots| <= a < |s'.slots| && s'.slots[a].Record?
    ensures s'.slots[a] == C.Record(t, serial, s'.slots[a].version, keys, |keys|, true)
    ensures s'.sessions[t].last == serial
  {
    assert C.OpOk(s.slots, |s.entries|, t, s.sessions[t], C.VersionOf(s, t));
    a := s.sessions[t].op.addr;
  }

  lemma EntriesReach(slots: seq<C.Slot>, entries: seq<C.Entry>, a: nat, keys: seq<nat>)
    requires forall k | 0 <= k < |entries| :: C.EntryOk(slots, k, entries[k])
    requires a < |slots| && slots[a].Record? && slots[a].keys == keys && slots[a].linked == |keys|
    requires forall x | 0 <= x < |keys| :: keys[x] < |entries|
    ensures forall x | 0 <= x < |keys| :: C.Reaches(entries[keys[x]], a, x)
  {
    forall x | 0 <= x < |keys| ensures C.Reaches(entries[keys[x]], a, x) {
      assert C.EntryOk(slots, keys[x], entries[keys[x]]);
    }
  }

  lemma RunEntries(run: seq<C.State>, steps: seq<C.Step>, n: nat, k: nat, i: nat)
    requires C.IsRun(run, steps, n, k) && i < |run|
    ensures forall x | 0 <= x < |run[i].entries| :: C.EntryOk(run[i].slots, x, run[i].entries[x])
  {
    C.RunInv(run, steps, n, k, i);
  }

  /** An insert that has finished, with whatever phases and inserts beside it, has left one new record with its
      serial number and keys, valid, with every key's entry at or above it; and its session has it as its last. */
  lemma InsertFinished(run: seq<C.State>, steps: seq<C.Step>, n: nat, k: nat, i: nat, j: nat, t: nat, serial: C.Serial,
                       keys: seq<nat>) returns (a: nat)
    requires C.IsRun(run, steps, n, k) && i + 1 < j < |run| && steps[i] == C.Begin(t, serial, keys)
    requires forall m | i < m <= j :: t < |run[m].sessions| && (run[m].sessions[t].op.Idle? <==> m == j)
    ensures |run[i].slots| <= a < |run[j].slots| && run[j].slots[a].Record? && run[j].sessions[t].last == serial
    ensures run[j].slots[a] == C.Record(t, serial, run[j].slots[a].version, keys, |keys|, true)
    ensures forall x | 0 <= x < |keys| :: keys[x] < |run[j].entries| && C.Reaches(run[j].entries[keys[x]], a, x)
  {
    InsertLasts(run, steps, n, k, i, j - 1, t, serial, keys);
    a := LastStep(run, steps, n, k, run[i], j, t, serial, keys);
    RunEntries(run, steps, n, k, j);
    EntriesReach(run[j].slots, run[j].entries, a, keys);
  }

  lemma KeysInRange(s: C.State, s': C.State, step: C.Step, t: nat)
    requires C.Inv(s) && C.NextStep(s, s', step) && t < |s.sessions| && !s.sessions[t].op.Idle?
    ensures forall x | 0 <= x < |s.sessions[t].op.keys| :: s.sessions[t].op.keys[x] < |s'.entries|
  {
    assert C.OpOk(s.slots, |s.entries|, t, s.sessions[t], C.VersionOf(s, t));
  }

  lemma LastStep(run: seq<C.State>, steps: seq<C.Step>, n: nat, k: nat, s0: C.State, j: nat, t: nat, serial: C.Serial,
                 keys: seq<nat>) returns (a: nat)
    requires C.IsRun(run, steps, n, k) && 0 < j < |run| && InsertOf(s0, run[j - 1], t, serial, keys)
    requires t < |run[j].sessions| && run[j].sessions[t].op.Idle?
    ensures |s0.slots| <= a < |run[j].slots| && run[j].slots[a].Record? && run[j].sessions[t].last == serial
    ensures run[j].slots[a] == C.Record(t, serial, run[j].slots[a].version, keys, |keys|, true)
    ensures forall x | 0 <= x < |keys| :: keys[x] < |run[j].entries|
  {
    C.RunInv(run, steps, n, k, j - 1);
    assert C.NextStep(run[j - 1], run[j], steps[j - 1]);
    KeysInRange(run[j - 1], run[j], steps[j - 1], t);
    a := InsertEnds(s0, run[j - 1], run[j], steps[j - 1], t, serial, keys);
  }

  lemma ValidStep(s: C.State, s': C.State, step: C.Step, a: nat)
    requires C.Inv(s) && C.NextStep(s, s', step) && a < |s.slots| && s.slots[a].Record? && s.slots[a].valid
    ensures a < |s'.slots| && s'.slots[a] == s.slots[a]
  {
    if C.InsertKind(step) {
      assert C.OpOk(s.slots, |s.entries|, step.t, s.sessions[step.t], C.VersionOf(s, step.t));
    }
  }

  /** A valid record stays as it is. */
  lemma {:induction false} ValidStays(run: seq<C.State>, steps: seq<C.Step>, n: nat, k: nat, i: nat, j: nat, a: nat)
    requires C.IsRun(run, steps, n, k) && i <= j < |run| && a < |run[i].slots|
    requires run[i].slots[a].Record? && run[i].slots[a].valid
    ensures a < |run[j].slots| && run[j].slots[a] == run[i].slots[a]
    decreases j
  {
    if i < j {
      ValidStays(run, steps, n, k, i, j - 1, a);
      C.RunInv(run, steps, n, k, j - 1);
      assert C.NextStep(run[j - 1], run[j], steps[j - 1]);
      ValidStep(run[j - 1], run[j], steps[j - 1], a);
    }
  }

  // ---------------------------------------------------------------- what a checkpoint takes down

  /** checkpoint_start_address is the tail when it was taken. */
  lemma {:induction false} StartIsTail(run: seq<C.State>, steps: seq<C.Step>, n: nat, k: nat, i: nat, j: nat)
    requires C.IsRun(run, steps, n, k) && i < j < |run| && steps[i].TakeStart?
    requires forall m | i < m < j :: !steps[m].TakeStart? && !(steps[m].Phase? && steps[m].p.Start?)
    ensures run[j].index.prepared && run[j].index.start == |run[i].slots|
    decreases j
  {
    assert C.NextStep(run[j - 1], run[j], steps[j - 1]);
    if i + 1 < j { StartIsTail(run, steps, n, k, i, j - 1); }
  }

  /** final_address is the tail when it was taken, and stays until the next action. */
  lemma {:induction false} FinalIsTail(run: seq<C.State>, steps: seq<C.Step>, n: nat, k: nat, i: nat, j: nat)
    requires C.IsRun(run, steps, n, k) && i < j < |run| && run[i].log.final.NotSet? && run[i + 1].log.final.Tail?
    requires forall m | i < m < j :: !(steps[m].Phase? && (steps[m].p.Start? || steps[m].p.Effect?))
    ensures run[j].log.final == C.Tail(|run[i].slots|)
    decreases j
  {
    assert C.NextStep(run[j - 1], run[j], steps[j - 1]);
    if i + 1 < j { FinalIsTail(run, steps, n, k, i, j - 1); }
  }

  /** A copied entry is the entry as it was then. */
  lemma CopiesEntry(run: seq<C.State>, steps: seq<C.Step>, n: nat, k: nat, i: nat, x: nat)
    requires C.IsRun(run, steps, n, k) && i < |steps| && x < |run[i].index.snap| == |run[i + 1].index.snap|
    requires run[i].index.snap[x] != run[i + 1].index.snap[x] && run[i + 1].index.snap[x].Copied?
    ensures x < |run[i].entries| && run[i + 1].index.snap[x].entry == run[i].entries[x]
  {
    assert C.NextStep(run[i], run[i + 1], steps[i]);
  }
}
