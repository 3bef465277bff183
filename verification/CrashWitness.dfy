/** The results of `RunRecovery` are about something: one session starts a full checkpoint, inserts a record
    behind checkpoint_start_address and takes the checkpoint through to its written context. */
module CrashWitness {
  import C = Checkpoint
  import H = HashChain
  import P = PhaseSpec
  import R = Recovery
  import T = TailAllocator
  import X = RunRecovery

  // ---------------------------------------------------------------- the checkpoint

  ghost predicate Reachable(s: C.State) {
    exists run, steps :: C.IsRun(run, steps, 1, 1) && run[|run| - 1] == s
  }

  lemma Then(s: C.State, step: C.Step, s': C.State)
    requires Reachable(s) && C.NextStep(s, s', step)
    ensures Reachable(s')
  {
    var run, steps :| C.IsRun(run, steps, 1, 1) && run[|run| - 1] == s;
    var run', steps' := run + [s'], steps + [step];
    forall i | 0 <= i < |steps'| ensures C.NextStep(run'[i], run'[i + 1], steps'[i]) {
      if i < |steps| { assert C.NextStep(run[i], run[i + 1], steps[i]); }
    }
    assert C.IsRun(run', steps', 1, 1);
  }

  function Cfg(): P.Config { P.Config(8, 4, [true, true, false, true, true, true, true, true]) }

  /** A full checkpoint at a position, with its one session. */
  function At(pos: nat, starting: bool, me: P.Session): P.State { P.State(Cfg(), 1, pos, true, starting, [me], 0) }

  predicate Full(s: C.State) {
    && s.kind.Full? && s.ph.cfg == Cfg()
    && |s.sessions| == |s.ph.sessions| == |s.log.tokens| == 1 && s.sessions[0].op.Idle?
  }

  /** The phase step does nothing to the checkpoint. */
  predicate Plain(s: C.State, p: P.Step)
    requires |s.ph.sessions| == 1
  {
    var k := s.ph.sessions[0].k;
    && !p.Start? && !p.Publish? && p.t == 0
    && (p.Ack? ==> k != 2 && k != 4 && k != 6) && (p.Direct? ==> k != 2) && (p.Effect? ==> k != 1 && k != 5)
  }

  lemma ThenPhase(s: C.State, p: P.Step, h: P.State) returns (s': C.State)
    requires Reachable(s) && Full(s) && Plain(s, p) && P.NextStep(s.ph, h, p)
    ensures s' == s.(ph := h) && Reachable(s')
  {
    s' := s.(ph := h);
    Then(s, C.Phase(p, C.Full), s');
  }

  /** The session learns of position k. */
  lemma Enters(s: C.State, k: nat, a: nat) returns (s': C.State)
    requires Reachable(s) && Full(s) && 1 <= k <= 6
    requires s.ph == At(k, false, P.Session(P.Working, k - 1, k - 1, k - 1, a))
    ensures Reachable(s') && s' == s.(ph := At(k, false, P.Session(P.Handling, k - 1, k, k, a)))
  {
    var b := ThenPhase(s, P.Refresh(0, true), At(k, false, P.Session(P.Entering, k - 1, k - 1, k - 1, a)));
    s' := ThenPhase(b, P.LoadFinal(0), At(k, false, P.Session(P.Handling, k - 1, k, k, a)));
  }

  /** Having acknowledged it, the session moves the system on. */
  lemma Moves(s: C.State, k: nat, c: nat) returns (s': C.State)
    requires Reachable(s) && Full(s) && 1 <= k <= 6 && s.ph == At(k, false, P.Session(P.Scanning(0), c, k, k, k))
    ensures Reachable(s') && s' == s.(ph := At(k + 1, false, P.Session(P.Won, c, k, k, k)))
  {
    var b := ThenPhase(s, P.Compare(0), At(k, false, P.Session(P.Scanning(1), c, k, k, k)));
    var d := ThenPhase(b, P.Compare(0), At(k, false, P.Session(P.Moving, c, k, k, k)));
    s' := ThenPhase(d, P.Move(0), At(k + 1, false, P.Session(P.Won, c, k, k, k)));
  }

  lemma Closes(s: C.State, k: nat, c: nat, a: nat) returns (s': C.State)
    requires Reachable(s) && Full(s) && 1 <= k <= 6 && s.ph == At(k + 1, false, P.Session(P.Closing, c, k, k, a))
    ensures Reachable(s') && s' == s.(ph := At(k + 1, false, P.Session(P.Working, k, k, k, a)))
  {
    s' := ThenPhase(s, P.Close(0), At(k + 1, false, P.Session(P.Working, k, k, k, a)));
  }

  lemma Leaves(s: C.State, k: nat, c: nat) returns (s': C.State)
    requires Reachable(s) && Full(s) && 1 <= k <= 6 && k != 1 && k != 5
    requires s.ph == At(k, false, P.Session(P.Scanning(0), c, k, k, k))
    ensures Reachable(s') && s' == s.(ph := At(k + 1, false, P.Session(P.Working, k, k, k, k)))
  {
    var b := Moves(s, k, c);
    var d := ThenPhase(b, P.Effect(0), At(k + 1, false, P.Session(P.Closing, c, k, k, k)));
    s' := Closes(d, k, c, k);
  }

  // ---------------------------------------------------------------- step by step

  /** The record of the one insert. */
  function TheRecord(linked: nat, valid: bool): C.Slot { C.Record(0, C.Serial(1, 0), 1, [0], linked, valid) }

  function Inserted(): C.Session { C.Session(C.Idle, C.Serial(1, 0), C.Serial(0, 0), 0, map[C.Serial(1, 0) := 0]) }

  lemma Begins() returns (s: C.State)
    ensures Reachable(s) && C.Init(s, 1, 1)
  {
    var h := P.State(P.Config(2, 100, [true, true]), 1, 2, false, false, [P.Session(P.Working, 2, 2, 2, 1)], 0);
    var me := C.Session(C.Idle, C.Serial(0, 0), C.Serial(0, 0), 0, map[]);
    s := C.State(h, C.Other, [], [C.Unused], [me], C.IndexImage(0, false, 0, [C.Unread], C.Waiting),
                 C.LogImage(0, C.NotSet, [C.NotWritten]));
    assert C.IsRun([s], [], 1, 1);
  }

  lemma Starts() returns (s: C.State)
    ensures Reachable(s)
    ensures s == C.State(At(1, false, P.Session(P.Working, 0, 0, 0, 0)), C.Full, [], [C.Unused],
                         [C.Session(C.Idle, C.Serial(0, 0), C.Serial(0, 0), 0, map[])],
                         C.IndexImage(1, true, 0, [C.Unread], C.Waiting), C.LogImage(1, C.NotSet, [C.NotWritten]))
  {
    var a := Begins();
    var b := a.(ph := At(0, true, P.Session(P.Working, 0, 0, 0, 0)), kind := C.Full,
                index := C.IndexImage(1, false, 0, [C.Unread], C.Waiting),
                log := C.LogImage(1, C.NotSet, [C.NotWritten]));
    Then(a, C.Phase(P.Start(Cfg()), C.Full), b);
    var c := b.(index := C.IndexImage(1, true, 0, [C.Unread], C.Waiting));
    Then(b, C.TakeStart, c);
    s := c.(ph := At(1, false, P.Session(P.Working, 0, 0, 0, 0)));
    Then(c, C.Phase(P.Publish, C.Full), s);
  }

  lemma Stamps() returns (s: C.State)
    ensures Reachable(s)
    ensures s == C.State(At(1, false, P.Session(P.Working, 0, 0, 0, 0)), C.Full, [TheRecord(0, false)], [C.Unused],
                         [C.Session(C.Linking(C.Serial(1, 0), [0], 0), C.Serial(0, 0), C.Serial(0, 0), 0, map[])],
                         C.IndexImage(1, true, 0, [C.Unread], C.Waiting), C.LogImage(1, C.NotSet, [C.NotWritten]))
  {
    var a := Starts();
    var serial, me := C.Serial(1, 0), a.sessions[0];
    var b := a.(sessions := [me.(op := C.Inserting(serial, [0]))]);
    Then(a, C.Begin(0, serial, [0]), b);
    var c := a.(sessions := [me.(op := C.Candidate(serial, [0], 0))], slots := [C.Reserved(0)]);
    Then(b, C.Reserve(0), c);
    s := a.(sessions := [me.(op := C.Linking(serial, [0], 0))], slots := [TheRecord(0, false)]);
    Then(c, C.Stamp(0), s);
  }

  lemma Inserts() returns (s: C.State)
    ensures Reachable(s)
    ensures s == C.State(At(1, false, P.Session(P.Working, 0, 0, 0, 0)), C.Full, [TheRecord(1, true)], [C.Head(0, 0)],
                         [Inserted()], C.IndexImage(1, true, 0, [C.Unread], C.Waiting),
                         C.LogImage(1, C.NotSet, [C.NotWritten]))
  {
    var a := Stamps();
    var b := a.(slots := [TheRecord(1, false)], entries := [C.Head(0, 0)]);
    Then(a, C.Link(0), b);
    s := b.(sessions := [Inserted()], slots := [TheRecord(1, true)]);
    Then(b, C.Finish(0), s);
  }

  /** Position 1, PREP_INDEX_CHKPT; then the index is copied. */
  lemma CopiesIndex() returns (s: C.State)
    ensures Reachable(s)
    ensures s == C.State(At(2, false, P.Session(P.Working, 1, 1, 1, 1)), C.Full, [TheRecord(1, true)], [C.Head(0, 0)],
                         [Inserted()], C.IndexImage(1, true, 0, [C.Copied(C.Head(0, 0))], C.Done),
                         C.LogImage(1, C.NotSet, [C.NotWritten]))
  {
    var a := Inserts();
    var b := Enters(a, 1, 0);
    var c := ThenPhase(b, P.Ack(0), At(1, false, P.Session(P.Scanning(0), 0, 1, 1, 1)));
    var d := Moves(c, 1, 0);
    var e := d.(ph := At(2, false, P.Session(P.Closing, 0, 1, 1, 1)), index := d.index.(progress := C.Running));
    Then(d, C.Phase(P.Effect(0), C.Full), e);
    var f := Closes(e, 1, 0, 1);
    var g := f.(index := f.index.(snap := [C.Copied(C.Head(0, 0))]));
    Then(f, C.CopyEntry(0), g);
    s := g.(index := g.index.(progress := C.Done));
    Then(g, C.CopyDone, s);
  }

  /** Position 2, INDEX_CHKPT, which is no barrier. */
  lemma LeavesIndex(s: C.State) returns (s': C.State)
    requires Reachable(s) && Full(s) && s.ph == At(2, false, P.Session(P.Working, 1, 1, 1, 1)) && s.index.progress.Done?
    ensures Reachable(s') && s' == s.(ph := At(3, false, P.Session(P.Working, 2, 2, 2, 1)))
  {
    var a := Enters(s, 2, 1);
    var b := s.(ph := At(2, false, P.Session(P.Moving, 1, 2, 2, 1)));
    Then(a, C.Phase(P.Direct(0), C.Full), b);
    var c := ThenPhase(b, P.Move(0), At(3, false, P.Session(P.Won, 1, 2, 2, 1)));
    var d := ThenPhase(c, P.Effect(0), At(3, false, P.Session(P.Closing, 1, 2, 2, 1)));
    s' := Closes(d, 2, 1, 1);
  }

  /** Positions 3 and 4, PREPARE and IN_PROGRESS, where the context is saved. */
  lemma Saves(s: C.State) returns (s': C.State)
    requires Reachable(s) && Full(s) && s.ph == At(3, false, P.Session(P.Working, 2, 2, 2, 1))
    ensures Reachable(s')
    ensures s' == s.(ph := At(5, false, P.Session(P.Working, 4, 4, 4, 4)),
                     sessions := [s.sessions[0].(saved := s.sessions[0].last, savedVersion := 1)])
  {
    var a := Enters(s, 3, 1);
    var b := ThenPhase(a, P.Ack(0), At(3, false, P.Session(P.Scanning(0), 2, 3, 3, 3)));
    var c := Leaves(b, 3, 2);
    var d := Enters(c, 4, 3);
    var e := d.(ph := At(4, false, P.Session(P.Scanning(0), 4, 4, 4, 4)),
                sessions := [s.sessions[0].(saved := s.sessions[0].last, savedVersion := 1)]);
    Then(d, C.Phase(P.Ack(0), C.Full), e);
    s' := Leaves(e, 4, 4);
  }

  /** Position 5, WAIT_PENDING, behind which final_address is taken, and 6, where the context is written. */
  lemma Writes(s: C.State) returns (s': C.State)
    requires Reachable(s) && Full(s) && s.ph == At(5, false, P.Session(P.Working, 4, 4, 4, 4))
    ensures Reachable(s')
    ensures s' == s.(ph := At(6, false, P.Session(P.Scanning(0), 5, 6, 6, 6)),
                     log := s.log.(final := C.Tail(|s.slots|), tokens := [C.Written(s.sessions[0].saved)]))
  {
    var a := Enters(s, 5, 4);
    var b := ThenPhase(a, P.Ack(0), At(5, false, P.Session(P.Scanning(0), 4, 5, 5, 5)));
    var c := Moves(b, 5, 4);
    var d := c.(ph := At(6, false, P.Session(P.Closing, 4, 5, 5, 5)), log := s.log.(final := C.Tail(|s.slots|)));
    Then(c, C.Phase(P.Effect(0), C.Full), d);
    var e := Closes(d, 5, 4, 5);
    var f := Enters(e, 6, 5);
    s' := f.(ph := At(6, false, P.Session(P.Scanning(0), 5, 6, 6, 6)),
             log := f.log.(tokens := [C.Written(s.sessions[0].saved)]));
    Then(f, C.Phase(P.Ack(0), C.Full), s');
  }

  /** A complete checkpoint of a record. */
  lemma Checkpointed() returns (s: C.State)
    ensures Reachable(s) && s.slots == [TheRecord(1, true)]
    ensures s.index == C.IndexImage(1, true, 0, [C.Copied(C.Head(0, 0))], C.Done)
    ensures s.log == C.LogImage(1, C.Tail(1), [C.Written(C.Serial(1, 0))])
  {
    var a := CopiesIndex();
    var b := LeavesIndex(a);
    var c := Saves(b);
    s := Writes(c);
  }

  // ---------------------------------------------------------------- chains and addresses

  /** The memory as the insert leaves it step by step: before, allocated, constructed, linked. */
  function Memory(i: nat): H.Memory {
    if i == 0 then H.Memory(map[], map[], {}, 64)
    else if i == 1 then Memory(0).(tail := 88)
    else if i == 2 then Memory(1).(kpts := Memory(1).kpts[72 := H.KeyPointer(0, 1)])
    else Memory(2).(heads := Memory(2).heads[0 := 72], linked := Memory(2).linked + {72})
  }

  function Records(): map<nat, H.Record> { (map[])[64 := H.Record([0], true)] }

  lemma ReachesRecord() returns (s: seq<H.State>)
    ensures |s| == 4 && H.Init(s[0], 1)
    ensures s[3] == H.State(Memory(1), Records(), [H.Thread(H.Construct, [0], [1], 64, 0)])
    ensures H.NextStep(s[0], s[1], H.Insert(0, [0])) && H.NextStep(s[1], s[2], H.Find(0))
    ensures H.NextStep(s[2], s[3], H.Allocate(0, 0, 24))
  {
    s := [H.State(Memory(0), map[], [H.Thread(H.Idle, [], [], 0, 0)]),
          H.State(Memory(0), map[], [H.Thread(H.Finding, [0], [], 0, 0)]),
          H.State(Memory(0), map[], [H.Thread(H.Finding, [0], [1], 0, 0)]),
          H.State(Memory(1), Records(), [H.Thread(H.Construct, [0], [1], 64, 0)])];
    assert [] + [H.Head(Memory(0), 0)] == [1];
  }

  lemma Links() returns (s4: H.State, s5: H.State, s6: H.State)
    ensures H.NextStep(H.State(Memory(1), Records(), [H.Thread(H.Construct, [0], [1], 64, 0)]), s4, H.Act(0))
    ensures H.NextStep(s4, s5, H.Act(0)) && H.NextStep(s5, s6, H.Act(0))
    ensures s6.m == Memory(3) && s6.records == Records()[64 := H.Record([0], false)]
  {
    s4 := H.State(Memory(2), Records(), [H.Thread(H.SwapHead(1), [0], [1], 64, 0)]);
    s5 := H.State(Memory(3), Records(), [H.Thread(H.Publish, [0], [1], 64, 1)]);
    s6 := H.State(Memory(3), Records()[64 := H.Record([0], false)], [H.Thread(H.Idle, [0], [1], 64, 1)]);
  }

  /** The same insert on its chain. */
  lemma Chains() returns (run: seq<H.State>, steps: seq<H.Step>)
    ensures H.IsRun(run, steps, 1) && |run| == 7
    ensures run[6].m == Memory(3) && run[6].records == Records()[64 := H.Record([0], false)]
  {
    var s := ReachesRecord();
    var s4, s5, s6 := Links();
    run := s + [s4, s5, s6];
    steps := [H.Insert(0, [0]), H.Find(0), H.Allocate(0, 0, 24), H.Act(0), H.Act(0), H.Act(0)];
    forall i | 0 <= i < 6 ensures H.NextStep(run[i], run[i + 1], steps[i]) {
      assert i == 0 || i == 1 || i == 2 || i == 3 || i == 4 || i == 5;
    }
  }

  /** And in the log. */
  lemma Tails() returns (run: seq<T.State>, steps: seq<T.Step>)
    ensures T.IsRun(run, steps, 1) && |run| == 3 && run[1].blocks == [T.Block(0, 64)]
    ensures run[2].blocks == [T.Block(0, 64), T.Block(64, 24)]
    ensures forall i | 0 <= i < |steps| && steps[i].Reserve? :: T.Eights(steps[i].slots)
    ensures T.GetTailAddress(run[1].word) == 64 && T.GetTailAddress(run[2].word) == 88
  {
    var s0 := T.State(0, [T.Ready], [], {});
    var s1 := s0.(word := 64, blocks := [T.Block(0, 64)]);
    var s2 := s0.(word := 88, blocks := [T.Block(0, 64), T.Block(64, 24)]);
    run, steps := [s0, s1, s2], [T.Reserve(0, 64), T.Reserve(0, 24)];
    assert T.NextStep(s0, s1, steps[0]) && T.NextStep(s1, s2, steps[1]);
  }

  // ---------------------------------------------------------------- the crash

  function TheLog(): R.Log { map[64 := R.Record(1, false, [R.KeyPointer(0, R.End)], 24)] }

  lemma ImageHolds(s: H.State)
    requires s.m == Memory(3) && s.records == Records()[64 := H.Record([0], false)]
    ensures X.Image(s, TheLog())
  {
    assert X.Stands(s, H.NOWHERE, R.End);
    assert X.PointerImage(s, 64, 0, TheLog()[64].kpts[0]);
  }

  lemma PlacedHolds(blocks: seq<T.Block>)
    requires blocks == [T.Block(0, 64), T.Block(64, 24)]
    ensures X.Placed([TheRecord(1, true)], blocks, TheLog())
  {
    assert X.Where(blocks, 0) == 64;
  }

  /** There is an execution and a crash as RecoverRun asks for, with a durable record in the range to be
      replayed and its session's context written. */
  lemma Crashes() returns (x: X.Execution, cut: X.Cut, log: R.Log)
    ensures X.CrashedAt(x, cut, log) && log == TheLog()
    ensures X.TailAt(x, cut.start) == 64 && X.TailAt(x, cut.final) == 88
    ensures var s := x.check[cut.check];
            s.slots == [TheRecord(1, true)] && X.Durable(s, 0) && s.log.tokens == [C.Written(C.Serial(1, 0))]
  {
    var s := Checkpointed();
    var check, checkSteps :| C.IsRun(check, checkSteps, 1, 1) && check[|check| - 1] == s;
    var chains, chainSteps := Chains();
    var tails, tailSteps := Tails();
    x := X.Execution(check, checkSteps, chains, chainSteps, tails, tailSteps, 1, 1);
    cut := X.Cut(|check| - 1, 6, 2, 1, 2);
    log := TheLog();
    ImageHolds(chains[6]);
    PlacedHolds(tails[2].blocks);
  }
}
