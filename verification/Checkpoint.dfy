/** Checkpointing while sessions insert (src/core/fishstore.h: Insert, InternalInsert, BlockAllocate,
    HandleSpecialPhases, GlobalMoveToNextState, Checkpoint, CheckpointIndex, CheckpointHybridLog).

    The phase protocol is PhaseSpec; this module adds what the phases do to the log and the index.
    Log addresses are numbered in allocation order. A session may run phase steps only where the code
    calls Refresh: between inserts, and inside BlockAllocate before a slot is accepted. A slot that
    BlockAllocate gives up stays behind as a hole.

    One key stands for one (bucket, tag) entry; HashChain shows that the entry is the highest key
    pointer linked to its chain. */
module Checkpoint {
  import M = PhaseMachine
  import P = PhaseSpec

  // ---------------------------------------------------------------- state

  /** (serial_num, offset) of an insert, ordered lexicographically. */
  datatype Serial = Serial(num: nat, offset: nat)

  predicate Less(a: Serial, b: Serial) { a.num < b.num || (a.num == b.num && a.offset < b.offset) }
  predicate AtMost(a: Serial, b: Serial) { a == b || Less(a, b) }

  /** A reserved slot remembers who reserved it. `linked` counts the key pointers already on their chains. */
  datatype Slot =
    | Reserved(holder: nat)
    | Record(owner: nat, serial: Serial, version: nat, keys: seq<nat>, linked: nat, valid: bool)

  datatype Op =
    | Idle
    | Inserting(serial: Serial, keys: seq<nat>)
    | Candidate(serial: Serial, keys: seq<nat>, addr: nat)
    | Linking(serial: Serial, keys: seq<nat>, addr: nat)

  /** `last` and `saved` are (serial_num, offset) of the present and the previous context, savedVersion
      the previous context's version. `where` is history: the address of each finished insert. */
  datatype Session = Session(op: Op, last: Serial, saved: Serial, savedVersion: nat, where: map<Serial, nat>)

  /** An entry points at key pointer `ptr` of the record at `address`. */
  datatype Entry = Unused | Head(address: nat, ptr: nat)

  /** Key pointer i of the record at a is at or below the entry. */
  predicate Reaches(e: Entry, a: nat, i: nat) { e.Head? && (a < e.address || (a == e.address && i <= e.ptr)) }

  datatype Copy = Unread | Copied(entry: Entry)
  datatype Progress = Waiting | Running | Done

  /** The fuzzy index checkpoint: checkpoint_start_address and the entries copied so far. */
  datatype IndexImage = IndexImage(version: nat, prepared: bool, start: nat, snap: seq<Copy>, progress: Progress)

  datatype Final = NotSet | Tail(address: nat)
  datatype Token = NotWritten | Written(serial: Serial)

  /** The log checkpoint: final_address and the contexts written so far. */
  datatype LogImage = LogImage(version: nat, final: Final, tokens: seq<Token>)

  datatype Kind = Full | Index | HybridLog | Other

  datatype State = State(
    ph: P.State, kind: Kind, slots: seq<Slot>, entries: seq<Entry>, sessions: seq<Session>,
    index: IndexImage, log: LogImage)

  predicate TakesIndex(kind: Kind) { kind.Full? || kind.Index? }
  predicate TakesLog(kind: Kind) { kind.Full? || kind.HybridLog? }

  /** The shapes of the actions (PhaseMachine.ConfigOf): where the version moves, and which positions
      are barriers. INDEX_CHKPT is position 2 of Full and Index. */
  predicate Shape(kind: Kind, cfg: P.Config) {
    && P.ValidConfig(cfg) && cfg.barrier[1]
    && (kind.Full? ==> cfg.length == 8 && cfg.shift == 4 && forall k | 3 <= k < 8 :: cfg.barrier[k])
    && (kind.Index? ==> cfg.length == 3 && cfg.shift > 3)
    && (kind.HybridLog? ==> cfg.length == 6 && cfg.shift == 2 && forall k | 1 <= k < 6 :: cfg.barrier[k])
    && (kind.Other? ==> cfg.shift > cfg.length)
  }

  function KindOf(a: M.Action): Kind {
    if a.CheckpointFull? then Full
    else if a.CheckpointIndex? then Index
    else if a.CheckpointHybridLog? then HybridLog
    else Other
  }

  /** The shapes are those of the code's actions, and position k is the state k transitions after REST
      (PhaseMachine.Later): a log checkpoint's context is saved on IN_PROGRESS, its final_address taken on the
      way from WAIT_PENDING to WAIT_FLUSH, its contexts written in WAIT_FLUSH; an index checkpoint begins copying
      behind PREP_INDEX_CHKPT and copies in INDEX_CHKPT. */
  lemma ShapesCovered(a: M.Action, v: nat)
    requires M.Startable(a)
    ensures Shape(KindOf(a), M.ConfigOf(a))
    ensures TakesLog(KindOf(a)) ==>
              var shift := M.ConfigOf(a).shift;
              && M.Later(a, v, shift - 1) == M.SystemState(a, M.PREPARE, v)
              && M.Later(a, v, shift) == M.SystemState(a, M.IN_PROGRESS, v + 1)
              && M.Later(a, v, shift + 1) == M.SystemState(a, M.WAIT_PENDING, v + 1)
              && M.Later(a, v, shift + 2) == M.SystemState(a, M.WAIT_FLUSH, v + 1)
              && M.Later(a, v, shift + 3) == M.SystemState(a, M.PERSISTENCE_CALLBACK, v + 1)
              && M.ConfigOf(a).length == shift + 4
    ensures TakesIndex(KindOf(a)) ==>
              && M.Later(a, v, 1) == M.SystemState(a, M.PREP_INDEX_CHKPT, v)
              && M.Later(a, v, 2) == M.SystemState(a, M.INDEX_CHKPT, v)
  {
    M.FullPhases(v);
    M.LogPhases(v);
    M.OtherPhases(v);
    var p := M.Path(a);
    M.TableIsTable(a, 0);
    assert M.Barrier(a, p[1]);
  }

  function VersionOf(s: State, t: nat): nat
    requires t < |s.ph.sessions|
  {
    P.VersionAt(s.ph, s.ph.sessions[t].c)
  }

  predicate Init(s: State, n: nat, keys: nat) {
    && P.Init(s.ph, n) && s.kind.Other? && s.slots == []
    && s.entries == seq(keys, _ => Unused)
    && s.sessions == seq(n, _ => Session(Idle, Serial(0, 0), Serial(0, 0), 0, map[]))
    && s.index == IndexImage(0, false, 0, seq(keys, _ => Unread), Waiting)
    && s.log == LogImage(0, NotSet, seq(n, _ => NotWritten))
  }

  // ---------------------------------------------------------------- steps

  datatype Step =
    | Phase(p: P.Step, kind: Kind)
    | TakeStart
    | CopyEntry(k: nat)
    | CopyDone
    | Begin(t: nat, serial: Serial, keys: seq<nat>)
    | Reserve(t: nat)
    | Drop(t: nat)
    | Stamp(t: nat)
    | Link(t: nat)
    | Finish(t: nat)

  predicate NextStep(s: State, s': State, step: Step) {
    match step
    case Phase(p, kind) => PhaseStep(s, s', p, kind)
    case TakeStart =>
      && s.ph.starting && TakesIndex(s.kind)
      && s' == s.(index := s.index.(prepared := true, start := |s.slots|))
    case CopyEntry(k) =>
      && s.index.progress.Running? && k < |s.entries| == |s.index.snap|
      && s' == s.(index := s.index.(snap := s.index.snap[k := Copied(s.entries[k])]))
    case CopyDone =>
      && s.index.progress.Running? && (forall k | 0 <= k < |s.index.snap| :: s.index.snap[k].Copied?)
      && s' == s.(index := s.index.(progress := Done))
    case _ =>
      && step.t < |s.sessions| == |s.ph.sessions| && s.ph.sessions[step.t].pc.Working?
      && InsertStep(s, s', step, step.t, s.sessions[step.t])
  }

  function Put(s: State, t: nat, me: Session): State
    requires t < |s.sessions|
  {
    s.(sessions := s.sessions[t := me])
  }

  predicate InsertStep(s: State, s': State, step: Step, t: nat, me: Session)
    requires t < |s.sessions| == |s.ph.sessions|
    requires !step.Phase? && !step.TakeStart? && !step.CopyEntry? && !step.CopyDone?
  {
    match step
    case Begin(_, serial, keys) =>
      && me.op.Idle? && Less(me.last, serial) && (forall i | 0 <= i < |keys| :: keys[i] < |s.entries|)
      && s' == Put(s, t, me.(op := Inserting(serial, keys)))
    case Reserve(_) =>
      && me.op.Inserting?
      && s' == Put(s, t, me.(op := Candidate(me.op.serial, me.op.keys, |s.slots|))).(slots := s.slots + [Reserved(t)])
    case Drop(_) =>
      && me.op.Candidate?
      && s' == Put(s, t, me.(op := Inserting(me.op.serial, me.op.keys)))
    case Stamp(_) =>
      && me.op.Candidate? && me.op.addr < |s.slots|
      && s' == Put(s, t, me.(op := Linking(me.op.serial, me.op.keys, me.op.addr)))
                 .(slots := s.slots[me.op.addr := Record(t, me.op.serial, VersionOf(s, t), me.op.keys, 0, false)])
    case Link(_) =>
      && me.op.Linking? && me.op.addr < |s.slots| && s.slots[me.op.addr].Record?
      && var a, r := me.op.addr, s.slots[me.op.addr];
         && r.linked < |r.keys| && r.keys[r.linked] < |s.entries|
         && var k := r.keys[r.linked];
            s' == s.(slots := s.slots[a := r.(linked := r.linked + 1)],
                     entries := s.entries[k := if Reaches(s.entries[k], a, r.linked) then s.entries[k]
                                               else Head(a, r.linked)])
    case Finish(_) =>
      && me.op.Linking? && me.op.addr < |s.slots| && s.slots[me.op.addr].Record?
      && s.slots[me.op.addr].linked == |s.slots[me.op.addr].keys|
      && s' == Put(s, t, me.(op := Idle, last := me.op.serial, where := me.where[me.op.serial := me.op.addr]))
                 .(slots := s.slots[me.op.addr := s.slots[me.op.addr].(valid := true)])
  }

  /** What a session's phase step does besides moving the phase protocol. */
  predicate PhaseStep(s: State, s': State, p: P.Step, kind: Kind) {
    && P.NextStep(s.ph, s'.ph, p)
    && match p
       case Start(cfg) =>
         && Shape(kind, cfg)
         && s' == s.(ph := s'.ph, kind := kind,
                     index := if TakesIndex(kind)
                              then IndexImage(s'.ph.version, false, 0, seq(|s.entries|, _ => Unread), Waiting)
                              else s.index,
                     log := if TakesLog(kind)
                            then LogImage(s'.ph.version, NotSet, seq(|s.sessions|, _ => NotWritten))
                            else s.log)
       case Publish => (TakesIndex(s.kind) ==> s.index.prepared) && s' == s.(ph := s'.ph)
       case _ =>
         && p.t < |s.sessions| == |s.ph.sessions| == |s.log.tokens|
         && (s.sessions[p.t].op.Idle? || s.sessions[p.t].op.Inserting?)
         && SessionPhaseStep(s, s', p, p.t, s.sessions[p.t], s.ph.sessions[p.t].k)
  }

  predicate SessionPhaseStep(s: State, s': State, p: P.Step, t: nat, me: Session, k: nat)
    requires t < |s.sessions| == |s.ph.sessions| == |s.log.tokens| && !p.Start? && !p.Publish?
  {
    if p.Ack? && TakesLog(s.kind) && k == s.ph.cfg.shift then
      // IN_PROGRESS: the present context becomes the previous one.
      s' == Put(s, t, me.(saved := me.last, savedVersion := VersionOf(s, t))).(ph := s'.ph)
    else if p.Ack? && TakesLog(s.kind) && k == s.ph.cfg.shift + 2 then
      // WAIT_FLUSH: final_address is set and flushed; the previous context is written.
      s.log.final.Tail? && s' == s.(ph := s'.ph, log := s.log.(tokens := s.log.tokens[t := Written(me.saved)]))
    else if (p.Ack? || p.Direct?) && TakesIndex(s.kind) && k == 2 then
      // INDEX_CHKPT is left when the index has been written.
      s.index.progress.Done? && s' == s.(ph := s'.ph)
    else if p.Effect? && TakesIndex(s.kind) && k == 1 then
      // Into INDEX_CHKPT: start writing the index.
      s' == s.(ph := s'.ph, index := s.index.(progress := Running))
    else if p.Effect? && TakesLog(s.kind) && k == s.ph.cfg.shift + 1 then
      // Into WAIT_FLUSH: take final_address.
      s' == s.(ph := s'.ph, log := s.log.(final := Tail(|s.slots|)))
    else
      s' == s.(ph := s'.ph)
  }

  // ---------------------------------------------------------------- invariant

  /** A record of the session: its version and serial agree with the contexts, and it is unfinished
      only as the session's present insert. */
  predicate RecordOk(r: Slot, a: nat, me: Session, version: nat)
    requires r.Record?
  {
    && r.version <= version && r.linked <= |r.keys|
    && (r.version <= me.savedVersion <==> AtMost(r.serial, me.saved))
    && (if r.valid
        then r.linked == |r.keys| && AtMost(r.serial, me.last) && r.serial in me.where && me.where[r.serial] == a
        else me.op.Linking? && me.op.addr == a)
  }

  predicate OpOk(slots: seq<Slot>, keys: nat, t: nat, me: Session, version: nat) {
    && (!me.op.Idle? ==> Less(me.last, me.op.serial) && forall i | 0 <= i < |me.op.keys| :: me.op.keys[i] < keys)
    && (me.op.Candidate? ==> me.op.addr < |slots| && slots[me.op.addr] == Reserved(t))
    && (me.op.Linking? ==>
          && me.op.addr < |slots| && slots[me.op.addr].Record?
          && slots[me.op.addr] == Record(t, me.op.serial, version, me.op.keys, slots[me.op.addr].linked, false))
  }

  predicate WhereOk(slots: seq<Slot>, t: nat, me: Session) {
    forall l | l in me.where ::
      && me.where[l] < |slots| && slots[me.where[l]].Record? && AtMost(l, me.last)
      && slots[me.where[l]].owner == t && slots[me.where[l]].serial == l && slots[me.where[l]].valid
  }

  predicate SessionOk(slots: seq<Slot>, keys: nat, t: nat, me: Session, version: nat) {
    && OpOk(slots, keys, t, me, version) && WhereOk(slots, t, me)
    && me.savedVersion < version && AtMost(me.saved, me.last)
    && forall a | 0 <= a < |slots| && slots[a].Record? && slots[a].owner == t :: RecordOk(slots[a], a, me, version)
  }

  predicate Owners(s: State) {
    forall a | 0 <= a < |s.slots| && s.slots[a].Record? ::
      s.slots[a].owner < |s.sessions| && forall i | 0 <= i < |s.slots[a].keys| :: s.slots[a].keys[i] < |s.entries|
  }

  predicate PointsAt(slots: seq<Slot>, k: nat, e: Entry) {
    e.Head? ==>
      && e.address < |slots| && slots[e.address].Record?
      && e.ptr < |slots[e.address].keys| && slots[e.address].keys[e.ptr] == k
  }

  /** The entry of a key is the highest key pointer linked under it. */
  predicate EntryOk(slots: seq<Slot>, k: nat, e: Entry) {
    && PointsAt(slots, k, e)
    && forall a, i
         | 0 <= a < |slots| && slots[a].Record? && 0 <= i < slots[a].linked && i < |slots[a].keys|
           && slots[a].keys[i] == k ::
         Reaches(e, a, i)
  }

  predicate Entries(s: State) { forall k | 0 <= k < |s.entries| :: EntryOk(s.slots, k, s.entries[k]) }

  /** Nothing below `start` belongs to an unfinished insert. */
  predicate Settled(slots: seq<Slot>, start: nat, t: nat, me: Session) {
    && (me.op.Candidate? || me.op.Linking? ==> me.op.addr >= start)
    && forall a | 0 <= a < start && a < |slots| && slots[a].Record? && slots[a].owner == t :: slots[a].valid
  }

  /** How a session's place in the protocol binds its inserts, its contexts and the index copy. */
  predicate LogPlace(kind: Kind, h: P.State, p: P.Session, me: Session, token: Token) {
    && (me.op.Candidate? || me.op.Linking? ==> p.pc.Working?)
    && (TakesLog(kind) && p.a >= h.cfg.shift ==> me.savedVersion == h.version)
    && (TakesLog(kind) && p.a >= h.cfg.shift + 2 ==> token.Written?)
  }

  predicate IndexPlace(kind: Kind, slots: seq<Slot>, index: IndexImage, t: nat, p: P.Session, me: Session) {
    TakesIndex(kind) ==>
      && (p.a >= 1 ==> index.prepared && Settled(slots, index.start, t, me))
      && (p.k == 2 && (p.pc.Scanning? || p.pc.Moving?) ==> index.progress.Done?)
      && (p.k == 1 && p.pc.Won? ==> index.progress.Waiting?)
  }

  predicate PlaceOk(s: State, t: nat)
    requires t < |s.sessions| == |s.ph.sessions| == |s.log.tokens|
  {
    && LogPlace(s.kind, s.ph, s.ph.sessions[t], s.sessions[t], s.log.tokens[t])
    && IndexPlace(s.kind, s.slots, s.index, t, s.ph.sessions[t], s.sessions[t])
  }

  /** The copy of an entry misses no record below `start` and shows none of a later version. */
  predicate CopyOk(slots: seq<Slot>, start: nat, version: nat, k: nat, e: Entry) {
    && PointsAt(slots, k, e) && (e.Head? ==> slots[e.address].version <= version)
    && forall a, i
         | 0 <= a < start && a < |slots| && slots[a].Record? && 0 <= i < |slots[a].keys| && slots[a].keys[i] == k ::
         Reaches(e, a, i)
  }

  predicate IndexOk(s: State) {
    && |s.index.snap| == |s.entries| && s.index.start <= |s.slots|
    && (s.index.progress.Running? ==> TakesIndex(s.kind) && s.ph.pos == 2)
    && (TakesIndex(s.kind) ==> s.index.version == s.ph.version && (s.ph.pos >= 1 ==> s.index.prepared)
                               && (s.ph.pos <= 1 ==> s.index.progress.Waiting?))
    && (TakesIndex(s.kind) && s.index.progress.Waiting? ==>
          s.ph.pos <= 2 && forall k | 0 <= k < |s.index.snap| :: s.index.snap[k].Unread?)
    && (!s.index.progress.Waiting? ==>
          forall t | 0 <= t < |s.sessions| :: Settled(s.slots, s.index.start, t, s.sessions[t]))
    && (!s.index.progress.Waiting? ==>
          forall a | 0 <= a < s.index.start && s.slots[a].Record? :: s.slots[a].version <= s.index.version)
    && (!s.index.progress.Waiting? ==>
          forall k | 0 <= k < |s.index.snap| && s.index.snap[k].Copied? ::
            CopyOk(s.slots, s.index.start, s.index.version, k, s.index.snap[k].entry))
    && (s.index.progress.Done? ==> forall k | 0 <= k < |s.index.snap| :: s.index.snap[k].Copied?)
  }

  /** Once final_address is taken, every record of the checkpoint's version is finished and below it. */
  predicate FinalOk(slots: seq<Slot>, log: LogImage) {
    log.final.Tail? ==>
      && log.final.address <= |slots|
      && forall a | 0 <= a < |slots| && slots[a].Record? && slots[a].version <= log.version ::
           slots[a].valid && a < log.final.address
  }

  /** A written context splits the session's records by version. */
  predicate TokenOk(slots: seq<Slot>, log: LogImage, t: nat, me: Session, token: Token) {
    token.Written? ==>
      && log.final.Tail? && AtMost(token.serial, me.last)
      && forall a | 0 <= a < |slots| && slots[a].Record? && slots[a].owner == t ::
           slots[a].version <= log.version <==> AtMost(slots[a].serial, token.serial)
  }

  predicate LogOk(s: State)
    requires |s.sessions| == |s.ph.sessions| == |s.log.tokens|
  {
    && (TakesLog(s.kind) ==> s.log.version == s.ph.version)
    && FinalOk(s.slots, s.log)
    && (s.log.final.Tail? ==> P.VersionAt(s.ph, s.ph.pos) > s.log.version)
    && (s.log.final.Tail? && s.index.version == s.log.version ==> s.index.start <= s.log.final.address)
    && (s.log.final.Tail? ==> forall t | 0 <= t < |s.sessions| :: VersionOf(s, t) > s.log.version)
    && (forall t | 0 <= t < |s.sessions| :: TokenOk(s.slots, s.log, t, s.sessions[t], s.log.tokens[t]))
  }

  predicate Sizes(s: State) { |s.sessions| == |s.ph.sessions| == |s.log.tokens| && Shape(s.kind, s.ph.cfg) }

  predicate Inv(s: State) {
    && P.Inv(s.ph) && Sizes(s) && Owners(s) && Entries(s)
    && (forall t | 0 <= t < |s.sessions| ::
          SessionOk(s.slots, |s.entries|, t, s.sessions[t], VersionOf(s, t)) && PlaceOk(s, t))
    && IndexOk(s) && LogOk(s)
  }

  // ---------------------------------------------------------------- versions

  /** A session's version changes only when it acknowledges the position of the version shift. */
  lemma VersionMoves(h: P.State, h': P.State, p: P.Step, u: nat)
    requires P.Inv(h) && P.NextStep(h, h', p) && u < |h.sessions|
    ensures |h'.sessions| == |h.sessions|
    ensures P.VersionAt(h', h'.sessions[u].c) ==
              P.VersionAt(h, h.sessions[u].c) + if p == P.Ack(u) && h.sessions[u].k == h.cfg.shift then 1 else 0
  {
    assert P.SessionInv(h, h.sessions[u]);
    if !p.Start? {
      P.SystemInductive(h, h', p);
      if p.LoadFinal? && p.t == u && h.pos > h.cfg.shift {
        assert h.cfg.barrier[h.cfg.shift] && h.sessions[u].a >= h.cfg.shift;
      }
    }
  }

  /** Beyond the version shift every session has swapped its context. */
  lemma AllSwapped(h: P.State, t: nat)
    requires P.Inv(h) && t < |h.sessions| && h.pos > h.cfg.shift
    ensures h.sessions[t].a >= h.cfg.shift && P.VersionAt(h, h.sessions[t].c) == h.version + 1
  {
    assert P.SessionInv(h, h.sessions[t]);
    assert h.cfg.barrier[h.cfg.shift] && h.sessions[t].a >= h.cfg.shift;
  }

  // ---------------------------------------------------------------- inserts

  predicate InsertKind(step: Step) { !step.Phase? && !step.TakeStart? && !step.CopyEntry? && !step.CopyDone? }

  predicate Of(x: Slot, t: nat) { if x.Reserved? then x.holder == t else x.owner == t }

  /** The slots change only where session t's do. */
  predicate Touches(slots: seq<Slot>, slots': seq<Slot>, t: nat) {
    && |slots| <= |slots'|
    && (forall a | 0 <= a < |slots| :: slots'[a] == slots[a] || (Of(slots[a], t) && Of(slots'[a], t)))
    && (forall a | |slots| <= a < |slots'| :: Of(slots'[a], t))
  }

  lemma OtherSession(slots: seq<Slot>, slots': seq<Slot>, keys: nat, t: nat, u: nat, me: Session, version: nat)
    requires Touches(slots, slots', t) && u != t && SessionOk(slots, keys, u, me, version)
    ensures SessionOk(slots', keys, u, me, version)
  {
  }

  lemma OtherSettled(slots: seq<Slot>, slots': seq<Slot>, start: nat, t: nat, u: nat, me: Session)
    requires Touches(slots, slots', t) && u != t && start <= |slots| && Settled(slots, start, u, me)
    ensures Settled(slots', start, u, me)
  {
  }

  lemma InsertTouches(s: State, s': State, step: Step)
    requires Inv(s) && NextStep(s, s', step) && InsertKind(step)
    ensures Touches(s.slots, s'.slots, step.t) && |s'.sessions| == |s.sessions|
    ensures s'.ph == s.ph && s'.index == s.index && s'.log == s.log && s'.kind == s.kind && |s'.entries| == |s.entries|
    ensures forall u | 0 <= u < |s.sessions| && u != step.t :: s'.sessions[u] == s.sessions[u]
    ensures s'.sessions[step.t].saved == s.sessions[step.t].saved
    ensures s'.sessions[step.t].savedVersion == s.sessions[step.t].savedVersion
    ensures AtMost(s.sessions[step.t].last, s'.sessions[step.t].last)
  {
    assert SessionOk(s.slots, |s.entries|, step.t, s.sessions[step.t], VersionOf(s, step.t));
  }

  lemma StampMover(slots: seq<Slot>, keys: nat, t: nat, me: Session, version: nat)
    requires SessionOk(slots, keys, t, me, version) && me.op.Candidate?
    ensures var a, l, ks := me.op.addr, me.op.serial, me.op.keys;
            SessionOk(slots[a := Record(t, l, version, ks, 0, false)], keys, t, me.(op := Linking(l, ks, a)), version)
  {
  }

  lemma LinkMover(slots: seq<Slot>, keys: nat, t: nat, me: Session, version: nat)
    requires SessionOk(slots, keys, t, me, version) && me.op.Linking?
    requires slots[me.op.addr].linked < |slots[me.op.addr].keys|
    ensures var a := me.op.addr; SessionOk(slots[a := slots[a].(linked := slots[a].linked + 1)], keys, t, me, version)
  {
    assert RecordOk(slots[me.op.addr], me.op.addr, me, version);
  }

  lemma FinishMover(slots: seq<Slot>, keys: nat, t: nat, me: Session, version: nat)
    requires SessionOk(slots, keys, t, me, version) && me.op.Linking?
    requires slots[me.op.addr].linked == |slots[me.op.addr].keys|
    ensures var a, l := me.op.addr, me.op.serial;
            SessionOk(slots[a := slots[a].(valid := true)], keys, t,
                      me.(op := Idle, last := l, where := me.where[l := a]), version)
  {
    var a, l := me.op.addr, me.op.serial;
    assert RecordOk(slots[a], a, me, version);
    assert l !in me.where;
  }

  lemma InsertMover(s: State, s': State, step: Step)
    requires Inv(s) && NextStep(s, s', step) && InsertKind(step)
    ensures step.t < |s'.sessions|
    ensures SessionOk(s'.slots, |s'.entries|, step.t, s'.sessions[step.t], VersionOf(s, step.t))
  {
    var t, me, version := step.t, s.sessions[step.t], VersionOf(s, step.t);
    assert SessionOk(s.slots, |s.entries|, t, me, version);
    match step {
      case Stamp(_) => StampMover(s.slots, |s.entries|, t, me, version);
      case Link(_) => LinkMover(s.slots, |s.entries|, t, me, version);
      case Finish(_) => FinishMover(s.slots, |s.entries|, t, me, version);
      case _ =>
    }
  }

  lemma InsertSession(s: State, s': State, step: Step, u: nat)
    requires Inv(s) && NextStep(s, s', step) && InsertKind(step) && u < |s.sessions|
    ensures |s'.sessions| == |s.sessions| && s'.ph == s.ph
    ensures SessionOk(s'.slots, |s'.entries|, u, s'.sessions[u], VersionOf(s', u))
  {
    if u != step.t {
      InsertTouches(s, s', step);
      OtherSession(s.slots, s'.slots, |s.entries|, step.t, u, s.sessions[u], VersionOf(s, u));
    } else {
      InsertMover(s, s', step);
    }
  }

  lemma InsertSettled(s: State, s': State, step: Step, u: nat)
    requires Inv(s) && NextStep(s, s', step) && InsertKind(step) && u < |s.sessions|
    requires Settled(s.slots, s.index.start, u, s.sessions[u])
    ensures |s'.sessions| == |s.sessions| && Settled(s'.slots, s'.index.start, u, s'.sessions[u])
  {
    InsertTouches(s, s', step);
    assert SessionOk(s.slots, |s.entries|, u, s.sessions[u], VersionOf(s, u));
    if u != step.t { OtherSettled(s.slots, s'.slots, s.index.start, step.t, u, s.sessions[u]); }
  }

  lemma InsertPlace(s: State, s': State, step: Step, u: nat)
    requires Inv(s) && NextStep(s, s', step) && InsertKind(step) && u < |s.sessions|
    ensures Sizes(s') && PlaceOk(s', u)
  {
    InsertTouches(s, s', step);
    assert PlaceOk(s, u);
    if TakesIndex(s.kind) && s.ph.sessions[u].a >= 1 { InsertSettled(s, s', step, u); }
  }

  lemma InsertOwners(s: State, s': State, step: Step)
    requires Inv(s) && NextStep(s, s', step) && InsertKind(step)
    ensures Owners(s')
  {
    assert SessionOk(s.slots, |s.entries|, step.t, s.sessions[step.t], VersionOf(s, step.t));
  }

  /** Slots keep their records; records keep key lists and versions; link counts only grow for `a0`. */
  lemma LinkEntry(slots: seq<Slot>, a0: nat, k: nat, e: Entry, e': Entry)
    requires a0 < |slots| && slots[a0].Record? && slots[a0].linked < |slots[a0].keys| && EntryOk(slots, k, e)
    requires e' == if slots[a0].keys[slots[a0].linked] == k && !Reaches(e, a0, slots[a0].linked)
                   then Head(a0, slots[a0].linked) else e
    ensures EntryOk(slots[a0 := slots[a0].(linked := slots[a0].linked + 1)], k, e')
  {
  }

  lemma KeepEntry(slots: seq<Slot>, slots': seq<Slot>, k: nat, e: Entry)
    requires EntryOk(slots, k, e) && |slots| <= |slots'|
    requires forall a | 0 <= a < |slots| && slots[a].Record? :: slots'[a].Record? && slots'[a].keys == slots[a].keys
    requires forall a | 0 <= a < |slots'| && slots'[a].Record? && slots'[a].linked > 0 ::
               a < |slots| && slots[a].Record? && slots'[a].linked == slots[a].linked
    ensures EntryOk(slots', k, e)
  {
  }

  lemma InsertEntries(s: State, s': State, step: Step)
    requires Inv(s) && NextStep(s, s', step) && InsertKind(step)
    ensures Entries(s')
  {
    InsertTouches(s, s', step);
    var me := s.sessions[step.t];
    assert SessionOk(s.slots, |s.entries|, step.t, me, VersionOf(s, step.t));
    forall k | 0 <= k < |s'.entries| ensures EntryOk(s'.slots, k, s'.entries[k]) {
      if step.Link? {
        LinkEntry(s.slots, me.op.addr, k, s.entries[k], s'.entries[k]);
      } else {
        KeepEntry(s.slots, s'.slots, k, s.entries[k]);
      }
    }
  }

  lemma KeepCopy(slots: seq<Slot>, slots': seq<Slot>, start: nat, version: nat, k: nat, e: Entry)
    requires CopyOk(slots, start, version, k, e) && start <= |slots| <= |slots'|
    requires forall a | 0 <= a < |slots| && slots[a].Record? ::
               slots'[a].Record? && slots'[a].keys == slots[a].keys && slots'[a].version == slots[a].version
    requires forall a | 0 <= a < start && slots'[a].Record? :: slots[a].Record?
    ensures CopyOk(slots', start, version, k, e)
  {
  }

  lemma InsertRecords(s: State, s': State, step: Step)
    requires Inv(s) && NextStep(s, s', step) && InsertKind(step)
    ensures |s.slots| <= |s'.slots|
    ensures forall a | 0 <= a < |s.slots| && s.slots[a].Record? ::
              && s'.slots[a].Record? && s'.slots[a].keys == s.slots[a].keys && s'.slots[a].version == s.slots[a].version
              && s'.slots[a].owner == s.slots[a].owner && s'.slots[a].serial == s.slots[a].serial
              && (s.slots[a].valid ==> s'.slots[a].valid)
    ensures forall a | 0 <= a < |s'.slots| && s'.slots[a].Record? ::
              || (a < |s.slots| && s.slots[a].Record?)
              || (step.Stamp? && a == s.sessions[step.t].op.addr && s'.slots[a].owner == step.t
                  && s'.slots[a].version == VersionOf(s, step.t) && s'.slots[a].serial == s.sessions[step.t].op.serial)
  {
    assert SessionOk(s.slots, |s.entries|, step.t, s.sessions[step.t], VersionOf(s, step.t));
  }

  lemma InsertIndex(s: State, s': State, step: Step)
    requires Inv(s) && NextStep(s, s', step) && InsertKind(step)
    ensures IndexOk(s')
  {
    InsertTouches(s, s', step);
    InsertRecords(s, s', step);
    if !s.index.progress.Waiting? {
      forall t | 0 <= t < |s.sessions| ensures Settled(s'.slots, s.index.start, t, s'.sessions[t]) {
        InsertSettled(s, s', step, t);
      }
      assert Settled(s.slots, s.index.start, step.t, s.sessions[step.t]);
      forall k | 0 <= k < |s.index.snap| && s.index.snap[k].Copied?
        ensures CopyOk(s'.slots, s.index.start, s.index.version, k, s.index.snap[k].entry)
      {
        KeepCopy(s.slots, s'.slots, s.index.start, s.index.version, k, s.index.snap[k].entry);
      }
    }
  }

  lemma InsertToken(s: State, s': State, step: Step, u: nat)
    requires Inv(s) && NextStep(s, s', step) && InsertKind(step) && u < |s.sessions|
    ensures Sizes(s') && TokenOk(s'.slots, s'.log, u, s'.sessions[u], s'.log.tokens[u])
  {
    InsertTouches(s, s', step);
    InsertRecords(s, s', step);
    assert TokenOk(s.slots, s.log, u, s.sessions[u], s.log.tokens[u]);
    assert s.log.final.Tail? ==> VersionOf(s, step.t) > s.log.version;
    assert SessionOk(s.slots, |s.entries|, step.t, s.sessions[step.t], VersionOf(s, step.t));
  }

  lemma InsertLog(s: State, s': State, step: Step)
    requires Inv(s) && NextStep(s, s', step) && InsertKind(step)
    ensures Sizes(s') && LogOk(s')
  {
    InsertTouches(s, s', step);
    InsertRecords(s, s', step);
    assert forall t | 0 <= t < |s.sessions| :: VersionOf(s', t) == VersionOf(s, t);
    assert s.log.final.Tail? ==> VersionOf(s, step.t) > s.log.version;
    forall u | 0 <= u < |s.sessions| ensures TokenOk(s'.slots, s'.log, u, s'.sessions[u], s'.log.tokens[u]) {
      InsertToken(s, s', step, u);
    }
  }

  lemma InsertInductive(s: State, s': State, step: Step)
    requires Inv(s) && NextStep(s, s', step) && InsertKind(step)
    ensures Inv(s')
  {
    InsertTouches(s, s', step);
    InsertOwners(s, s', step);
    InsertEntries(s, s', step);
    InsertIndex(s, s', step);
    InsertLog(s, s', step);
    forall t | 0 <= t < |s'.sessions|
      ensures SessionOk(s'.slots, |s'.entries|, t, s'.sessions[t], VersionOf(s', t)) && PlaceOk(s', t)
    {
      InsertSession(s, s', step, t);
      InsertPlace(s, s', step, t);
    }
  }

  // ---------------------------------------------------------------- index copying

  lemma CopyTaken(s: State, k: nat)
    requires Inv(s) && s.index.progress.Running? && k < |s.entries|
    ensures CopyOk(s.slots, s.index.start, s.index.version, k, s.entries[k])
  {
    var e := s.entries[k];
    assert EntryOk(s.slots, k, e);
    if e.Head? {
      var r := s.slots[e.address];
      assert SessionOk(s.slots, |s.entries|, r.owner, s.sessions[r.owner], VersionOf(s, r.owner));
      assert RecordOk(r, e.address, s.sessions[r.owner], VersionOf(s, r.owner));
      assert P.SessionInv(s.ph, s.ph.sessions[r.owner]);
    }
    forall a, i | 0 <= a < s.index.start && s.slots[a].Record? && 0 <= i < |s.slots[a].keys| && s.slots[a].keys[i] == k
      ensures Reaches(e, a, i)
    {
      var t := s.slots[a].owner;
      assert Settled(s.slots, s.index.start, t, s.sessions[t]);
      assert SessionOk(s.slots, |s.entries|, t, s.sessions[t], VersionOf(s, t));
      assert RecordOk(s.slots[a], a, s.sessions[t], VersionOf(s, t));
    }
  }

  lemma CopyInductive(s: State, s': State, step: Step)
    requires Inv(s) && NextStep(s, s', step) && (step.TakeStart? || step.CopyEntry? || step.CopyDone?)
    ensures Inv(s')
  {
    if step.CopyEntry? { CopyTaken(s, step.k); }
    forall t | 0 <= t < |s'.sessions|
      ensures SessionOk(s'.slots, |s'.entries|, t, s'.sessions[t], VersionOf(s', t)) && PlaceOk(s', t)
    {
      assert SessionOk(s.slots, |s.entries|, t, s.sessions[t], VersionOf(s, t)) && PlaceOk(s, t);
      assert P.SessionInv(s.ph, s.ph.sessions[t]);
    }
  }

  // ---------------------------------------------------------------- phases

  predicate Swaps(s: State, p: P.Step, t: nat)
    requires t < |s.ph.sessions|
  {
    p == P.Ack(t) && TakesLog(s.kind) && s.ph.sessions[t].k == s.ph.cfg.shift
  }

  /** At the version shift the session has no unfinished record, so the saved serial splits its records
      by version. */
  lemma SwapMover(slots: seq<Slot>, keys: nat, t: nat, me: Session, version: nat)
    requires SessionOk(slots, keys, t, me, version) && (me.op.Idle? || me.op.Inserting?)
    ensures SessionOk(slots, keys, t, me.(saved := me.last, savedVersion := version), version + 1)
  {
    forall a | 0 <= a < |slots| && slots[a].Record? && slots[a].owner == t
      ensures RecordOk(slots[a], a, me.(saved := me.last, savedVersion := version), version + 1)
    {
      assert RecordOk(slots[a], a, me, version);
    }
  }

  lemma PhaseKeeps(s: State, s': State, p: P.Step, kind: Kind)
    requires Sizes(s) && P.SystemInv(s.ph) && PhaseStep(s, s', p, kind)
    ensures s'.slots == s.slots && s'.entries == s.entries
    ensures |s'.sessions| == |s.sessions| == |s'.log.tokens| == |s'.ph.sessions|
    ensures forall u | 0 <= u < |s.sessions| ::
              s'.sessions[u] == if Swaps(s, p, u)
                                then s.sessions[u].(saved := s.sessions[u].last, savedVersion := VersionOf(s, u))
                                else s.sessions[u]
    ensures s'.kind == if p.Start? then kind else s.kind
  {
  }

  lemma PhaseFrame(s: State, s': State, p: P.Step, kind: Kind)
    requires Inv(s) && PhaseStep(s, s', p, kind)
    ensures P.Inv(s'.ph) && Sizes(s') && s'.slots == s.slots && s'.entries == s.entries
    ensures forall u | 0 <= u < |s.sessions| ::
              s'.sessions[u] == if Swaps(s, p, u)
                                then s.sessions[u].(saved := s.sessions[u].last, savedVersion := VersionOf(s, u))
                                else s.sessions[u]
  {
    PhaseKeeps(s, s', p, kind);
    P.InvInductive(s.ph, s'.ph, p);
    if !p.Start? { P.SystemInductive(s.ph, s'.ph, p); }
  }

  lemma PhaseVersion(s: State, s': State, p: P.Step, kind: Kind, u: nat)
    requires Inv(s) && PhaseStep(s, s', p, kind) && u < |s.sessions|
    ensures u < |s'.ph.sessions| && VersionOf(s', u) == VersionOf(s, u) + if Swaps(s, p, u) then 1 else 0
  {
    VersionMoves(s.ph, s'.ph, p, u);
    assert P.SessionInv(s.ph, s.ph.sessions[u]);
  }

  lemma PhaseSession(s: State, s': State, p: P.Step, kind: Kind, u: nat)
    requires Inv(s) && PhaseStep(s, s', p, kind) && u < |s.sessions|
    ensures Sizes(s') && |s'.sessions| == |s.sessions|
    ensures SessionOk(s'.slots, |s'.entries|, u, s'.sessions[u], VersionOf(s', u))
  {
    PhaseFrame(s, s', p, kind);
    PhaseVersion(s, s', p, kind, u);
    assert SessionOk(s.slots, |s.entries|, u, s.sessions[u], VersionOf(s, u));
    if Swaps(s, p, u) { SwapMover(s.slots, |s.entries|, u, s.sessions[u], VersionOf(s, u)); }
  }

  /** Between inserts everything the session has stamped is finished. */
  lemma RestSettled(slots: seq<Slot>, keys: nat, start: nat, t: nat, me: Session, version: nat)
    requires SessionOk(slots, keys, t, me, version) && (me.op.Idle? || me.op.Inserting?)
    ensures Settled(slots, start, t, me)
  {
    forall a | 0 <= a < start && a < |slots| && slots[a].Record? && slots[a].owner == t ensures slots[a].valid {
      assert RecordOk(slots[a], a, me, version);
    }
  }

  predicate ByOther(p: P.Step, u: nat) { p.Start? || p.Publish? || p.t != u }

  /** The parts of a phase step that concern one session, without the rest of the invariant. */
  predicate Seen(s: State, s': State, p: P.Step, kind: Kind, u: nat) {
    && PhaseStep(s, s', p, kind) && Sizes(s) && Sizes(s') && P.SystemInv(s.ph) && u < |s.sessions| == |s'.sessions|
    && P.SessionInv(s.ph, s.ph.sessions[u]) && s'.slots == s.slots
    && s'.sessions[u] == if Swaps(s, p, u)
                         then s.sessions[u].(saved := s.sessions[u].last, savedVersion := VersionOf(s, u))
                         else s.sessions[u]
  }

  lemma PhaseSeen(s: State, s': State, p: P.Step, kind: Kind, u: nat)
    requires Inv(s) && PhaseStep(s, s', p, kind) && u < |s.sessions|
    ensures Seen(s, s', p, kind, u) && PlaceOk(s, u)
  {
    PhaseFrame(s, s', p, kind);
  }

  lemma LogPlaceMover(s: State, s': State, p: P.Step, kind: Kind, u: nat)
    requires Seen(s, s', p, kind, u) && !ByOther(p, u)
    requires LogPlace(s.kind, s.ph, s.ph.sessions[u], s.sessions[u], s.log.tokens[u])
    requires p.Ack? ==> var h, shift := s.ph.sessions[u], s.ph.cfg.shift;
                        (h.k > shift ==> h.a >= shift) && (h.k > shift + 2 ==> h.a >= shift + 2)
    ensures LogPlace(s'.kind, s'.ph, s'.ph.sessions[u], s'.sessions[u], s'.log.tokens[u])
  {
  }

  lemma LogPlaceStable(s: State, s': State, p: P.Step, kind: Kind, u: nat)
    requires Seen(s, s', p, kind, u) && ByOther(p, u)
    requires LogPlace(s.kind, s.ph, s.ph.sessions[u], s.sessions[u], s.log.tokens[u])
    ensures LogPlace(s'.kind, s'.ph, s'.ph.sessions[u], s'.sessions[u], s'.log.tokens[u])
  {
  }

  lemma LogPlaceKept(s: State, s': State, p: P.Step, kind: Kind, u: nat)
    requires Inv(s) && PhaseStep(s, s', p, kind) && u < |s.sessions|
    ensures Sizes(s') && |s'.sessions| == |s.sessions|
    ensures LogPlace(s'.kind, s'.ph, s'.ph.sessions[u], s'.sessions[u], s'.log.tokens[u])
  {
    PhaseSeen(s, s', p, kind, u);
    if ByOther(p, u) {
      LogPlaceStable(s, s', p, kind, u);
    } else {
      var h, shift := s.ph.sessions[u], s.ph.cfg.shift;
      if p.Ack? && h.k > shift {
        AllSwapped(s.ph, u);
        if h.k > shift + 2 { assert s.ph.cfg.barrier[shift + 2] && h.a >= shift + 2; }
      }
      LogPlaceMover(s, s', p, kind, u);
    }
  }

  lemma IndexPlaceStable(s: State, s': State, p: P.Step, kind: Kind, u: nat)
    requires Seen(s, s', p, kind, u) && ByOther(p, u) && P.WinnerInv(s.ph)
    requires IndexPlace(s.kind, s.slots, s.index, u, s.ph.sessions[u], s.sessions[u])
    requires !p.Start? && !p.Publish? ==> IndexPlace(s.kind, s.slots, s.index, p.t, s.ph.sessions[p.t], s.sessions[p.t])
    ensures IndexPlace(s'.kind, s'.slots, s'.index, u, s'.ph.sessions[u], s'.sessions[u])
  {
  }

  lemma IndexPlaceMover(s: State, s': State, p: P.Step, kind: Kind, u: nat)
    requires Seen(s, s', p, kind, u) && !ByOther(p, u)
    requires IndexPlace(s.kind, s.slots, s.index, u, s.ph.sessions[u], s.sessions[u])
    requires Settled(s.slots, s.index.start, u, s.sessions[u])
    requires TakesIndex(s.kind) ==>
               (s.ph.pos >= 1 ==> s.index.prepared) && (s.ph.pos <= 1 ==> s.index.progress.Waiting?)
    ensures IndexPlace(s'.kind, s'.slots, s'.index, u, s'.ph.sessions[u], s'.sessions[u])
  {
  }

  lemma IndexPlaceKept(s: State, s': State, p: P.Step, kind: Kind, u: nat)
    requires Inv(s) && PhaseStep(s, s', p, kind) && u < |s.sessions|
    ensures Sizes(s') && |s'.sessions| == |s.sessions|
    ensures IndexPlace(s'.kind, s'.slots, s'.index, u, s'.ph.sessions[u], s'.sessions[u])
  {
    PhaseSeen(s, s', p, kind, u);
    if ByOther(p, u) {
      if !p.Start? && !p.Publish? { assert PlaceOk(s, p.t); }
      IndexPlaceStable(s, s', p, kind, u);
    } else {
      assert SessionOk(s.slots, |s.entries|, u, s.sessions[u], VersionOf(s, u));
      RestSettled(s.slots, |s.entries|, s.index.start, u, s.sessions[u], VersionOf(s, u));
      IndexPlaceMover(s, s', p, kind, u);
    }
  }

  /** When the index copy starts, everybody has acknowledged PREP_INDEX_CHKPT. */
  lemma EffectSettles(s: State, s': State, p: P.Step, kind: Kind, u: nat)
    requires Inv(s) && PhaseStep(s, s', p, kind) && !p.Start? && !p.Publish? && u < |s.sessions|
    requires !s'.index.progress.Waiting?
    ensures |s'.sessions| == |s.sessions| && Settled(s'.slots, s'.index.start, u, s'.sessions[u])
  {
    PhaseFrame(s, s', p, kind);
    assert PlaceOk(s, u) && PlaceOk(s, p.t) && P.SessionInv(s.ph, s.ph.sessions[p.t]);
    if s.index.progress.Waiting? { assert s.ph.cfg.barrier[1] && s.ph.sessions[u].a >= 1; }
  }

  /** Before the version shift no record has a later version. */
  lemma VersionsBefore(s: State)
    requires Inv(s) && s.ph.pos < s.ph.cfg.shift
    ensures forall a | 0 <= a < |s.slots| && s.slots[a].Record? :: s.slots[a].version <= s.ph.version
  {
    forall a | 0 <= a < |s.slots| && s.slots[a].Record? ensures s.slots[a].version <= s.ph.version {
      var t := s.slots[a].owner;
      assert SessionOk(s.slots, |s.entries|, t, s.sessions[t], VersionOf(s, t));
      assert RecordOk(s.slots[a], a, s.sessions[t], VersionOf(s, t));
      assert P.SessionInv(s.ph, s.ph.sessions[t]);
    }
  }

  lemma SessionIndex(s: State, s': State, p: P.Step, kind: Kind)
    requires !p.Start? && !p.Publish? && Seen(s, s', p, kind, p.t) && IndexOk(s) && s'.entries == s.entries
    requires IndexPlace(s.kind, s.slots, s.index, p.t, s.ph.sessions[p.t], s.sessions[p.t])
    requires !s'.index.progress.Waiting? ==>
               forall u | 0 <= u < |s'.sessions| :: Settled(s'.slots, s'.index.start, u, s'.sessions[u])
    requires s.ph.pos < s.ph.cfg.shift ==>
               forall a | 0 <= a < |s.slots| && s.slots[a].Record? :: s.slots[a].version <= s.ph.version
    ensures IndexOk(s')
  {
  }

  lemma PhaseIndex(s: State, s': State, p: P.Step, kind: Kind)
    requires Inv(s) && PhaseStep(s, s', p, kind)
    ensures IndexOk(s')
  {
    PhaseFrame(s, s', p, kind);
    if !p.Start? && !p.Publish? {
      PhaseSeen(s, s', p, kind, p.t);
      forall u | 0 <= u < |s.sessions| && !s'.index.progress.Waiting?
        ensures Settled(s'.slots, s'.index.start, u, s'.sessions[u])
      {
        EffectSettles(s, s', p, kind, u);
      }
      if s.ph.pos < s.ph.cfg.shift { VersionsBefore(s); }
      SessionIndex(s, s', p, kind);
    }
  }

  lemma TakesFinal(s: State, t: nat)
    requires Inv(s) && TakesLog(s.kind) && s.ph.pos > s.ph.cfg.shift && t < |s.sessions|
    ensures VersionOf(s, t) == s.log.version + 1
    ensures forall a
              | 0 <= a < |s.slots| && s.slots[a].Record? && s.slots[a].owner == t
                && s.slots[a].version <= s.log.version ::
              s.slots[a].valid
  {
    AllSwapped(s.ph, t);
    assert SessionOk(s.slots, |s.entries|, t, s.sessions[t], VersionOf(s, t));
    forall a | 0 <= a < |s.slots| && s.slots[a].Record? && s.slots[a].owner == t && s.slots[a].version <= s.log.version
      ensures s.slots[a].valid
    {
      assert RecordOk(s.slots[a], a, s.sessions[t], VersionOf(s, t));
    }
  }

  predicate TakesTail(s: State, p: P.Step)
    requires !p.Start? && !p.Publish? ==> p.t < |s.ph.sessions|
  {
    p.Effect? && TakesLog(s.kind) && s.ph.sessions[p.t].k == s.ph.cfg.shift + 1
  }

  lemma FinalTaken(s: State)
    requires Inv(s) && TakesLog(s.kind) && s.ph.pos > s.ph.cfg.shift
    ensures FinalOk(s.slots, s.log.(final := Tail(|s.slots|)))
    ensures forall u | 0 <= u < |s.sessions| :: VersionOf(s, u) > s.log.version
  {
    forall u | 0 <= u < |s.sessions| ensures VersionOf(s, u) > s.log.version {
      TakesFinal(s, u);
    }
    forall a | 0 <= a < |s.slots| && s.slots[a].Record? && s.slots[a].version <= s.log.version
      ensures s.slots[a].valid
    {
      TakesFinal(s, s.slots[a].owner);
    }
  }

  lemma PhaseFinal(s: State, s': State, p: P.Step, kind: Kind)
    requires Inv(s) && PhaseStep(s, s', p, kind)
    ensures Sizes(s') && FinalOk(s'.slots, s'.log)
    ensures s'.log.final.Tail? ==> forall t | 0 <= t < |s'.sessions| :: VersionOf(s, t) > s'.log.version
  {
    PhaseFrame(s, s', p, kind);
    if !p.Start? && !p.Publish? && TakesTail(s, p) {
      PhaseSeen(s, s', p, kind, p.t);
      FinalTaken(s);
      assert s'.log == s.log.(final := Tail(|s.slots|));
    } else {
      assert s'.log.final.NotSet? || (s'.log.final == s.log.final && s'.log.version == s.log.version);
    }
  }

  lemma TokenWritten(s: State, u: nat)
    requires Inv(s) && u < |s.sessions| && TakesLog(s.kind) && s.ph.pos > s.ph.cfg.shift && s.log.final.Tail?
    ensures TokenOk(s.slots, s.log, u, s.sessions[u], Written(s.sessions[u].saved))
  {
    assert PlaceOk(s, u);
    AllSwapped(s.ph, u);
    assert SessionOk(s.slots, |s.entries|, u, s.sessions[u], VersionOf(s, u));
    forall a | 0 <= a < |s.slots| && s.slots[a].Record? && s.slots[a].owner == u
      ensures s.slots[a].version <= s.log.version <==> AtMost(s.slots[a].serial, s.sessions[u].saved)
    {
      assert RecordOk(s.slots[a], a, s.sessions[u], VersionOf(s, u));
    }
  }

  lemma PhaseToken(s: State, s': State, p: P.Step, kind: Kind, u: nat)
    requires Inv(s) && PhaseStep(s, s', p, kind) && u < |s.sessions|
    ensures Sizes(s') && |s'.sessions| == |s.sessions| && TokenOk(s'.slots, s'.log, u, s'.sessions[u], s'.log.tokens[u])
  {
    PhaseSeen(s, s', p, kind, u);
    assert TokenOk(s.slots, s.log, u, s.sessions[u], s.log.tokens[u]);
    if p == P.Ack(u) && TakesLog(s.kind) && s.ph.sessions[u].k == s.ph.cfg.shift + 2 {
      TokenWritten(s, u);
    } else {
      assert s'.log.tokens[u].NotWritten? || (s'.log.tokens[u] == s.log.tokens[u] && s'.log.version == s.log.version);
    }
  }

  lemma PhaseRange(s: State, s': State, p: P.Step, kind: Kind)
    requires Inv(s) && PhaseStep(s, s', p, kind)
    ensures TakesLog(s'.kind) ==> s'.log.version == s'.ph.version
    ensures s'.log.final.Tail? ==> P.VersionAt(s'.ph, s'.ph.pos) > s'.log.version
    ensures s'.log.final.Tail? && s'.index.version == s'.log.version ==> s'.index.start <= s'.log.final.address
  {
    if !p.Start? {
      P.SystemInductive(s.ph, s'.ph, p);
      if !p.Publish? { PhaseSeen(s, s', p, kind, p.t); }
    }
  }

  lemma PhaseLog(s: State, s': State, p: P.Step, kind: Kind)
    requires Inv(s) && PhaseStep(s, s', p, kind)
    ensures Sizes(s') && LogOk(s')
  {
    PhaseFrame(s, s', p, kind);
    PhaseRange(s, s', p, kind);
    PhaseFinal(s, s', p, kind);
    forall u | 0 <= u < |s.sessions| ensures VersionOf(s', u) >= VersionOf(s, u) {
      PhaseVersion(s, s', p, kind, u);
    }
    forall u | 0 <= u < |s'.sessions| ensures TokenOk(s'.slots, s'.log, u, s'.sessions[u], s'.log.tokens[u]) {
      PhaseToken(s, s', p, kind, u);
    }
  }

  lemma PhaseInductive(s: State, s': State, p: P.Step, kind: Kind)
    requires Inv(s) && PhaseStep(s, s', p, kind)
    ensures Inv(s')
  {
    PhaseFrame(s, s', p, kind);
    PhaseIndex(s, s', p, kind);
    PhaseLog(s, s', p, kind);
    forall t | 0 <= t < |s'.sessions|
      ensures SessionOk(s'.slots, |s'.entries|, t, s'.sessions[t], VersionOf(s', t)) && PlaceOk(s', t)
    {
      PhaseSession(s, s', p, kind, t);
      LogPlaceKept(s, s', p, kind, t);
      IndexPlaceKept(s, s', p, kind, t);
    }
  }

  // ---------------------------------------------------------------- runs

  lemma InvInductive(s: State, s': State, step: Step)
    requires Inv(s) && NextStep(s, s', step)
    ensures Inv(s')
  {
    if step.Phase? {
      PhaseInductive(s, s', step.p, step.kind);
    } else if InsertKind(step) {
      InsertInductive(s, s', step);
    } else {
      CopyInductive(s, s', step);
    }
  }

  lemma InitInv(s: State, n: nat, keys: nat)
    requires Init(s, n, keys)
    ensures Inv(s)
  {
    P.InitInv(s.ph, n);
  }

  predicate IsRun(run: seq<State>, steps: seq<Step>, n: nat, keys: nat) {
    && |run| == |steps| + 1 && Init(run[0], n, keys)
    && forall i {:trigger steps[i]} | 0 <= i < |steps| :: NextStep(run[i], run[i + 1], steps[i])
  }

  lemma {:induction false} RunInv(run: seq<State>, steps: seq<Step>, n: nat, keys: nat, i: nat)
    requires IsRun(run, steps, n, keys) && i < |run|
    ensures Inv(run[i])
  {
    if i == 0 {
      InitInv(run[0], n, keys);
    } else {
      RunInv(run, steps, n, keys, i - 1);
      assert NextStep(run[i - 1], run[i], steps[i - 1]);
      InvInductive(run[i - 1], run[i], steps[i - 1]);
    }
  }

  // ---------------------------------------------------------------- what a checkpoint guarantees

  /** Session t's records of the checkpoint's version or older are exactly its inserts up to `serial`;
      each of them is a finished record below final_address. */
  predicate Prefix(s: State, t: nat, serial: Serial)
    requires t < |s.sessions|
  {
    && s.log.final.Tail?
    && (forall l | l in s.sessions[t].where ::
          && s.sessions[t].where[l] < |s.slots| && s.slots[s.sessions[t].where[l]].Record?
          && s.slots[s.sessions[t].where[l]].serial == l && s.slots[s.sessions[t].where[l]].owner == t
          && (AtMost(l, serial) <==> s.slots[s.sessions[t].where[l]].version <= s.log.version)
          && (AtMost(l, serial) ==> s.sessions[t].where[l] < s.log.final.address))
    && (forall a
          | 0 <= a < |s.slots| && s.slots[a].Record? && s.slots[a].owner == t && s.slots[a].version <= s.log.version ::
          && s.slots[a].valid && a < s.log.final.address && AtMost(s.slots[a].serial, serial)
          && s.slots[a].serial in s.sessions[t].where && s.sessions[t].where[s.slots[a].serial] == a)
  }

  lemma PrefixHolds(s: State, t: nat, serial: Serial)
    requires Inv(s) && t < |s.sessions| && s.log.final.Tail?
    requires TokenOk(s.slots, s.log, t, s.sessions[t], Written(serial))
    ensures Prefix(s, t, serial)
  {
    assert SessionOk(s.slots, |s.entries|, t, s.sessions[t], VersionOf(s, t));
    forall a | 0 <= a < |s.slots| && s.slots[a].Record? && s.slots[a].owner == t && s.slots[a].version <= s.log.version
      ensures s.slots[a].serial in s.sessions[t].where && s.sessions[t].where[s.slots[a].serial] == a
    {
      assert RecordOk(s.slots[a], a, s.sessions[t], VersionOf(s, t));
    }
  }

  /** CPR prefix: from the moment final_address is taken on the way into WAIT_FLUSH, what each session
      saved at its version shift delimits exactly the inserts in the checkpoint. */
  lemma WaitFlushPrefix(run: seq<State>, steps: seq<Step>, n: nat, keys: nat, i: nat, t: nat)
    requires IsRun(run, steps, n, keys) && i < |run| && t < |run[i].sessions|
    requires TakesLog(run[i].kind) && run[i].ph.pos > run[i].ph.cfg.shift + 1 && run[i].log.final.Tail?
    ensures Prefix(run[i], t, run[i].sessions[t].saved)
  {
    RunInv(run, steps, n, keys, i);
    TokenWritten(run[i], t);
    PrefixHolds(run[i], t, run[i].sessions[t].saved);
  }

  /** The contexts on disk delimit it ever after, through later inserts and other actions. */
  lemma PersistedPrefix(run: seq<State>, steps: seq<Step>, n: nat, keys: nat, i: nat, t: nat)
    requires IsRun(run, steps, n, keys) && i < |run| && t < |run[i].sessions| == |run[i].log.tokens|
    requires run[i].log.tokens[t].Written?
    ensures Prefix(run[i], t, run[i].log.tokens[t].serial)
  {
    RunInv(run, steps, n, keys, i);
    assert TokenOk(run[i].slots, run[i].log, t, run[i].sessions[t], run[i].log.tokens[t]);
    PrefixHolds(run[i], t, run[i].log.tokens[t].serial);
  }

  /** When the persistence callbacks run, every session's context and final_address are on record. */
  lemma CallbackAfterContexts(run: seq<State>, steps: seq<Step>, n: nat, keys: nat, i: nat)
    requires IsRun(run, steps, n, keys) && i < |run| && TakesLog(run[i].kind) && run[i].ph.pos > run[i].ph.cfg.shift + 2
    requires n > 0
    ensures |run[i].sessions| == |run[i].log.tokens|
    ensures forall t | 0 <= t < |run[i].sessions| :: run[i].log.tokens[t].Written?
  {
    RunInv(run, steps, n, keys, i);
    var s := run[i];
    forall t | 0 <= t < |s.sessions| ensures s.log.tokens[t].Written? {
      assert PlaceOk(s, t);
      assert s.ph.cfg.barrier[s.ph.cfg.shift + 2] && s.ph.sessions[t].a >= s.ph.cfg.shift + 2;
    }
  }

  /** What recovery needs of an index checkpoint and a log checkpoint of version v: later versions only
      from `start` on; every committed record finished and below `final`; every copied entry a committed
      record that no committed record of its key below `start` exceeds. */
  predicate Recoverable(slots: seq<Slot>, snap: seq<Entry>, start: nat, final: nat, v: nat) {
    && start <= final <= |slots|
    && (forall a, i | 0 <= a < |slots| && slots[a].Record? && 0 <= i < |slots[a].keys| :: slots[a].keys[i] < |snap|)
    && (forall a | 0 <= a < start && slots[a].Record? :: slots[a].version <= v)
    && (forall a | 0 <= a < |slots| && slots[a].Record? && slots[a].version <= v :: slots[a].valid && a < final)
    && (forall k | 0 <= k < |snap| :: CopyOk(slots, start, v, k, snap[k]))
  }

  /** The index copy as recovery finds it; entries never copied count as unused. */
  function Snapshot(s: State): seq<Entry> {
    seq(|s.index.snap|, k requires 0 <= k < |s.index.snap| =>
      if s.index.snap[k].Copied? then s.index.snap[k].entry else Unused)
  }

  /** The fuzzy index copy and the log agree whenever their versions do, whether one full checkpoint
      wrote both or two separate ones: the PREP_INDEX_CHKPT barrier settled everything below
      checkpoint_start_address before any entry was copied. */
  lemma CheckpointRecoverable(run: seq<State>, steps: seq<Step>, n: nat, keys: nat, i: nat)
    requires IsRun(run, steps, n, keys) && i < |run|
    requires run[i].index.progress.Done? && run[i].log.final.Tail? && run[i].index.version == run[i].log.version
    ensures forall k | 0 <= k < |run[i].index.snap| :: run[i].index.snap[k].Copied?
    ensures Recoverable(run[i].slots, Snapshot(run[i]), run[i].index.start, run[i].log.final.address,
                        run[i].log.version)
  {
    RunInv(run, steps, n, keys, i);
  }
}