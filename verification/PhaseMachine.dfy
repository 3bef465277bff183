/** The phase machine (src/core/state_transitions.h; HandleSpecialPhases and GlobalMoveToNextState in
    src/core/fishstore.h; ResetPhaseFinished and FinishThreadPhase in src/core/light_epoch.h).

    Every action is a list of phases. A session learns of a phase in Refresh, acknowledges it by
    storing phase_finished and scanning everybody's, and whoever finds all acknowledgements swaps
    the system state to the next phase. One atomic access per step, any number of sessions; the
    sessions do not change during an action, and an action starts only when all are back at REST. */
module PhaseMachine {
  import P = PhaseSpec

  datatype Action =
    NoAction | CheckpointFull | CheckpointIndex | CheckpointHybridLog | Recover | GC | GrowIndex | ParserShift

  datatype Phase =
    | PREP_INDEX_CHKPT | INDEX_CHKPT | PREPARE | IN_PROGRESS | WAIT_PENDING | WAIT_FLUSH | REST
    | PERSISTENCE_CALLBACK | GC_IO_PENDING | GC_IN_PROGRESS | GROW_PREPARE | GROW_IN_PROGRESS | PS_PENDING | INVALID

  datatype SystemState = SystemState(action: Action, phase: Phase, version: nat)

  /** SystemState::GetNextState; the asserts of its default branches become UINT64_MAX states here. */
  function GetNextState(s: SystemState): SystemState {
    match (s.action, s.phase)
    case (CheckpointFull, REST) => s.(phase := PREP_INDEX_CHKPT)
    case (CheckpointFull, PREP_INDEX_CHKPT) => s.(phase := INDEX_CHKPT)
    case (CheckpointFull, INDEX_CHKPT) => s.(phase := PREPARE)
    case (CheckpointFull, PREPARE) => s.(phase := IN_PROGRESS, version := s.version + 1)
    case (CheckpointFull, IN_PROGRESS) => s.(phase := WAIT_PENDING)
    case (CheckpointFull, WAIT_PENDING) => s.(phase := WAIT_FLUSH)
    case (CheckpointFull, WAIT_FLUSH) => s.(phase := PERSISTENCE_CALLBACK)
    case (CheckpointFull, PERSISTENCE_CALLBACK) => s.(phase := REST)
    case (CheckpointIndex, REST) => s.(phase := PREP_INDEX_CHKPT)
    case (CheckpointIndex, PREP_INDEX_CHKPT) => s.(phase := INDEX_CHKPT)
    case (CheckpointIndex, INDEX_CHKPT) => s.(phase := REST)
    case (CheckpointHybridLog, REST) => s.(phase := PREPARE)
    case (CheckpointHybridLog, PREPARE) => s.(phase := IN_PROGRESS, version := s.version + 1)
    case (CheckpointHybridLog, IN_PROGRESS) => s.(phase := WAIT_PENDING)
    case (CheckpointHybridLog, WAIT_PENDING) => s.(phase := WAIT_FLUSH)
    case (CheckpointHybridLog, WAIT_FLUSH) => s.(phase := PERSISTENCE_CALLBACK)
    case (CheckpointHybridLog, PERSISTENCE_CALLBACK) => s.(phase := REST)
    case (GC, REST) => s.(phase := GC_IO_PENDING)
    case (GC, GC_IO_PENDING) => s.(phase := GC_IN_PROGRESS)
    case (GC, GC_IN_PROGRESS) => s.(phase := REST)
    case (GrowIndex, REST) => s.(phase := GROW_PREPARE)
    case (GrowIndex, GROW_PREPARE) => s.(phase := GROW_IN_PROGRESS)
    case (GrowIndex, GROW_IN_PROGRESS) => s.(phase := REST)
    case (ParserShift, REST) => s.(phase := PS_PENDING)
    case (ParserShift, PS_PENDING) => s.(phase := REST)
    case _ => SystemState(NoAction, INVALID, 0xFFFF_FFFF)
  }

  /** The state k transitions later. */
  function After(s: SystemState, k: nat): SystemState { if k == 0 then s else GetNextState(After(s, k - 1)) }

  /** The state of action a, begun at version v, k transitions after it was claimed. */
  function Later(a: Action, v: nat, k: nat): SystemState { After(SystemState(a, REST, v), k) }

  lemma LaterNext(a: Action, v: nat, k: nat)
    ensures Later(a, v, 0) == SystemState(a, REST, v) && Later(a, v, k + 1) == GetNextState(Later(a, v, k))
  {
  }

  /** The phases a full checkpoint goes through, and where the version moves. */
  lemma FullPhases(v: nat)
    ensures Later(CheckpointFull, v, 1) == SystemState(CheckpointFull, PREP_INDEX_CHKPT, v)
    ensures Later(CheckpointFull, v, 2) == SystemState(CheckpointFull, INDEX_CHKPT, v)
    ensures Later(CheckpointFull, v, 3) == SystemState(CheckpointFull, PREPARE, v)
    ensures Later(CheckpointFull, v, 4) == SystemState(CheckpointFull, IN_PROGRESS, v + 1)
    ensures Later(CheckpointFull, v, 5) == SystemState(CheckpointFull, WAIT_PENDING, v + 1)
    ensures Later(CheckpointFull, v, 6) == SystemState(CheckpointFull, WAIT_FLUSH, v + 1)
    ensures Later(CheckpointFull, v, 7) == SystemState(CheckpointFull, PERSISTENCE_CALLBACK, v + 1)
    ensures Later(CheckpointFull, v, 8) == SystemState(CheckpointFull, REST, v + 1)
  {
    LaterNext(CheckpointFull, v, 0);
    LaterNext(CheckpointFull, v, 1);
    LaterNext(CheckpointFull, v, 2);
    LaterNext(CheckpointFull, v, 3);
    LaterNext(CheckpointFull, v, 4);
    LaterNext(CheckpointFull, v, 5);
    LaterNext(CheckpointFull, v, 6);
    LaterNext(CheckpointFull, v, 7);
  }

  /** A checkpoint of the log alone. */
  lemma LogPhases(v: nat)
    ensures Later(CheckpointHybridLog, v, 1) == SystemState(CheckpointHybridLog, PREPARE, v)
    ensures Later(CheckpointHybridLog, v, 2) == SystemState(CheckpointHybridLog, IN_PROGRESS, v + 1)
    ensures Later(CheckpointHybridLog, v, 3) == SystemState(CheckpointHybridLog, WAIT_PENDING, v + 1)
    ensures Later(CheckpointHybridLog, v, 4) == SystemState(CheckpointHybridLog, WAIT_FLUSH, v + 1)
    ensures Later(CheckpointHybridLog, v, 5) == SystemState(CheckpointHybridLog, PERSISTENCE_CALLBACK, v + 1)
    ensures Later(CheckpointHybridLog, v, 6) == SystemState(CheckpointHybridLog, REST, v + 1)
  {
    LaterNext(CheckpointHybridLog, v, 0);
    LaterNext(CheckpointHybridLog, v, 1);
    LaterNext(CheckpointHybridLog, v, 2);
    LaterNext(CheckpointHybridLog, v, 3);
    LaterNext(CheckpointHybridLog, v, 4);
    LaterNext(CheckpointHybridLog, v, 5);
  }

  /** The actions that leave the version alone. */
  lemma OtherPhases(v: nat)
    ensures Later(CheckpointIndex, v, 1) == SystemState(CheckpointIndex, PREP_INDEX_CHKPT, v)
    ensures Later(CheckpointIndex, v, 2) == SystemState(CheckpointIndex, INDEX_CHKPT, v)
    ensures Later(CheckpointIndex, v, 3) == SystemState(CheckpointIndex, REST, v)
    ensures Later(GC, v, 1) == SystemState(GC, GC_IO_PENDING, v)
    ensures Later(GC, v, 2) == SystemState(GC, GC_IN_PROGRESS, v)
    ensures Later(GC, v, 3) == SystemState(GC, REST, v)
    ensures Later(GrowIndex, v, 1) == SystemState(GrowIndex, GROW_PREPARE, v)
    ensures Later(GrowIndex, v, 2) == SystemState(GrowIndex, GROW_IN_PROGRESS, v)
    ensures Later(GrowIndex, v, 3) == SystemState(GrowIndex, REST, v)
    ensures Later(ParserShift, v, 1) == SystemState(ParserShift, PS_PENDING, v)
    ensures Later(ParserShift, v, 2) == SystemState(ParserShift, REST, v)
  {
    LaterNext(CheckpointIndex, v, 0);
    LaterNext(CheckpointIndex, v, 1);
    LaterNext(CheckpointIndex, v, 2);
    LaterNext(GC, v, 0);
    LaterNext(GC, v, 1);
    LaterNext(GC, v, 2);
    LaterNext(GrowIndex, v, 0);
    LaterNext(GrowIndex, v, 1);
    LaterNext(GrowIndex, v, 2);
    LaterNext(ParserShift, v, 0);
    LaterNext(ParserShift, v, 1);
  }

  /** The handler of a phase, reached from the phase before it, can lead on: it acknowledges, at once or when its
      work is done, or moves the system itself. */
  predicate LeadsOn(a: Action, prev: Phase, cur: Phase) {
    MustAck(prev, cur) || MayAck(a, cur, prev) || !Barrier(a, cur)
  }

  // ---------------------------------------------------------------- actions as paths

  predicate Startable(a: Action) { !a.NoAction? && !a.Recover? }

  function Path(a: Action): (p: seq<Phase>)
    ensures Startable(a) ==> 2 <= |p| <= 8 && p[0] == REST
  {
    match a
    case CheckpointFull =>
      [REST, PREP_INDEX_CHKPT, INDEX_CHKPT, PREPARE, IN_PROGRESS, WAIT_PENDING, WAIT_FLUSH, PERSISTENCE_CALLBACK]
    case CheckpointIndex => [REST, PREP_INDEX_CHKPT, INDEX_CHKPT]
    case CheckpointHybridLog => [REST, PREPARE, IN_PROGRESS, WAIT_PENDING, WAIT_FLUSH, PERSISTENCE_CALLBACK]
    case GC => [REST, GC_IO_PENDING, GC_IN_PROGRESS]
    case GrowIndex => [REST, GROW_PREPARE, GROW_IN_PROGRESS]
    case ParserShift => [REST, PS_PENDING]
    case _ => [REST]
  }

  /** All phases but INDEX_CHKPT of a full checkpoint wait for everybody. */
  predicate Barrier(a: Action, phase: Phase) { !(a.CheckpointFull? && phase.INDEX_CHKPT?) }

  // ---------------------------------------------------------------- the machine

  datatype Context = Context(phase: Phase, version: nat)

  /** Where a session is in Refresh / HandleSpecialPhases / FinishThreadPhase / GlobalMoveToNextState. */
  datatype Pc =
    | Working                                                       // outside Refresh
    | Entering                                                      // about to load final_state
    | Handling(final: SystemState, prev: SystemState, cur: SystemState)
    | Scanning(final: SystemState, cur: SystemState, i: nat)        // acknowledged, about to compare entry i
    | Moving(final: SystemState, cur: SystemState)                  // about to swap the system state
    | Won(final: SystemState, cur: SystemState)                     // swapped it, side effects still to do
    | Closing(final: SystemState, cur: SystemState)                 // about to adopt cur

  /** The thread starting an action: resetting phase_finished, then ready to publish the first phase. */
  datatype Starter = NoStarter | Resetting(i: nat) | Prepared

  datatype Session = Session(ctx: Context, pc: Pc)

  datatype State = State(sys: SystemState, sessions: seq<Session>, acks: seq<Phase>, starter: Starter)

  datatype Step =
    | Refresh(t: nat)
    | LoadFinal(t: nat)
    | Skip(t: nat)
    | Ack(t: nat)
    | Direct(t: nat)
    | Compare(t: nat)
    | Move(t: nat)
    | Effect(t: nat)
    | Close(t: nat)
    | StartCas(a: Action)
    | Reset
    | StartWork
    | StartStore

  predicate Init(s: State, n: nat) {
    s == State(SystemState(NoAction, REST, 1), seq(n, _ => Session(Context(REST, 1), Working)), seq(n, _ => REST),
               NoStarter)
  }

  /** The handler of cur always acknowledges. */
  predicate MustAck(prev: Phase, cur: Phase) {
    match cur
    case PREP_INDEX_CHKPT => prev.REST?
    case PREPARE => !prev.PREPARE?
    case IN_PROGRESS => prev.PREPARE?
    case PERSISTENCE_CALLBACK => prev.WAIT_FLUSH?
    case GROW_PREPARE => prev.REST?
    case GROW_IN_PROGRESS => true
    case PS_PENDING => true
    case _ => false
  }

  /** The handler of cur acknowledges once its own work (pending I/O, flush, buckets to clean, index
      checkpoint) is done. */
  predicate MayAck(a: Action, cur: Phase, acked: Phase) {
    match cur
    case INDEX_CHKPT => a.CheckpointIndex?
    case WAIT_PENDING => acked != cur
    case WAIT_FLUSH => acked != cur
    case GC_IO_PENDING => acked != cur
    case GC_IN_PROGRESS => acked != cur
    case _ => false
  }

  predicate AtRest(session: Session) { session.pc.Working? && session.ctx.phase.REST? }

  /** The compare-and-swap that claims the system state. It does not look at the sessions; `ShiftMachine` says
      what goes wrong if one is not back at REST. */
  predicate Starts(s: State, s': State, a: Action) {
    && Startable(a) && s.starter.NoStarter? && s.sys.action.NoAction? && s.sys.phase.REST?
    && s' == s.(sys := s.sys.(action := a), starter := Resetting(0))
  }

  predicate NextStep(s: State, s': State, step: Step) {
    match step
    case StartCas(a) => Starts(s, s', a) && forall t | 0 <= t < |s.sessions| :: AtRest(s.sessions[t])
    case Reset =>
      && s.starter.Resetting? && s.starter.i < |s.acks|
      && s' == s.(acks := s.acks[s.starter.i := REST], starter := Resetting(s.starter.i + 1))
    case StartWork =>
      && s.starter.Resetting? && s.starter.i == |s.acks|
      && s' == s.(starter := Prepared)
    case StartStore =>
      && s.starter.Prepared?
      && s' == s.(sys := GetNextState(s.sys), starter := NoStarter)
    case _ =>
      step.t < |s.sessions| == |s.acks| && SessionStep(s, s', step, step.t, s.sessions[step.t])
  }

  predicate SessionStep(s: State, s': State, step: Step, t: nat, me: Session)
    requires t < |s.sessions| == |s.acks|
    requires !step.StartCas? && !step.Reset? && !step.StartWork? && !step.StartStore?
  {
    match step
    case Refresh(_) =>
      && me.pc.Working?
      && s' == Put(s, t, me.(pc := if me.ctx.phase.REST? && s.sys.phase.REST? then Working else Entering))
    case LoadFinal(_) =>
      && me.pc.Entering?
      && (if s.sys.phase.REST? then
            s' == Put(s, t, Session(Context(REST, s.sys.version), Working))
          else
            var prev := SystemState(s.sys.action, me.ctx.phase, me.ctx.version);
            s' == Put(s, t, me.(pc := Handling(s.sys, prev, if prev == s.sys then s.sys else GetNextState(prev)))))
    case Skip(_) =>
      && me.pc.Handling? && !MustAck(me.pc.prev.phase, me.pc.cur.phase)
      && s' == Put(s, t, me.(pc := Closing(me.pc.final, me.pc.cur)))
    case Ack(_) =>
      && me.pc.Handling?
      && (MustAck(me.pc.prev.phase, me.pc.cur.phase) || MayAck(me.pc.cur.action, me.pc.cur.phase, s.acks[t]))
      && var ctx := if me.pc.cur.phase.IN_PROGRESS? then Context(IN_PROGRESS, me.pc.cur.version) else me.ctx;
         s' == Put(s, t, Session(ctx, Scanning(me.pc.final, me.pc.cur, 0))).(acks := s.acks[t := me.pc.cur.phase])
    case Direct(_) =>
      && me.pc.Handling? && !Barrier(me.pc.cur.action, me.pc.cur.phase)
      && s' == Put(s, t, me.(pc := Moving(me.pc.final, me.pc.cur)))
    case Compare(_) =>
      && me.pc.Scanning?
      && s' == Put(s, t, me.(pc :=
           if me.pc.i >= |s.acks| then Moving(me.pc.final, me.pc.cur)
           else if s.acks[me.pc.i] == me.pc.cur.phase then Scanning(me.pc.final, me.pc.cur, me.pc.i + 1)
           else Closing(me.pc.final, me.pc.cur)))
    case Move(_) =>
      && me.pc.Moving?
      && (if s.sys == me.pc.cur
          then s' == Put(s, t, me.(pc := Won(me.pc.final, me.pc.cur))).(sys := GetNextState(me.pc.cur))
          else s' == Put(s, t, me.(pc := Closing(me.pc.final, me.pc.cur))))
    case Effect(_) =>
      && me.pc.Won?
      && var next := GetNextState(me.pc.cur);
         s' == Put(s, t, me.(pc := Closing(me.pc.final, me.pc.cur)))
                 .(sys := if next.phase.REST? then SystemState(NoAction, REST, next.version) else s.sys)
    case Close(_) =>
      && me.pc.Closing?
      && var ctx := Context(me.pc.cur.phase, me.pc.cur.version);
         s' == Put(s, t, Session(ctx, if me.pc.cur == me.pc.final then Working
                                      else Handling(me.pc.final, me.pc.cur, GetNextState(me.pc.cur))))
  }

  function Put(s: State, t: nat, me: Session): State
    requires t < |s.sessions|
  {
    s.(sessions := s.sessions[t := me])
  }

  // ---------------------------------------------------------------- refinement of PhaseSpec

  /** `tab` lists the system states an action passes through from version v, REST at both ends. */
  predicate IsTable(tab: seq<SystemState>, cfg: P.Config, v: nat) {
    && P.ValidConfig(cfg) && |tab| == cfg.length + 1
    && tab[0].phase.REST? && tab[cfg.length].phase.REST?
    && (forall k {:trigger GetNextState(tab[k])} | 0 <= k < cfg.length :: GetNextState(tab[k]) == tab[k + 1])
    && (forall j, k | 0 <= j < k < cfg.length :: tab[j].phase != tab[k].phase)
    && (forall k | 0 <= k <= cfg.length ::
          && tab[k].version == (if k >= cfg.shift then v + 1 else v)
          && tab[k].action == tab[0].action && !tab[k].action.NoAction? && !tab[k].phase.INVALID?)
    && (forall k | 0 <= k < cfg.length ::
          (tab[k].phase.IN_PROGRESS? <==> k == cfg.shift) && (cfg.barrier[k] <==> Barrier(tab[k].action, tab[k].phase)))
    && (cfg.shift < cfg.length ==> tab[cfg.shift - 1].phase.PREPARE?)
  }

  /** A session's context and program counter are the abstract positions spelled out as states. */
  predicate SessionMatches(tab: seq<SystemState>, me: Session, h: P.Session) {
    && h.c < |tab| && me.ctx == Context(tab[h.c].phase, tab[h.c].version)
    && (P.InHandler(h.pc) ==>
          h.k < |tab| && h.f < |tab| && InHandler(me.pc) && me.pc.final == tab[h.f] && me.pc.cur == tab[h.k])
    && match h.pc
       case Working => me.pc.Working?
       case Entering => me.pc.Entering?
       case Handling => me.pc.Handling? && me.pc.prev == tab[h.c]
       case Scanning(i) => me.pc.Scanning? && me.pc.i == i
       case Moving => me.pc.Moving?
       case Won => me.pc.Won?
       case Closing => me.pc.Closing?
  }

  predicate InHandler(pc: Pc) { !pc.Working? && !pc.Entering? }

  predicate SystemMatches(s: State, tab: seq<SystemState>, h: P.State) {
    && IsTable(tab, h.cfg, h.version) && |s.sessions| == |s.acks| == |h.sessions|
    && h.pos < |tab| && (!h.open ==> h.pos == h.cfg.length)
    && s.sys == (if h.open then tab[h.pos] else tab[h.pos].(action := NoAction))
    && (h.starting <==> !s.starter.NoStarter?)
  }

  /** An action is under way, or some session has not yet left the handler of its last phase. */
  predicate Live(h: P.State) { h.open || exists t | 0 <= t < |h.sessions| :: P.InHandler(h.sessions[t].pc) }

  /** While an action is being started the entries are still being reset; afterwards each holds the
      phase its session acknowledged last. */
  predicate AcksMatch(s: State, tab: seq<SystemState>, h: P.State)
    requires SystemMatches(s, tab, h)
  {
    && (h.pos > 0 && Live(h) ==> forall t | 0 <= t < |s.acks| ::
                                   h.sessions[t].a < h.cfg.length && s.acks[t] == tab[h.sessions[t].a].phase)
    && (s.starter.Resetting? ==> s.starter.i <= |s.acks| && forall t | 0 <= t < s.starter.i :: s.acks[t] == REST)
    && (s.starter.Prepared? ==> forall t | 0 <= t < |s.acks| :: s.acks[t] == REST)
  }

  predicate Matches(s: State, tab: seq<SystemState>, h: P.State) {
    && SystemMatches(s, tab, h) && AcksMatch(s, tab, h)
    && forall t | 0 <= t < |s.sessions| :: SessionMatches(tab, s.sessions[t], h.sessions[t])
  }

  predicate StarterStep(step: Step) { step.StartCas? || step.Reset? || step.StartWork? || step.StartStore? }

  /** The system state names its position, except that REST is at both ends. */
  lemma KnowsPosition(s: State, tab: seq<SystemState>, h: P.State, k: nat)
    requires SystemMatches(s, tab, h) && 1 <= k < h.cfg.length
    ensures s.sys == tab[k] <==> h.pos == k
    ensures s.sys.phase == tab[k].phase <==> h.pos == k
    ensures s.sys.phase.REST? <==> h.pos == 0 || h.pos == h.cfg.length
    ensures !tab[k].phase.REST? && (tab[k + 1].phase.REST? <==> k + 1 == h.cfg.length)
    ensures GetNextState(tab[k]) == tab[k + 1]
  {
    assert tab[0].phase != tab[k].phase;
    if k + 1 < h.cfg.length { assert tab[0].phase != tab[k + 1].phase; }
  }

  /** `previous == final ? final : previous.GetNextState()` is the next position to handle. */
  lemma EnterHandler(s: State, tab: seq<SystemState>, h: P.State, ctx: Context, c: nat)
    requires SystemMatches(s, tab, h) && c <= h.pos && ctx == Context(tab[c].phase, tab[c].version)
    ensures s.sys.phase.REST? <==> h.pos == 0 || h.pos == h.cfg.length
    ensures !s.sys.phase.REST? ==>
              var prev := SystemState(s.sys.action, ctx.phase, ctx.version);
              && prev == tab[c] && (prev == s.sys <==> c == h.pos)
              && (c < h.pos ==> GetNextState(prev) == tab[c + 1])
  {
    KnowsPosition(s, tab, h, 1);
    if !s.sys.phase.REST? && c < h.pos {
      assert tab[c].phase != tab[h.pos].phase;
      assert GetNextState(tab[c]) == tab[c + 1];
    }
  }

  /** An entry equal to the phase being acknowledged was stored for this very position. */
  lemma ComparesAcks(s: State, tab: seq<SystemState>, h: P.State, i: nat, k: nat)
    requires SystemMatches(s, tab, h) && AcksMatch(s, tab, h) && h.pos > 0 && Live(h) && i < |s.acks|
    requires k < h.cfg.length
    ensures s.acks[i] == tab[k].phase <==> h.sessions[i].a == k
  {
    assert s.acks[i] == tab[h.sessions[i].a].phase;
  }

  /** The abstract step a session's step takes. */
  function AbsStep(s: State, step: Step): P.Step
    requires !StarterStep(step) && step.t < |s.sessions|
  {
    match step
    case Refresh(t) => P.Refresh(t, !(s.sessions[t].ctx.phase.REST? && s.sys.phase.REST?))
    case LoadFinal(t) => P.LoadFinal(t)
    case Skip(t) => P.Skip(t)
    case Ack(t) => P.Ack(t)
    case Direct(t) => P.Direct(t)
    case Compare(t) => P.Compare(t)
    case Move(t) => P.Move(t)
    case Effect(t) => P.Effect(t)
    case Close(t) => P.Close(t)
  }

  /** A session's step, with what relates that session to its abstract counterpart. */
  predicate Related(s: State, s': State, step: Step, tab: seq<SystemState>, h: P.State) {
    && NextStep(s, s', step) && !StarterStep(step) && SystemMatches(s, tab, h) && AcksMatch(s, tab, h)
    && step.t < |h.sessions| && SessionMatches(tab, s.sessions[step.t], h.sessions[step.t])
    && P.SystemInv(h) && P.SessionInv(h, h.sessions[step.t])
  }

  /** The session's successor in the abstract machine. */
  function AbsSession(h: P.State, step: P.Step): P.Session
    requires !step.Start? && !step.Publish? && step.t < |h.sessions|
  {
    var me := h.sessions[step.t];
    match step
    case Refresh(_, enter) => me.(pc := if enter then P.Entering else P.Working)
    case LoadFinal(_) =>
      if h.pos == 0 || h.pos == h.cfg.length then me.(pc := P.Working, c := h.pos)
      else me.(pc := P.Handling, f := h.pos, k := if me.c == h.pos then me.c else me.c + 1)
    case Skip(_) => me.(pc := P.Closing)
    case Ack(_) => me.(pc := P.Scanning(0), a := me.k, c := if me.k == h.cfg.shift then me.k else me.c)
    case Direct(_) => me.(pc := P.Moving)
    case Compare(_) =>
      me.(pc := if !me.pc.Scanning? || me.pc.i >= |h.sessions| then P.Moving
                else if h.sessions[me.pc.i].a == me.k then P.Scanning(me.pc.i + 1)
                else P.Closing)
    case Move(_) => me.(pc := if h.pos == me.k then P.Won else P.Closing)
    case Effect(_) => me.(pc := P.Closing)
    case Close(_) => if me.k == me.f then me.(pc := P.Working, c := me.k)
                     else me.(pc := P.Handling, c := me.k, k := me.k + 1)
  }

  function AbsNext(h: P.State, step: P.Step): P.State
    requires !step.Start? && !step.Publish? && step.t < |h.sessions|
  {
    var me := h.sessions[step.t];
    h.(sessions := h.sessions[step.t := AbsSession(h, step)],
       last := if step.Ack? then step.t else h.last,
       pos := if step.Move? && h.pos == me.k then h.pos + 1 else h.pos,
       open := h.open && !(step.Effect? && me.k + 1 == h.cfg.length))
  }

  /** What the code's comparisons of states amount to, in positions. */
  lemma ReadsPositions(s: State, tab: seq<SystemState>, h: P.State, me: P.Session)
    requires SystemMatches(s, tab, h) && AcksMatch(s, tab, h) && P.SystemInv(h) && P.SessionInv(h, me)
    requires P.InHandler(me.pc) && Live(h)
    ensures 1 <= me.k <= me.f < h.cfg.length
    ensures (s.sys == tab[me.k] <==> h.pos == me.k) && (tab[me.k] == tab[me.f] <==> me.k == me.f)
    ensures GetNextState(tab[me.k]) == tab[me.k + 1] && (tab[me.k + 1].phase.REST? <==> me.k + 1 == h.cfg.length)
    ensures me.pc.Scanning? && me.pc.i < |s.acks| ==>
              (s.acks[me.pc.i] == tab[me.k].phase <==> h.sessions[me.pc.i].a == me.k)
  {
    KnowsPosition(s, tab, h, me.k);
    if me.pc.Scanning? && me.pc.i < |s.acks| { ComparesAcks(s, tab, h, me.pc.i, me.k); }
  }

  lemma AckSteps(s: State, s': State, step: Step, tab: seq<SystemState>, h: P.State)
    requires Related(s, s', step, tab, h) && (step.Skip? || step.Ack? || step.Direct?)
    ensures P.NextStep(h, AbsNext(h, AbsStep(s, step)), AbsStep(s, step))
  {
  }

  lemma OtherSteps(s: State, s': State, step: Step, tab: seq<SystemState>, h: P.State)
    requires Related(s, s', step, tab, h) && !(step.Skip? || step.Ack? || step.Direct?)
    ensures P.NextStep(h, AbsNext(h, AbsStep(s, step)), AbsStep(s, step))
  {
  }

  lemma StepRefines(s: State, s': State, step: Step, tab: seq<SystemState>, h: P.State)
    requires Related(s, s', step, tab, h)
    ensures P.NextStep(h, AbsNext(h, AbsStep(s, step)), AbsStep(s, step))
  {
    if step.Skip? || step.Ack? || step.Direct? {
      AckSteps(s, s', step, tab, h);
    } else {
      OtherSteps(s, s', step, tab, h);
    }
  }

  lemma SystemRefines(s: State, s': State, step: Step, tab: seq<SystemState>, h: P.State)
    requires Related(s, s', step, tab, h)
    ensures SystemMatches(s', tab, AbsNext(h, AbsStep(s, step)))
  {
    if P.InHandler(h.sessions[step.t].pc) { ReadsPositions(s, tab, h, h.sessions[step.t]); }
  }

  lemma EnterRefines(s: State, s': State, t: nat, tab: seq<SystemState>, h: P.State)
    requires Related(s, s', LoadFinal(t), tab, h)
    ensures SessionMatches(tab, s'.sessions[t], AbsSession(h, P.LoadFinal(t)))
  {
    EnterHandler(s, tab, h, s.sessions[t].ctx, h.sessions[t].c);
  }

  lemma HandlerRefines(s: State, s': State, step: Step, tab: seq<SystemState>, h: P.State)
    requires Related(s, s', step, tab, h) && (step.Ack? || step.Compare?)
    ensures SessionMatches(tab, s'.sessions[step.t], AbsSession(h, AbsStep(s, step)))
  {
    ReadsPositions(s, tab, h, h.sessions[step.t]);
  }

  lemma CloseRefines(s: State, s': State, t: nat, tab: seq<SystemState>, h: P.State)
    requires Related(s, s', Close(t), tab, h)
    ensures SessionMatches(tab, s'.sessions[t], AbsSession(h, P.Close(t)))
  {
    ReadsPositions(s, tab, h, h.sessions[t]);
  }

  lemma MoveRefines(s: State, s': State, step: Step, tab: seq<SystemState>, h: P.State)
    requires Related(s, s', step, tab, h) && (step.Move? || step.Effect?)
    ensures SessionMatches(tab, s'.sessions[step.t], AbsSession(h, AbsStep(s, step)))
  {
    ReadsPositions(s, tab, h, h.sessions[step.t]);
  }

  lemma LeaveRefines(s: State, s': State, step: Step, tab: seq<SystemState>, h: P.State)
    requires Related(s, s', step, tab, h) && (step.Refresh? || step.Skip? || step.Direct?)
    ensures SessionMatches(tab, s'.sessions[step.t], AbsSession(h, AbsStep(s, step)))
  {
  }

  lemma MoverRefines(s: State, s': State, step: Step, tab: seq<SystemState>, h: P.State)
    requires Related(s, s', step, tab, h)
    ensures SessionMatches(tab, s'.sessions[step.t], AbsSession(h, AbsStep(s, step)))
  {
    if step.LoadFinal? {
      EnterRefines(s, s', step.t, tab, h);
    } else if step.Close? {
      CloseRefines(s, s', step.t, tab, h);
    } else if step.Ack? || step.Compare? {
      HandlerRefines(s, s', step, tab, h);
    } else if step.Move? || step.Effect? {
      MoveRefines(s, s', step, tab, h);
    } else {
      LeaveRefines(s, s', step, tab, h);
    }
  }

  /** Once nothing is live, a session's step leaves it so. */
  lemma LiveBefore(s: State, s': State, step: Step, tab: seq<SystemState>, h: P.State)
    requires Related(s, s', step, tab, h) && Live(AbsNext(h, AbsStep(s, step)))
    ensures Live(h)
  {
    var t, h' := step.t, AbsNext(h, AbsStep(s, step));
    if !h'.open {
      var u :| 0 <= u < |h'.sessions| && P.InHandler(h'.sessions[u].pc);
      if u != t { assert h'.sessions[u] == h.sessions[u]; }
    }
  }

  lemma OnlyAckWrites(s: State, s': State, step: Step, h: P.State)
    requires NextStep(s, s', step) && !StarterStep(step) && !step.Ack? && step.t < |h.sessions| == |s.sessions|
    requires P.SystemInv(h)
    ensures s'.acks == s.acks && s'.starter == s.starter
    ensures AbsSession(h, AbsStep(s, step)).a == h.sessions[step.t].a
  {
  }

  /** Nothing that the entries are compared with changes. */
  predicate Kept(s: State, s': State, h: P.State, h': P.State) {
    && s'.acks == s.acks && s'.starter == s.starter && h'.cfg == h.cfg && |h'.sessions| == |h.sessions|
    && (forall u | 0 <= u < |h.sessions| :: h'.sessions[u].a == h.sessions[u].a)
    && (h'.pos > 0 ==> h.pos > 0) && (Live(h') ==> Live(h))
  }

  lemma AcksSame(s: State, s': State, tab: seq<SystemState>, h: P.State, h': P.State)
    requires SystemMatches(s, tab, h) && SystemMatches(s', tab, h') && AcksMatch(s, tab, h) && Kept(s, s', h, h')
    ensures AcksMatch(s', tab, h')
  {
  }

  lemma StartedBefore(s: State, s': State, step: Step, tab: seq<SystemState>, h: P.State)
    requires Related(s, s', step, tab, h)
    ensures AbsNext(h, AbsStep(s, step)).pos > 0 ==> h.pos > 0
  {
  }

  lemma StepKeeps(s: State, s': State, step: Step, tab: seq<SystemState>, h: P.State)
    requires Related(s, s', step, tab, h) && !step.Ack?
    ensures Kept(s, s', h, AbsNext(h, AbsStep(s, step)))
  {
    OnlyAckWrites(s, s', step, h);
    StartedBefore(s, s', step, tab, h);
    if Live(AbsNext(h, AbsStep(s, step))) { LiveBefore(s, s', step, tab, h); }
  }

  lemma AcksKept(s: State, s': State, step: Step, tab: seq<SystemState>, h: P.State)
    requires Related(s, s', step, tab, h) && SystemMatches(s', tab, AbsNext(h, AbsStep(s, step))) && !step.Ack?
    ensures AcksMatch(s', tab, AbsNext(h, AbsStep(s, step)))
  {
    StepKeeps(s, s', step, tab, h);
    AcksSame(s, s', tab, h, AbsNext(h, AbsStep(s, step)));
  }

  lemma AcksRefine(s: State, s': State, step: Step, tab: seq<SystemState>, h: P.State)
    requires Related(s, s', step, tab, h) && SystemMatches(s', tab, AbsNext(h, AbsStep(s, step)))
    ensures AcksMatch(s', tab, AbsNext(h, AbsStep(s, step)))
  {
    if step.Ack? {
      var t, me, h' := step.t, h.sessions[step.t], AbsNext(h, AbsStep(s, step));
      assert Live(h);
      assert s'.acks == s.acks[t := tab[me.k].phase];
      assert forall u | 0 <= u < |s.acks| :: h'.sessions[u].a == if u == t then me.k else h.sessions[u].a;
    } else {
      AcksKept(s, s', step, tab, h);
    }
  }

  lemma SessionRefines(s: State, s': State, step: Step, tab: seq<SystemState>, h: P.State)
    requires Related(s, s', step, tab, h) && Matches(s, tab, h)
    ensures Matches(s', tab, AbsNext(h, AbsStep(s, step)))
  {
    SystemRefines(s, s', step, tab, h);
    MoverRefines(s, s', step, tab, h);
    AcksRefine(s, s', step, tab, h);
    var t, h' := step.t, AbsNext(h, AbsStep(s, step));
    forall u | 0 <= u < |s'.sessions| ensures SessionMatches(tab, s'.sessions[u], h'.sessions[u]) {
      if u != t { assert s'.sessions[u] == s.sessions[u] && h'.sessions[u] == h.sessions[u]; }
    }
  }

  // ---------------------------------------------------------------- starting an action

  /** The position of IN_PROGRESS, where the version moves; past the end for actions without it. */
  function Shift(a: Action): nat {
    if a.CheckpointFull? then 4 else if a.CheckpointHybridLog? then 2 else 100
  }

  function ConfigOf(a: Action): P.Config {
    P.Config(|Path(a)|, Shift(a), seq(|Path(a)|, k requires 0 <= k < |Path(a)| => Barrier(a, Path(a)[k])))
  }

  /** The system state when action a, begun at version v, has reached position k. */
  function At(a: Action, v: nat, k: nat): SystemState {
    SystemState(a, if k < |Path(a)| then Path(a)[k] else REST, if k >= Shift(a) then v + 1 else v)
  }

  function Table(a: Action, v: nat): (tab: seq<SystemState>) { seq(|Path(a)| + 1, k requires 0 <= k => At(a, v, k)) }

  /** The positions of PhaseSpec are the states that GetNextState reaches. */
  lemma {:induction false} TableIsLater(a: Action, v: nat, k: nat)
    requires Startable(a) && k <= |Path(a)|
    ensures Table(a, v)[k] == Later(a, v, k)
  {
    if k > 0 {
      TableIsLater(a, v, k - 1);
      PathStep(a, v, k - 1);
    } else {
      assert Path(a)[0] == REST && Shift(a) > 0;
    }
  }

  lemma PathLeadsOn(a: Action, k: nat)
    requires Startable(a) && 1 <= k < |Path(a)|
    ensures LeadsOn(a, Path(a)[k - 1], Path(a)[k])
  {
    var p := Path(a);
    assert k == 1 || k == 2 || k == 3 || k == 4 || k == 5 || k == 6 || k == 7;
  }

  /** No action has a dead end: every state it passes through on the way back to REST leads on. */
  lemma NoDeadEnd(a: Action, v: nat, k: nat)
    requires Startable(a) && 1 <= k < ConfigOf(a).length
    ensures LeadsOn(a, Later(a, v, k - 1).phase, Later(a, v, k).phase)
    ensures Later(a, v, ConfigOf(a).length).phase.REST?
  {
    TableIsLater(a, v, k - 1);
    TableIsLater(a, v, k);
    TableIsLater(a, v, |Path(a)|);
    PathLeadsOn(a, k);
  }

  lemma PathStep(a: Action, v: nat, k: nat)
    requires Startable(a) && k < |Path(a)|
    ensures GetNextState(At(a, v, k)) == At(a, v, k + 1)
    ensures Path(a)[k].IN_PROGRESS? <==> k == Shift(a)
    ensures k + 1 == |Path(a)| ==> Barrier(a, Path(a)[k])
    ensures !Path(a)[k].INVALID?
  {
    var p := Path(a);
    assert k == 0 || k == 1 || k == 2 || k == 3 || k == 4 || k == 5 || k == 6 || k == 7;
  }

  lemma PhasesDiffer(a: Action, j: nat, k: nat)
    requires Startable(a) && j < k < |Path(a)|
    ensures Path(a)[j] != Path(a)[k]
  {
    var p := Path(a);
  }

  /** A path whose phases differ and which GetNextState walks makes a table. */
  lemma PathTable(a: Action, v: nat, p: seq<Phase>, shift: nat, tab: seq<SystemState>, cfg: P.Config)
    requires !a.NoAction? && |p| >= 2 && p[0] == REST && 1 <= shift != |p| && (shift < |p| ==> p[shift - 1].PREPARE?)
    requires cfg.length == |p| == |cfg.barrier| && cfg.shift == shift && |tab| == |p| + 1
    requires forall k | 0 <= k < |p| ::
               cfg.barrier[k] == Barrier(a, p[k]) && (p[k].IN_PROGRESS? <==> k == shift) && !p[k].INVALID?
    requires cfg.barrier[|p| - 1]
    requires forall k | 0 <= k <= |p| ::
               tab[k] == SystemState(a, if k < |p| then p[k] else REST, if k >= shift then v + 1 else v)
    requires forall j, k | 0 <= j < k < |p| :: p[j] != p[k]
    requires forall k {:trigger GetNextState(tab[k])} | 0 <= k < |p| :: GetNextState(tab[k]) == tab[k + 1]
    ensures IsTable(tab, cfg, v)
  {
  }

  /** GetNextState walks through exactly the phases of Path. */
  lemma TableIsTable(a: Action, v: nat)
    requires Startable(a)
    ensures IsTable(Table(a, v), ConfigOf(a), v)
  {
    var p, tab, cfg := Path(a), Table(a, v), ConfigOf(a);
    forall k | 0 <= k < |p|
      ensures GetNextState(tab[k]) == tab[k + 1] && (p[k].IN_PROGRESS? <==> k == Shift(a)) && !p[k].INVALID?
      ensures k + 1 == |p| ==> cfg.barrier[k]
    {
      PathStep(a, v, k);
    }
    forall j, k | 0 <= j < k < |p| ensures p[j] != p[k] {
      PhasesDiffer(a, j, k);
    }
    PathTable(a, v, p, Shift(a), tab, cfg);
  }

  function Started(s: State, cfg: P.Config, h: P.State): P.State {
    P.State(cfg, s.sys.version, 0, true, true, seq(|h.sessions|, _ => P.Session(P.Working, 0, 0, 0, 0)), h.last)
  }

  /** A session that is back at REST has finished the previous action. */
  lemma RestIsTheEnd(s: State, tab: seq<SystemState>, h: P.State, t: nat)
    requires Matches(s, tab, h) && P.Inv(h) && !h.open && t < |s.sessions| && AtRest(s.sessions[t])
    ensures h.sessions[t].pc.Working? && h.sessions[t].c == h.cfg.length
  {
    var me := h.sessions[t];
    assert SessionMatches(tab, s.sessions[t], me) && P.SessionInv(h, me);
    assert h.cfg.barrier[h.cfg.length - 1] && me.a >= h.cfg.length - 1;
  }

  lemma StartRefines(s: State, s': State, tab: seq<SystemState>, h: P.State, b: Action, tab': seq<SystemState>,
                     cfg: P.Config)
    requires Matches(s, tab, h) && P.Inv(h) && NextStep(s, s', StartCas(b))
    requires IsTable(tab', cfg, s.sys.version) && tab'[0] == SystemState(b, REST, s.sys.version)
    ensures P.NextStep(h, Started(s, cfg, h), P.Start(cfg)) && Matches(s', tab', Started(s, cfg, h))
  {
    forall t | 0 <= t < |s.sessions| ensures h.sessions[t].pc.Working? && h.sessions[t].c == h.cfg.length {
      RestIsTheEnd(s, tab, h, t);
    }
    var h' := Started(s, cfg, h);
    assert s.sys.version == P.VersionAt(h, h.pos);
    forall t | 0 <= t < |s'.sessions| ensures SessionMatches(tab', s'.sessions[t], h'.sessions[t]) {
      assert SessionMatches(tab, s.sessions[t], h.sessions[t]);
    }
  }

  lemma PublishRefines(s: State, s': State, tab: seq<SystemState>, h: P.State)
    requires Matches(s, tab, h) && P.Inv(h) && NextStep(s, s', StartStore)
    ensures P.NextStep(h, h.(starting := false, pos := 1), P.Publish)
    ensures Matches(s', tab, h.(starting := false, pos := 1))
  {
    assert GetNextState(tab[0]) == tab[1];
    var h' := h.(starting := false, pos := 1);
    assert AcksMatch(s', tab, h');
  }

  lemma ResetRefines(s: State, s': State, tab: seq<SystemState>, h: P.State, step: Step)
    requires Matches(s, tab, h) && P.Inv(h) && NextStep(s, s', step) && (step.Reset? || step.StartWork?)
    ensures Matches(s', tab, h)
  {
    assert h.pos == 0;
  }

  lemma WorkRefines(s: State, s': State, step: Step, tab: seq<SystemState>, h: P.State)
    requires Matches(s, tab, h) && P.Inv(h) && NextStep(s, s', step) && !StarterStep(step)
    ensures var h' := AbsNext(h, AbsStep(s, step));
            Matches(s', tab, h') && P.Inv(h') && P.NextStep(h, h', AbsStep(s, step))
  {
    assert SessionMatches(tab, s.sessions[step.t], h.sessions[step.t]) && P.SessionInv(h, h.sessions[step.t]);
    SessionRefines(s, s', step, tab, h);
    StepRefines(s, s', step, tab, h);
    P.InvInductive(h, AbsNext(h, AbsStep(s, step)), AbsStep(s, step));
  }

  lemma ActionRefines(s: State, s': State, a: Action, tab: seq<SystemState>, h: P.State) returns (h': P.State)
    requires Matches(s, tab, h) && P.Inv(h) && NextStep(s, s', StartCas(a))
    ensures Matches(s', Table(a, s.sys.version), h') && P.Inv(h') && P.NextStep(h, h', P.Start(ConfigOf(a)))
  {
    TableIsTable(a, s.sys.version);
    StartRefines(s, s', tab, h, a, Table(a, s.sys.version), ConfigOf(a));
    h' := Started(s, ConfigOf(a), h);
    P.InvInductive(h, h', P.Start(ConfigOf(a)));
  }

  lemma StoreRefines(s: State, s': State, tab: seq<SystemState>, h: P.State) returns (h': P.State)
    requires Matches(s, tab, h) && P.Inv(h) && NextStep(s, s', StartStore)
    ensures Matches(s', tab, h') && P.Inv(h') && P.NextStep(h, h', P.Publish)
  {
    PublishRefines(s, s', tab, h);
    h' := h.(starting := false, pos := 1);
    P.InvInductive(h, h', P.Publish);
  }

  /** The refinement: every step of the machine is a step of PhaseSpec or leaves it alone. */
  lemma Refines(s: State, s': State, step: Step, tab: seq<SystemState>, h: P.State)
      returns (tab': seq<SystemState>, h': P.State, absStep: P.Step)
    requires Matches(s, tab, h) && P.Inv(h) && NextStep(s, s', step)
    ensures Matches(s', tab', h') && P.Inv(h')
    ensures (h' == h && tab' == tab && !step.Move?) || P.NextStep(h, h', absStep)
    ensures absStep.Start? <==> step.StartCas?
    ensures step.StartCas? ==> absStep.cfg == ConfigOf(step.a) && tab' == Table(step.a, s.sys.version)
    ensures !step.StartCas? ==> tab' == tab
    ensures step.Reset? || step.StartWork? ==> h' == h
    ensures step.StartStore? ==> absStep.Publish? && P.NextStep(h, h', absStep)
    ensures !StarterStep(step) ==> step.t < |s.sessions| && absStep == AbsStep(s, step) && P.NextStep(h, h', absStep)
  {
    tab', h', absStep := tab, h, P.Publish;
    if step.StartCas? {
      tab', absStep := Table(step.a, s.sys.version), P.Start(ConfigOf(step.a));
      h' := ActionRefines(s, s', step.a, tab, h);
    } else if step.StartStore? {
      h' := StoreRefines(s, s', tab, h);
    } else if StarterStep(step) {
      ResetRefines(s, s', tab, h, step);
    } else {
      absStep := AbsStep(s, step);
      h' := AbsNext(h, absStep);
      WorkRefines(s, s', step, tab, h);
    }
  }

  // ---------------------------------------------------------------- runs

  predicate IsRun(run: seq<State>, steps: seq<Step>, n: nat) {
    && |run| == |steps| + 1 && Init(run[0], n)
    && forall i {:trigger steps[i]} | 0 <= i < |steps| :: NextStep(run[i], run[i + 1], steps[i])
  }

  ghost predicate Implements(s: State) {
    exists tab, h :: Matches(s, tab, h) && P.Inv(h)
  }

  lemma InitImplements(s: State, n: nat)
    requires Init(s, n)
    ensures Implements(s)
  {
    var tab := Table(ParserShift, 1);
    var h := P.State(ConfigOf(ParserShift), 1, 2, false, false, seq(n, _ => P.Session(P.Working, 2, 2, 2, 1)), 0);
    TableIsTable(ParserShift, 1);
    assert P.Inv(h);
    assert Matches(s, tab, h);
  }

  lemma {:induction false} RunImplements(run: seq<State>, steps: seq<Step>, n: nat, i: nat)
    requires IsRun(run, steps, n) && i < |run|
    ensures Implements(run[i])
  {
    if i == 0 {
      InitImplements(run[0], n);
    } else {
      RunImplements(run, steps, n, i - 1);
      var tab, h :| Matches(run[i - 1], tab, h) && P.Inv(h);
      assert NextStep(run[i - 1], run[i], steps[i - 1]);
      var tab', h', absStep := Refines(run[i - 1], run[i], steps[i - 1], tab, h);
    }
  }

  /** Moving on from a barrier, seen from one state. */
  lemma MoveWaits(s: State, s': State, t: nat, tab: seq<SystemState>, h: P.State)
    requires Matches(s, tab, h) && P.Inv(h) && NextStep(s, s', Move(t)) && s.sessions[t].pc.Moving?
    requires s.sys == s.sessions[t].pc.cur
    requires Barrier(s.sys.action, s.sys.phase)
    ensures forall u | 0 <= u < |s.acks| :: s.acks[u] == s.sys.phase
  {
    assert SessionMatches(tab, s.sessions[t], h.sessions[t]) && P.SessionInv(h, h.sessions[t]);
    ReadsPositions(s, tab, h, h.sessions[t]);
    StepRefines(s, s', Move(t), tab, h);
    P.BarrierWaits(h, AbsNext(h, P.Move(t)), t);
  }

  /** Barriers hold: in every run, a session that moves the system on from a barrier phase does so
      when every session's phase_finished entry holds that phase. */
  lemma BarrierWaits(run: seq<State>, steps: seq<Step>, n: nat, i: nat)
    requires IsRun(run, steps, n) && i < |steps| && Takes(run[i], steps[i], run[i].sys)
    requires Barrier(run[i].sys.action, run[i].sys.phase)
    ensures forall u | 0 <= u < |run[i].acks| :: run[i].acks[u] == run[i].sys.phase
  {
    RunImplements(run, steps, n, i);
    var tab, h :| Matches(run[i], tab, h) && P.Inv(h);
    assert NextStep(run[i], run[i + 1], steps[i]);
    MoveWaits(run[i], run[i + 1], steps[i].t, tab, h);
  }

  lemma SomeoneMoves(s: State, tab: seq<SystemState>, h: P.State) returns (t: nat)
    requires Matches(s, tab, h) && P.Inv(h) && |s.sessions| > 0
    requires !s.sys.phase.REST? && Barrier(s.sys.action, s.sys.phase)
    requires forall u | 0 <= u < |s.acks| :: s.acks[u] == s.sys.phase
    ensures t < |s.sessions| && (s.sessions[t].pc.Scanning? || s.sessions[t].pc.Moving?)
    ensures s.sessions[t].pc.cur == s.sys
  {
    KnowsPosition(s, tab, h, 1);
    forall u | 0 <= u < |h.sessions| ensures h.sessions[u].a == h.pos {
      ComparesAcks(s, tab, h, u, h.pos);
    }
    assert h.cfg.barrier[h.pos] && P.AllAcked(h);
    t := h.last;
    assert SessionMatches(tab, s.sessions[t], h.sessions[t]);
  }

  lemma {:induction false} RunSessions(run: seq<State>, steps: seq<Step>, n: nat, i: nat)
    requires IsRun(run, steps, n) && i < |run|
    ensures |run[i].sessions| == n
  {
    if i > 0 {
      RunSessions(run, steps, n, i - 1);
      assert NextStep(run[i - 1], run[i], steps[i - 1]);
    }
  }

  /** A barrier is never lost: when every session's entry holds the present barrier phase, some session
      is on its way to moving the system on from it (and PhaseSpec.LastFinishes says it needs no one else). */
  lemma NoLostBarrier(run: seq<State>, steps: seq<Step>, n: nat, i: nat) returns (t: nat)
    requires IsRun(run, steps, n) && i < |run| && n > 0
    requires !run[i].sys.phase.REST? && Barrier(run[i].sys.action, run[i].sys.phase)
    requires forall u | 0 <= u < |run[i].acks| :: run[i].acks[u] == run[i].sys.phase
    ensures t < |run[i].sessions| && (run[i].sessions[t].pc.Scanning? || run[i].sessions[t].pc.Moving?)
    ensures run[i].sessions[t].pc.cur == run[i].sys
  {
    RunImplements(run, steps, n, i);
    RunSessions(run, steps, n, i);
    var tab, h :| Matches(run[i], tab, h) && P.Inv(h);
    t := SomeoneMoves(run[i], tab, h);
  }

  lemma GapInState(s: State, t: nat, tab: seq<SystemState>, h: P.State)
    requires Matches(s, tab, h) && P.Inv(h) && t < |s.sessions|
    ensures s.sessions[t].ctx.version <= s.sys.version <= s.sessions[t].ctx.version + 1
    ensures !s.sys.phase.IN_PROGRESS? ==> s.sessions[t].ctx.version == s.sys.version
    ensures !s.sys.phase.INVALID? && !s.sessions[t].ctx.phase.INVALID?
  {
    assert SessionMatches(tab, s.sessions[t], h.sessions[t]) && P.SessionInv(h, h.sessions[t]);
    P.VersionGap(h, t);
  }

  /** A session's version is the system's or one less, and can differ only while the system is in
      IN_PROGRESS; and no default branch of GetNextState is ever taken. */
  lemma VersionGap(run: seq<State>, steps: seq<Step>, n: nat, i: nat, t: nat)
    requires IsRun(run, steps, n) && i < |run| && t < |run[i].sessions|
    ensures run[i].sessions[t].ctx.version <= run[i].sys.version <= run[i].sessions[t].ctx.version + 1
    ensures !run[i].sys.phase.IN_PROGRESS? ==> run[i].sessions[t].ctx.version == run[i].sys.version
    ensures !run[i].sys.phase.INVALID? && !run[i].sessions[t].ctx.phase.INVALID?
  {
    RunImplements(run, steps, n, i);
    var tab, h :| Matches(run[i], tab, h) && P.Inv(h);
    GapInState(run[i], t, tab, h);
  }

  /** While an action lasts its position never falls back. */
  lemma {:induction false} Ahead(run: seq<State>, steps: seq<Step>, n: nat, i: nat, j: nat, tab: seq<SystemState>,
                                 h: P.State)
      returns (h': P.State)
    requires IsRun(run, steps, n) && i <= j < |run| && Matches(run[i], tab, h) && P.Inv(h)
    requires forall m | i <= m < j :: !steps[m].StartCas?
    ensures Matches(run[j], tab, h') && P.Inv(h') && h.pos <= h'.pos && h'.cfg == h.cfg
  {
    if i == j {
      h' := h;
    } else {
      var g := Ahead(run, steps, n, i, j - 1, tab, h);
      assert NextStep(run[j - 1], run[j], steps[j - 1]);
      var tab', g', absStep := Refines(run[j - 1], run[j], steps[j - 1], tab, g);
      h' := g';
      if g' != g { P.SystemInductive(g, g', absStep); }
    }
  }

  lemma LeftForGood(s: State, tab: seq<SystemState>, h: P.State, k: nat)
    requires Matches(s, tab, h) && 1 <= k < h.cfg.length && k < h.pos
    ensures s.sys != tab[k]
  {
    KnowsPosition(s, tab, h, k);
  }

  predicate Takes(s: State, step: Step, from: SystemState) {
    && step.Move? && step.t < |s.sessions| && s.sys == from
    && s.sessions[step.t].pc.Moving? && s.sessions[step.t].pc.cur == from
  }

  lemma TakingMovesOn(s: State, s': State, step: Step, tab: seq<SystemState>, h: P.State,
                      from: SystemState) returns (k: nat, h': P.State)
    requires Matches(s, tab, h) && P.Inv(h) && NextStep(s, s', step) && Takes(s, step, from)
    ensures 1 <= k < h.cfg.length && from == tab[k]
    ensures Matches(s', tab, h') && P.Inv(h') && h'.pos == k + 1 && h'.cfg == h.cfg
  {
    var tab', absStep;
    tab', h', absStep := Refines(s, s', step, tab, h);
    k := h.sessions[step.t].k;
    assert SessionMatches(tab, s.sessions[step.t], h.sessions[step.t]) && P.SessionInv(h, h.sessions[step.t]);
    ReadsPositions(s, tab, h, h.sessions[step.t]);
  }

  lemma StaysAhead(run: seq<State>, steps: seq<Step>, n: nat, i: nat, j: nat, tab: seq<SystemState>, h: P.State, k: nat)
    requires IsRun(run, steps, n) && i <= j < |run| && (forall m | i <= m < j :: !steps[m].StartCas?)
    requires Matches(run[i], tab, h) && P.Inv(h) && 1 <= k < h.cfg.length && k < h.pos
    ensures run[j].sys != tab[k]
  {
    var h' := Ahead(run, steps, n, i, j, tab, h);
    LeftForGood(run[j], tab, h', k);
  }

  lemma TakenAt(run: seq<State>, steps: seq<Step>, n: nat, i: nat, from: SystemState)
      returns (tab: seq<SystemState>, h: P.State, k: nat)
    requires IsRun(run, steps, n) && i < |steps| && Takes(run[i], steps[i], from)
    ensures Matches(run[i + 1], tab, h) && P.Inv(h) && 1 <= k < h.cfg.length && h.pos == k + 1 && from == tab[k]
  {
    RunImplements(run, steps, n, i);
    var tab0, g :| Matches(run[i], tab0, g) && P.Inv(g);
    assert NextStep(run[i], run[i + 1], steps[i]);
    tab := tab0;
    k, h := TakingMovesOn(run[i], run[i + 1], steps[i], tab, g, from);
  }

  /** Each transition is taken by exactly one session: within an action, a state once left is never
      the system state again. */
  lemma TakenOnce(run: seq<State>, steps: seq<Step>, n: nat, i: nat, j: nat, from: SystemState)
    requires IsRun(run, steps, n) && i < j < |run| && (forall m | i <= m < j :: !steps[m].StartCas?)
    requires Takes(run[i], steps[i], from)
    ensures run[j].sys != from && (j < |steps| ==> !Takes(run[j], steps[j], from))
  {
    var tab, h, k := TakenAt(run, steps, n, i, from);
    StaysAhead(run, steps, n, i + 1, j, tab, h, k);
  }
}
