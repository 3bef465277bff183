/** What LightEpoch promises its callers, with no epochs in sight.

    Every bump of the epoch opens a ticket. The ticket remembers the threads that were inside a
    protected section at the bump, and forgets a thread once that thread stores an epoch again
    (Protect, ProtectAndDrain) or leaves (Unprotect). The action deferred to a ticket may run only
    when the ticket waits for nobody.

    `LightEpoch` proves that the epoch table, the cached safe epoch and the drain list implement
    this; `HybridLog` uses it. */
module EpochSpec {

  /** Ticket `i` is the i-th bump; `waiting[i]` are the threads it still waits for. */
  datatype State = State(inside: set<nat>, waiting: seq<set<nat>>, ran: set<nat>)

  datatype Step =
    | Enter(t: nat)
    | Leave(t: nat)
    | Bump
    | Run(ticket: nat)

  /** Thread `t` has passed a point where it holds nothing from before. */
  function Forget(waiting: seq<set<nat>>, t: nat): (r: seq<set<nat>>)
    ensures |r| == |waiting|
    ensures forall i | 0 <= i < |r| :: r[i] == waiting[i] - {t}
  {
    seq(|waiting|, i requires 0 <= i < |waiting| => waiting[i] - {t})
  }

  predicate Init(s: State) {
    s.inside == {} && s.ran == {} && forall w | w in s.waiting :: w == {}
  }

  predicate NextStep(s: State, s': State, step: Step) {
    match step
    case Enter(t) => s' == s.(inside := s.inside + {t}, waiting := Forget(s.waiting, t))
    case Leave(t) => s' == s.(inside := s.inside - {t}, waiting := Forget(s.waiting, t))
    case Bump => s' == s.(waiting := s.waiting + [s.inside])
    case Run(i) =>
      && i < |s.waiting| && s.waiting[i] == {} && i !in s.ran
      && s' == s.(ran := s.ran + {i})
  }

  /** A ticket only ever waits for threads that are inside, and an action that ran waits for nobody. */
  predicate Inv(s: State) {
    && (forall i | 0 <= i < |s.waiting| :: s.waiting[i] <= s.inside)
    && (forall i | i in s.ran :: i < |s.waiting| && s.waiting[i] == {})
  }

  lemma InvInductive(s: State, s': State, step: Step)
    requires Inv(s) && NextStep(s, s', step)
    ensures Inv(s')
    ensures |s.waiting| <= |s'.waiting|
    ensures forall i | 0 <= i < |s.waiting| :: s'.waiting[i] <= s.waiting[i]
  {
  }
}
