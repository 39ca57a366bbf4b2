/**
 Coalesced refreshes: one load in flight, one follow-up queued.

 Promise reactions run as jobs in registration order; callers may call at any moment between jobs.
 */
module Refresh {

  import opened Options

  /** What a caller is handed: the promise of a load, or of a queued follow-up. */
  datatype Promise = OfLoad(l: nat) | OfQueue(q: nat)

  /** Reactions: `settle` clears the in-flight slot, `rerun` starts the follow-up. */
  datatype Job = Settle(l: nat) | Rerun(q: nat)

  datatype Load = Load(start: nat, done: bool, reactions: seq<Job>)

  datatype Call = Call(at: nat, promise: Promise)

  datatype State = State(
    clock: nat,
    inFlight: Option<nat>,
    queued: Option<nat>,
    loads: seq<Load>,
    queues: seq<Option<Promise>>,
    jobs: seq<Job>,
    calls: seq<Call>)

  const IDLE: State := State(0, None, None, [], [], [], [])

  /** The call is well-defined: the in-flight slot names a load. */
  predicate Sane(s: State)
  {
    s.inFlight.Some? ==> s.inFlight.value < |s.loads|
  }

  /** p.then(job): wait for a pending load, run soon for a settled one. */
  function Then(s: State, l: nat, job: Job): State
    requires l < |s.loads|
  {
    if s.loads[l].done then s.(jobs := s.jobs + [job])
    else s.(loads := s.loads[l := s.loads[l].(reactions := s.loads[l].reactions + [job])])
  }

  /** API.refresh, with its return value. */
  function Request(s: State): (r: (State, Promise))
    requires Sane(s)
  {
    if s.inFlight.Some? then
      if s.queued.Some? then (s, OfQueue(s.queued.value))
      else
        var q := |s.queues|;
        (Then(s, s.inFlight.value, Rerun(q)).(queued := Some(q), queues := s.queues + [None]), OfQueue(q))
    else
      var l := |s.loads|;
      (s.(inFlight := Some(l), loads := s.loads + [Load(s.clock, false, [Settle(l)])]), OfLoad(l))
  }

  /** A call, recorded with its time. */
  function Refreshed(s: State): State
    requires Sane(s)
  {
    var (t, p) := Request(s);
    t.(clock := s.clock + 1, calls := s.calls + [Call(s.clock, p)])
  }

  datatype Step = Ask | Finish(l: nat) | RunJob

  ghost predicate Enabled(s: State, a: Step)
  {
    match a
    case Ask => true
    case Finish(l) => l < |s.loads| && !s.loads[l].done
    case RunJob => s.jobs != []
  }

  /** The job at the head of the queue; `rerun` calls API.refresh itself and resolves with its promise. */
  function Run(s: State): State
    requires Sane(s) && s.jobs != []
  {
    var t := s.(jobs := s.jobs[1..]);
    match s.jobs[0]
    case Settle(_) => t.(inFlight := None)
    case Rerun(q) =>
      var u := Refreshed(t.(queued := None));
      if q < |u.queues| then u.(queues := u.queues[q := Some(u.calls[|u.calls| - 1].promise)]) else u
  }

  function Next(s: State, a: Step): State
    requires Sane(s) && Enabled(s, a)
  {
    match a
    case Ask => Refreshed(s)
    case Finish(l) => s.(loads := s.loads[l := s.loads[l].(done := true)], jobs := s.jobs + s.loads[l].reactions)
    case RunJob => Run(s)
  }

  // ---- the invariant ----

  function Follow(s: State): seq<Job>
  {
    if s.queued.Some? then [Rerun(s.queued.value)] else []
  }

  /**
   Where the two reactions are. Normally `settle` runs before the follow-up; a call between the two
   starts a load of its own, and then the follow-up runs first.
   */
  ghost predicate Slots(s: State)
  {
    match s.inFlight
    case None => (forall l :: 0 <= l < |s.loads| ==> s.loads[l].done) && s.jobs == Follow(s)
    case Some(f) =>
      && f == |s.loads| - 1
      && (forall l :: 0 <= l < f ==> s.loads[l].done)
      && if s.loads[f].done then
           s.jobs == [Settle(f)] + Follow(s) || (s.queued.Some? && s.jobs == Follow(s) + [Settle(f)])
         else
           || (s.jobs == [] && s.loads[f].reactions == [Settle(f)] + Follow(s))
           || (s.queued.Some? && s.jobs == Follow(s) && s.loads[f].reactions == [Settle(f)])
  }

  predicate InRange(s: State, p: Promise)
  {
    match p
    case OfLoad(l) => l < |s.loads|
    case OfQueue(q) => q < |s.queues|
  }

  /** The one unresolved follow-up is the queued one; a resolved one points to a load or a later follow-up. */
  ghost predicate Chains(s: State)
  {
    && (s.queued.Some? ==> s.queued.value < |s.queues|)
    && (forall q :: 0 <= q < |s.queues| ==> (s.queues[q].None? <==> s.queued == Some(q)))
    && (forall q :: 0 <= q < |s.queues| && s.queues[q].Some? ==>
          InRange(s, s.queues[q].value) && (s.queues[q].value.OfQueue? ==> q < s.queues[q].value.q))
  }

  /** The load a promise settles with, once that is decided. */
  function Outcome(s: State, p: Promise): (l: Option<nat>)
    requires Chains(s) && InRange(s, p)
    ensures l.Some? ==> l.value < |s.loads|
    decreases if p.OfQueue? then |s.queues| - p.q else -1
  {
    match p
    case OfLoad(l) => Some(l)
    case OfQueue(q) => if s.queues[q].None? then None else Outcome(s, s.queues[q].value)
  }

  /** Whatever load the promise settles with began no earlier than t. */
  ghost predicate Since(s: State, p: Promise, t: nat)
    requires Chains(s) && InRange(s, p)
  {
    Outcome(s, p).Some? ==> s.loads[Outcome(s, p).value].start >= t
  }

  ghost predicate Inv(s: State)
  {
    Slots(s) && Chains(s) && CallsOk(s, |s.calls|)
  }

  // ---- it is kept ----

  ghost predicate Extends(s: State, t: State)
  {
    && |s.loads| <= |t.loads| && |s.queues| <= |t.queues|
    && forall l :: 0 <= l < |s.loads| ==> t.loads[l].start == s.loads[l].start
  }

  /** Later loads and follow-ups do not change what is decided already. */
  lemma {:induction false} OutcomeStays(s: State, t: State, p: Promise)
    requires Chains(s) && Chains(t) && InRange(s, p) && Extends(s, t) && s.queues <= t.queues
    ensures InRange(t, p) && Outcome(t, p) == Outcome(s, p)
    decreases if p.OfQueue? then |s.queues| - p.q else -1
  {
    match p
    case OfLoad(l) =>
    case OfQueue(q) =>
      assert t.queues[q] == s.queues[q];
      if s.queues[q].Some? {
        OutcomeStays(s, t, s.queues[q].value);
      }
  }

  /** Resolving one follow-up with a promise that is new enough keeps every promise new enough. */
  lemma {:induction false} ResolveKeepsSince(s: State, t: State, q: nat, p: Promise, at: nat, limit: nat)
    requires Chains(s) && Chains(t) && InRange(s, p) && Extends(s, t)
    requires q < |s.queues| && s.queues[q].None? && t.queues[q].Some?
    requires forall r :: 0 <= r < |s.queues| && r != q ==> t.queues[r] == s.queues[r]
    requires Since(s, p, at) && Since(t, t.queues[q].value, limit) && at <= limit
    ensures InRange(t, p) && Since(t, p, at)
    decreases if p.OfQueue? then |s.queues| - p.q else -1
  {
    match p
    case OfLoad(l) =>
    case OfQueue(r) =>
      if r != q && s.queues[r].Some? {
        ResolveKeepsSince(s, t, q, s.queues[r].value, at, limit);
      }
  }

  ghost predicate CallsOk(s: State, n: nat)
    requires Chains(s) && n <= |s.calls|
  {
    forall k :: 0 <= k < n ==>
      s.calls[k].at < s.clock && InRange(s, s.calls[k].promise) && Since(s, s.calls[k].promise, s.calls[k].at)
  }

  lemma CallsStay(s: State, t: State)
    requires Chains(s) && Chains(t) && CallsOk(s, |s.calls|) && Extends(s, t) && s.queues <= t.queues
    requires s.calls <= t.calls && s.clock <= t.clock
    ensures CallsOk(t, |s.calls|)
  {
    hide Chains;
    forall k | 0 <= k < |s.calls|
      ensures InRange(t, t.calls[k].promise) && Since(t, t.calls[k].promise, t.calls[k].at)
    {
      OutcomeStays(s, t, s.calls[k].promise);
    }
  }

  lemma CallsResolve(s: State, t: State, q: nat)
    requires Chains(s) && Chains(t) && CallsOk(s, |s.calls|) && Extends(s, t)
    requires q < |s.queues| && s.queues[q].None? && t.queues[q].Some?
    requires forall r :: 0 <= r < |s.queues| && r != q ==> t.queues[r] == s.queues[r]
    requires Since(t, t.queues[q].value, s.clock) && s.calls <= t.calls && s.clock <= t.clock
    ensures CallsOk(t, |s.calls|)
  {
    hide Chains;
    forall k | 0 <= k < |s.calls|
      ensures InRange(t, t.calls[k].promise) && Since(t, t.calls[k].promise, t.calls[k].at)
    {
      ResolveKeepsSince(s, t, q, s.calls[k].promise, s.calls[k].at, s.clock);
    }
  }

  lemma RequestKeeps(s: State)
    requires Inv(s)
    ensures Inv(Refreshed(s))
  {
    var t := Refreshed(s);
    RequestShape(s);
    CallsStay(s, t);
    assert t.calls[|s.calls|].at == s.clock;
  }

  lemma RequestShape(s: State)
    requires Slots(s) && Chains(s)
    ensures Slots(Refreshed(s)) && Chains(Refreshed(s))
  {
  }

  lemma FinishKeeps(s: State, l: nat)
    requires Inv(s) && l < |s.loads| && !s.loads[l].done
    ensures Inv(Next(s, Finish(l)))
  {
    var t := Next(s, Finish(l));
    assert Follow(t) == Follow(s);
    assert Chains(t) && Slots(t);
    CallsStay(s, t);
  }

  lemma SettleKeeps(s: State)
    requires Inv(s) && s.jobs != [] && s.jobs[0].Settle?
    ensures Inv(Run(s))
  {
    var t := Run(s);
    assert Follow(t) == Follow(s);
    assert Chains(t) && Slots(t);
    CallsStay(s, t);
  }

  lemma RerunShape(s: State)
    requires Slots(s) && Chains(s) && s.jobs != [] && s.jobs[0].Rerun?
    ensures s.queued == Some(s.jobs[0].q) && Slots(Run(s)) && Chains(Run(s))
  {
  }

  lemma RerunKeeps(s: State)
    requires Inv(s) && s.jobs != [] && s.jobs[0].Rerun?
    ensures Inv(Run(s))
  {
    var t, q := Run(s), s.jobs[0].q;
    RerunShape(s);
    CallsResolve(s, t, q);
    assert t.calls[|s.calls|].promise == t.queues[q].value;
  }

  lemma StepKeeps(s: State, a: Step)
    requires Inv(s) && Enabled(s, a)
    ensures Sane(s) && Inv(Next(s, a))
  {
    match a
    case Ask => RequestKeeps(s);
    case Finish(l) => FinishKeeps(s, l);
    case RunJob => if s.jobs[0].Settle? { SettleKeeps(s); } else { RerunKeeps(s); }
  }

  // ---- theorems about whole runs ----

  /** Any interleaving of calls, settlements and jobs; what is not possible at the moment does nothing. */
  ghost function Play(steps: seq<Step>): (s: State)
    ensures Inv(s)
    decreases |steps|
  {
    if steps == [] then IDLE else
      var s, a := Play(steps[..|steps| - 1]), steps[|steps| - 1];
      if Enabled(s, a) then StepKeeps(s, a); Next(s, a) else s
  }

  /** At most one load is pending and at most one follow-up unresolved, and its rerun is never lost. */
  lemma BoundedAtTwo(steps: seq<Step>)
    ensures
      var s := Play(steps);
      && (forall l :: 0 <= l < |s.loads| && !s.loads[l].done ==> s.inFlight == Some(l))
      && (forall q :: 0 <= q < |s.queues| && s.queues[q].None? ==> s.queued == Some(q))
      && (s.queued.Some? ==> Rerun(s.queued.value) in s.jobs
                             || (s.inFlight.Some? && !s.loads[s.inFlight.value].done
                                 && Rerun(s.queued.value) in s.loads[s.inFlight.value].reactions))
  {
    hide Play;
    var s := Play(steps);
    if s.queued.Some? {
      assert Rerun(s.queued.value) in Follow(s);
    }
  }

  /** Whatever load a caller's promise settles with began no earlier than the call. */
  lemma NoStaleSnapshot(steps: seq<Step>, k: nat)
    requires k < |Play(steps).calls|
    ensures
      var s := Play(steps);
      && InRange(s, s.calls[k].promise)
      && (Outcome(s, s.calls[k].promise).Some? ==>
            s.loads[Outcome(s, s.calls[k].promise).value].start >= s.calls[k].at)
  {
    hide Play;
    var s := Play(steps);
    assert Since(s, s.calls[k].promise, s.calls[k].at);
  }

  /** A follow-up that runs settles with its own load exactly when nobody else started one in between. */
  lemma RerunOutcome(s: State)
    requires Inv(s) && s.jobs != [] && s.jobs[0].Rerun?
    ensures
      var t, q := Run(s), s.jobs[0].q;
      && Chains(t) && q < |t.queues|
      && Outcome(t, OfQueue(q)) == (if s.inFlight.None? then Some(|s.loads|) else None)
      && (s.inFlight.None? ==> t.loads[|s.loads|].start == s.clock)
  {
    RerunShape(s);
  }

  // ---- a follow-up can be put off for ever ----

  /** Load k is pending, follow-up k waits for it, and every earlier follow-up waits for the next. */
  ghost predicate Waiting(s: State, k: nat)
  {
    && Inv(s)
    && |s.loads| == k + 1 && s.inFlight == Some(k) && !s.loads[k].done && s.loads[k].reactions == [Settle(k), Rerun(k)]
    && (forall l :: 0 <= l < k ==> s.loads[l].done)
    && |s.queues| == k + 1 && s.queued == Some(k) && s.jobs == []
    && (forall q :: 0 <= q < k ==> s.queues[q] == Some(OfQueue(q + 1)))
    && |s.calls| > 1 && s.calls[1] == Call(1, OfQueue(0))
  }

  lemma {:induction false} StillWaiting(s: State, k: nat, q: nat)
    requires Waiting(s, k) && q <= k
    ensures Outcome(s, OfQueue(q)).None?
    decreases k - q
  {
    if q < k {
      StillWaiting(s, k, q + 1);
    }
  }

  lemma PlayNext(steps: seq<Step>, a: Step)
    requires Enabled(Play(steps), a)
    ensures Sane(Play(steps)) && Play(steps + [a]) == Next(Play(steps), a)
  {
    assert (steps + [a])[..|steps|] == steps;
    StepKeeps(Play(steps), a);
  }

  /** Load k has settled; the slot is free and the follow-up is next. */
  ghost predicate Freed(s: State, k: nat)
  {
    && |s.loads| == k + 1 && s.inFlight.None? && s.jobs == [Rerun(k)]
    && (forall l :: 0 <= l <= k ==> s.loads[l].done)
    && |s.queues| == k + 1 && s.queued == Some(k)
    && (forall q :: 0 <= q < k ==> s.queues[q] == Some(OfQueue(q + 1)))
    && |s.calls| > 1 && s.calls[1] == Call(1, OfQueue(0))
  }

  lemma Free(steps: seq<Step>, k: nat)
    requires Waiting(Play(steps), k)
    ensures Freed(Play(steps + [Finish(k)] + [RunJob]), k)
  {
    hide Play, Inv;
    PlayNext(steps, Finish(k));
    var s := Play(steps + [Finish(k)]);
    assert s.jobs == [Settle(k), Rerun(k)];
    PlayNext(steps + [Finish(k)], RunJob);
  }

  lemma Refill(steps: seq<Step>, k: nat)
    requires Freed(Play(steps), k)
    ensures Waiting(Play(steps + [Ask] + [RunJob]), k + 1)
  {
    hide Play, Inv;
    PlayNext(steps, Ask);
    var s := Play(steps + [Ask]);
    assert s.inFlight == Some(k + 1) && s.jobs == [Rerun(k)];
    PlayNext(steps + [Ask], RunJob);
    var t := Play(steps + [Ask] + [RunJob]);
    assert t.queues == s.queues[k := Some(OfQueue(k + 1))] + [None];
  }

  lemma TwoCalls()
    ensures Waiting(Play([Ask, Ask]), 0)
  {
    assert [Ask, Ask][..1] == [Ask] && [Ask][..0] == [];
    var one := Play([Ask]);
    assert one == Refreshed(IDLE);
    assert Play([Ask, Ask]) == Refreshed(one);
  }

  /**
   However many loads have completed since, a caller may still be waiting: each time a load settles
   its own caller calls again at once, and the follow-up queues up behind the new load.
   */
  lemma {:induction false} CallerMayStarve(n: nat) returns (steps: seq<Step>)
    ensures Waiting(Play(steps), n)
    ensures
      var s := Play(steps);
      && |s.loads| == n + 1 && (forall l :: 0 <= l < n ==> s.loads[l].done)
      && s.calls[1].at == 1 && Outcome(s, s.calls[1].promise).None?
    decreases n
  {
    hide Play;
    if n == 0 {
      steps := [Ask, Ask];
      TwoCalls();
    } else {
      var before := CallerMayStarve(n - 1);
      Free(before, n - 1);
      Refill(before + [Finish(n - 1)] + [RunJob], n - 1);
      steps := before + [Finish(n - 1)] + [RunJob] + [Ask] + [RunJob];
    }
    StillWaiting(Play(steps), n, 0);
  }

  // ---- nobody waits for ever if nobody calls again ----

  /** No load is pending and no job is left. */
  predicate Quiet(s: State)
  {
    s.jobs == [] && forall l :: 0 <= l < |s.loads| ==> s.loads[l].done
  }

  lemma {:induction false} ResolvedHasOutcome(s: State, p: Promise)
    requires Chains(s) && InRange(s, p) && s.queued.None?
    ensures Outcome(s, p).Some?
    decreases if p.OfQueue? then |s.queues| - p.q else -1
  {
    match p
    case OfLoad(l) =>
    case OfQueue(q) => ResolvedHasOutcome(s, s.queues[q].value);
  }

  /** Once everything is quiet both slots are free and every caller has been served. */
  lemma QuietIsServed(steps: seq<Step>)
    requires Quiet(Play(steps))
    ensures
      var s := Play(steps);
      && s.inFlight.None? && s.queued.None?
      && forall k :: 0 <= k < |s.calls| ==> InRange(s, s.calls[k].promise) && Outcome(s, s.calls[k].promise).Some?
  {
    hide Play;
    var s := Play(steps);
    assert s.inFlight.None? && s.queued.None?;
    forall k: nat | k < |s.calls|
      ensures InRange(s, s.calls[k].promise) && Outcome(s, s.calls[k].promise).Some?
    {
      NoStaleSnapshot(steps, k);
      ResolvedHasOutcome(s, s.calls[k].promise);
    }
  }

  /** How many steps are left without a further call. */
  function Left(s: State): nat
    requires Sane(s)
  {
    if s.inFlight.None? then if s.queued.None? then 0 else 3
    else if !s.loads[s.inFlight.value].done then
      if s.queued.None? then 2 else if s.jobs == [] then 5 else 6
    else
      if s.queued.None? then 1 else if s.jobs != [] && s.jobs[0].Settle? then 4 else 5
  }

  /** The browser's next move: a job, or the pending load's completion. */
  function Move(s: State): Step
    requires Sane(s)
  {
    if s.jobs != [] || s.inFlight.None? then RunJob else Finish(s.inFlight.value)
  }

  lemma FinishFalls(s: State)
    requires Inv(s) && Sane(s) && s.jobs == [] && s.inFlight.Some?
    ensures Enabled(s, Finish(s.inFlight.value)) && Sane(Next(s, Finish(s.inFlight.value)))
    ensures Left(Next(s, Finish(s.inFlight.value))) < Left(s)
  {
    hide Chains, CallsOk;
  }

  lemma SettleFalls(s: State)
    requires Inv(s) && Sane(s) && s.jobs != [] && s.jobs[0].Settle?
    ensures Sane(Run(s)) && Left(Run(s)) < Left(s)
  {
    hide Chains, CallsOk;
  }

  lemma RerunFalls(s: State)
    requires Inv(s) && Sane(s) && s.jobs != [] && s.jobs[0].Rerun?
    ensures Sane(Run(s)) && Left(Run(s)) < Left(s)
  {
    hide Chains, CallsOk;
  }

  lemma MoveFalls(s: State)
    requires Inv(s) && Sane(s) && !Quiet(s)
    ensures Enabled(s, Move(s)) && Left(Next(s, Move(s))) < Left(s)
  {
    hide Chains, CallsOk, Left;
    if s.jobs == [] {
      FinishFalls(s);
    } else if s.jobs[0].Settle? {
      SettleFalls(s);
    } else {
      RerunFalls(s);
    }
  }

  lemma InvIsSane(s: State)
    requires Inv(s)
    ensures Sane(s)
  {
  }

  /** However a run has gone, at most six steps without a further call make everything quiet. */
  lemma {:induction false} BecomesQuiet(steps: seq<Step>) returns (more: seq<Step>)
    ensures Sane(Play(steps)) && |more| <= Left(Play(steps)) <= 6
    ensures Quiet(Play(steps + more)) && forall i :: 0 <= i < |more| ==> !more[i].Ask?
    decreases (InvIsSane(Play(steps)); Left(Play(steps)))
  {
    hide Play, Inv;
    var s := Play(steps);
    InvIsSane(s);
    if Quiet(s) {
      more := [];
      assert steps + more == steps;
    } else {
      MoveFalls(s);
      PlayNext(steps, Move(s));
      var rest := BecomesQuiet(steps + [Move(s)]);
      more := [Move(s)] + rest;
      assert steps + more == steps + [Move(s)] + rest;
    }
  }

  /** Callers that arrive while a follow-up is queued share it, and start nothing. */
  lemma CallersShare(steps: seq<Step>)
    requires Play(steps).queued.Some? && Play(steps).inFlight.Some?
    ensures
      var s, t := Play(steps), Play(steps + [Ask]);
      && t.loads == s.loads && t.jobs == s.jobs && t.queues == s.queues && t.queued == s.queued
      && |t.calls| == |s.calls| + 1 && t.calls[|s.calls|].promise == OfQueue(s.queued.value)
  {
    hide Play;
    PlayNext(steps, Ask);
  }
}
