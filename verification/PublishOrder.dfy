/**
 * The gate that only lets a release workflow publish after its checks
 * (tools/ci/release_publish_order_check.py).
 *
 * The needs of a publishing job are closed transitively by a worklist with a bounded number of turns.
 */
module PublishOrder {
  import opened Prelude
  import opened Sums
  import opened Reachability

  datatype Needs = Absent | One(id: string) | Many(ids: seq<string>) | Malformed

  /** One reason a job counts as publishing; unknown operations are not on the allow-list. */
  datatype Reason = Reason(text: string, allowed: bool)

  datatype Job = Job(needs: Needs, bypassesGates: bool, reasons: Result<seq<Reason>, Error>)

  datatype Error = BadNeeds | BadSteps | BadJobs

  datatype Limits = Limits(maxJobs: nat, maxSteps: nat)

  const REQUIRED_GATES: seq<string> := ["dogfood-gate", "image-smoke", "build", "release-files", "verify"]

  type Jobs = map<string, Job>

  // ----- direct needs -----

  function DirectNeeds(job: Job, limits: Limits): Result<seq<string>, Error> {
    match job.needs
    case Absent => Ok([])
    case One(id) => Ok([id])
    case Many(ids) => Ok(ids[..Min(limits.maxJobs, |ids|)])
    case Malformed => Err(BadNeeds)
  }

  /** The needs a job declares, however many. */
  function DeclaredNeeds(job: Job): seq<string> {
    match job.needs
    case One(id) => [id]
    case Many(ids) => ids
    case _ => []
  }

  /** The needs read are the first of those declared; only a malformed list is refused. */
  lemma DirectNeedsAre(job: Job, limits: Limits)
    ensures DirectNeeds(job, limits).Err? <==> job.needs.Malformed?
    ensures job.needs.Many? ==>
        DirectNeeds(job, limits) == Ok(DeclaredNeeds(job)[..Min(|job.needs.ids|, limits.maxJobs)])
    ensures !job.needs.Many? && !job.needs.Malformed? ==> DirectNeeds(job, limits) == Ok(DeclaredNeeds(job))
    ensures forall id :: id in DeclaredNeeds(job) <==>
        (job.needs.One? && id == job.needs.id) || (job.needs.Many? && id in job.needs.ids)
  {
  }

  function Known(jobs: Jobs, ids: seq<string>): seq<string> {
    if ids == [] then [] else Known(jobs, ids[..|ids| - 1]) + (if ids[|ids| - 1] in jobs then [ids[|ids| - 1]] else [])
  }

  function Unreached(jobs: Jobs, reached: set<string>, ids: seq<string>): seq<string> {
    if ids == [] then [] else
    var last := ids[|ids| - 1];
    Unreached(jobs, reached, ids[..|ids| - 1]) + (if last in jobs && last !in reached then [last] else [])
  }

  lemma {:induction false} KnownMembers(jobs: Jobs, ids: seq<string>)
    ensures ToSet(Known(jobs, ids)) == ToSet(ids) * jobs.Keys
    ensures |Known(jobs, ids)| <= |ids|
  {
    if ids != [] {
      var init, last := ids[..|ids| - 1], ids[|ids| - 1];
      KnownMembers(jobs, init);
      assert ids == init + [last];
      ToSetAppend(init, last);
      ToSetAppend(Known(jobs, init), last);
      assert last !in jobs ==> Known(jobs, ids) == Known(jobs, init);
    }
  }

  lemma {:induction false} UnreachedMembers(jobs: Jobs, reached: set<string>, ids: seq<string>)
    ensures ToSet(Unreached(jobs, reached, ids)) == ToSet(ids) * jobs.Keys - reached
    ensures |Unreached(jobs, reached, ids)| <= |ids|
  {
    if ids != [] {
      var init, last := ids[..|ids| - 1], ids[|ids| - 1];
      UnreachedMembers(jobs, reached, init);
      assert ids == init + [last];
      ToSetAppend(init, last);
      ToSetAppend(Unreached(jobs, reached, init), last);
      assert !(last in jobs && last !in reached) ==> Unreached(jobs, reached, ids) == Unreached(jobs, reached, init);
    }
  }

  // ----- transitive needs -----

  /** The state of the worklist: what is reached, and the stack of jobs to look at. */
  datatype Work = Work(reached: set<string>, frontier: seq<string>)

  /** One turn takes the last job off the stack. */
  function Turn(jobs: Jobs, limits: Limits, w: Work): Result<Work, Error>
    requires w.frontier != []
  {
    var current, rest := w.frontier[|w.frontier| - 1], w.frontier[..|w.frontier| - 1];
    if current in w.reached || current !in jobs then Ok(Work(w.reached, rest))
    else
      var reached := w.reached + {current};
      var deps := DirectNeeds(jobs[current], limits);
      if deps.Err? then Err(deps.error) else Ok(Work(reached, rest + Unreached(jobs, reached, deps.value)))
  }

  /** At most so many turns, or until the stack is empty. */
  function Turns(jobs: Jobs, limits: Limits, w: Work, turns: nat): Result<Work, Error>
    decreases turns
  {
    if turns == 0 || w.frontier == [] then Ok(w)
    else
      var next := Turn(jobs, limits, w);
      if next.Err? then next else Turns(jobs, limits, next.value, turns - 1)
  }

  function Start(jobs: Jobs, limits: Limits, job: Job): Result<Work, Error> {
    var deps := DirectNeeds(job, limits);
    if deps.Err? then Err(deps.error) else Ok(Work({}, Known(jobs, deps.value)))
  }

  function Final(jobs: Jobs, limits: Limits, job: Job): Result<Work, Error> {
    var start := Start(jobs, limits, job);
    if start.Err? then start else Turns(jobs, limits, start.value, limits.maxJobs)
  }

  method TransitiveNeeds(jobs: Jobs, limits: Limits, start: string) returns (result: Result<set<string>, Error>)
    requires start in jobs
    ensures var final := Final(jobs, limits, jobs[start]);
            result == if final.Err? then Err(final.error) else Ok(final.value.reached)
  {
    var reached: set<string> := {};
    var deps := DirectNeeds(jobs[start], limits);
    if deps.Err? {
      return Err(deps.error);
    }
    var frontier := Known(jobs, deps.value);
    for i := 0 to limits.maxJobs
      invariant Final(jobs, limits, jobs[start]) == Turns(jobs, limits, Work(reached, frontier), limits.maxJobs - i)
    {
      if frontier == [] {
        break;
      }
      var current := frontier[|frontier| - 1];
      frontier := frontier[..|frontier| - 1];
      if current in reached || current !in jobs {
        continue;
      }
      reached := reached + {current};
      deps := DirectNeeds(jobs[current], limits);
      if deps.Err? {
        return Err(deps.error);
      }
      var rest := frontier;
      for k := 0 to |deps.value|
        invariant frontier == rest + Unreached(jobs, reached, deps.value[..k])
      {
        var dep := deps.value[k];
        assert deps.value[..k + 1][..k] == deps.value[..k];
        if dep in jobs && dep !in reached {
          frontier := frontier + [dep];
        }
      }
      assert deps.value[..|deps.value|] == deps.value;
    }
    return Ok(reached);
  }

  // ----- what is truly needed -----

  function KnownSet(jobs: Jobs, ids: seq<string>): set<string> {
    ToSet(ids) * jobs.Keys
  }

  /** The existing jobs a job declares as needs. */
  function TrueSuccessors(jobs: Jobs): string -> set<string> {
    id => if id in jobs then KnownSet(jobs, DeclaredNeeds(jobs[id])) else {}
  }

  ghost predicate TrulyNeeds(jobs: Jobs, start: string, id: string)
    requires start in jobs
  {
    Reaches(KnownSet(jobs, DeclaredNeeds(jobs[start])), TrueSuccessors(jobs), id)
  }

  /** The needs as the gate reads them: no more than the limit of each list. */
  function ReadNeeds(job: Job, limits: Limits): seq<string> {
    if DirectNeeds(job, limits).Ok? then DirectNeeds(job, limits).value else []
  }

  function ReadSuccessors(jobs: Jobs, limits: Limits): string -> set<string> {
    id => if id in jobs then KnownSet(jobs, ReadNeeds(jobs[id], limits)) else {}
  }

  ghost predicate NeedsAsRead(jobs: Jobs, limits: Limits, start: string, id: string)
    requires start in jobs
  {
    Reaches(KnownSet(jobs, ReadNeeds(jobs[start], limits)), ReadSuccessors(jobs, limits), id)
  }

  lemma ReadIsDeclared(job: Job, limits: Limits, jobs: Jobs)
    ensures KnownSet(jobs, ReadNeeds(job, limits)) <= KnownSet(jobs, DeclaredNeeds(job))
    ensures |DeclaredNeeds(job)| <= limits.maxJobs ==> ReadNeeds(job, limits) == DeclaredNeeds(job)
  {
    forall id | id in ReadNeeds(job, limits) ensures id in DeclaredNeeds(job) {
    }
  }

  lemma AsReadIsTrue(jobs: Jobs, limits: Limits, start: string, id: string)
    requires start in jobs && NeedsAsRead(jobs, limits, start, id)
    ensures TrulyNeeds(jobs, start, id)
  {
    ReadIsDeclared(jobs[start], limits, jobs);
    forall n ensures ReadSuccessors(jobs, limits)(n) <= TrueSuccessors(jobs)(n) {
      if n in jobs {
        ReadIsDeclared(jobs[n], limits, jobs);
      }
    }
    MoreEdgesReachMore(KnownSet(jobs, ReadNeeds(jobs[start], limits)), ReadSuccessors(jobs, limits),
                       KnownSet(jobs, DeclaredNeeds(jobs[start])), TrueSuccessors(jobs), id);
  }

  // ----- what the worklist keeps -----

  ghost predicate Sound(jobs: Jobs, limits: Limits, start: string, w: Work)
    requires start in jobs
  {
    && w.reached <= jobs.Keys
    && ToSet(w.frontier) <= jobs.Keys
    && Frontier(KnownSet(jobs, ReadNeeds(jobs[start], limits)), ReadSuccessors(jobs, limits),
                w.reached, ToSet(w.frontier))
  }

  lemma StartIsSound(jobs: Jobs, limits: Limits, start: string)
    requires start in jobs && Start(jobs, limits, jobs[start]).Ok?
    ensures Sound(jobs, limits, start, Start(jobs, limits, jobs[start]).value)
  {
    var w := Start(jobs, limits, jobs[start]).value;
    KnownMembers(jobs, ReadNeeds(jobs[start], limits));
    assert ToSet(w.frontier) == KnownSet(jobs, ReadNeeds(jobs[start], limits));
    FrontierStart(ToSet(w.frontier), ReadSuccessors(jobs, limits));
  }

  lemma TurnIsSound(jobs: Jobs, limits: Limits, start: string, w: Work, w': Work)
    requires start in jobs && Sound(jobs, limits, start, w) && w.frontier != []
    requires Turn(jobs, limits, w) == Ok(w')
    ensures Sound(jobs, limits, start, w')
  {
    var current := w.frontier[|w.frontier| - 1];
    assert current in ToSet(w.frontier);
    TurnAsSets(jobs, limits, w, w', current);
    if current in w.reached {
      SkippedIsSound(jobs, limits, start, w, w');
    } else {
      ExpandedIsSound(jobs, limits, start, w, current, w');
    }
  }

  lemma TurnAsSets(jobs: Jobs, limits: Limits, w: Work, w': Work, current: string)
    requires w.frontier != [] && current == w.frontier[|w.frontier| - 1] && current in jobs
    requires Turn(jobs, limits, w) == Ok(w')
    ensures w'.reached == w.reached + {current}
    ensures current in w.reached ==> ToSet(w'.frontier) + {current} == ToSet(w.frontier)
    ensures current !in w.reached ==>
              ToSet(w'.frontier) + {current}
                == ToSet(w.frontier) + (KnownSet(jobs, ReadNeeds(jobs[current], limits)) - w'.reached)
  {
    var rest := w.frontier[..|w.frontier| - 1];
    assert w.frontier == rest + [current];
    ToSetAppend(rest, current);
    if current !in w.reached {
      var deps := ReadNeeds(jobs[current], limits);
      UnreachedMembers(jobs, w'.reached, deps);
      ToSetConcat(rest, Unreached(jobs, w'.reached, deps));
    }
  }

  lemma SkippedIsSound(jobs: Jobs, limits: Limits, start: string, w: Work, w': Work)
    requires start in jobs && Sound(jobs, limits, start, w) && w'.reached == w.reached
    requires ToSet(w'.frontier) <= ToSet(w.frontier) <= ToSet(w'.frontier) + w.reached
    ensures Sound(jobs, limits, start, w')
  {
    assert w.reached + ToSet(w'.frontier) == w.reached + ToSet(w.frontier);
  }

  lemma ExpandedIsSound(jobs: Jobs, limits: Limits, start: string, w: Work, current: string, w': Work)
    requires start in jobs && Sound(jobs, limits, start, w) && current in ToSet(w.frontier)
    requires w'.reached == w.reached + {current}
    requires ToSet(w'.frontier) + {current}
      == ToSet(w.frontier) + (KnownSet(jobs, ReadNeeds(jobs[current], limits)) - w'.reached) + {current}
    requires ToSet(w'.frontier) <= ToSet(w.frontier) + KnownSet(jobs, ReadNeeds(jobs[current], limits))
    ensures Sound(jobs, limits, start, w')
  {
    var roots, succ := KnownSet(jobs, ReadNeeds(jobs[start], limits)), ReadSuccessors(jobs, limits);
    assert succ(current) == KnownSet(jobs, ReadNeeds(jobs[current], limits));
    FrontierStep(roots, succ, w.reached, ToSet(w.frontier), current, ToSet(w'.frontier));
  }

  /** What one turn keeps, any number of turns keeps. */
  lemma {:induction false} TurnsKeep(jobs: Jobs, limits: Limits, keeps: Work -> bool, w: Work, turns: nat, end: Work)
    requires keeps(w) && Turns(jobs, limits, w, turns) == Ok(end)
    requires forall v: Work, v': Work :: keeps(v) && v.frontier != [] && Turn(jobs, limits, v) == Ok(v') ==> keeps(v')
    ensures keeps(end)
    decreases turns
  {
    if turns > 0 && w.frontier != [] {
      var next := Turn(jobs, limits, w);
      assert next.Ok?;
      TurnsKeep(jobs, limits, keeps, next.value, turns - 1, end);
    }
  }

  lemma FinalIsSound(jobs: Jobs, limits: Limits, start: string, w: Work)
    requires start in jobs && Final(jobs, limits, jobs[start]) == Ok(w)
    ensures Sound(jobs, limits, start, w)
  {
    StartIsSound(jobs, limits, start);
    var sound := (v: Work) => Sound(jobs, limits, start, v);
    forall v: Work, v': Work | sound(v) && v.frontier != [] && Turn(jobs, limits, v) == Ok(v') ensures sound(v') {
      TurnIsSound(jobs, limits, start, v, v');
    }
    TurnsKeep(jobs, limits, sound, Start(jobs, limits, jobs[start]).value, limits.maxJobs, w);
    assert sound(w);
  }

  /** Whatever is reached is truly needed: the bounds only ever lose jobs. */
  lemma ReachedIsNeeded(jobs: Jobs, limits: Limits, start: string)
    requires start in jobs && Final(jobs, limits, jobs[start]).Ok?
    ensures forall id :: id in Final(jobs, limits, jobs[start]).value.reached ==> TrulyNeeds(jobs, start, id)
  {
    var w := Final(jobs, limits, jobs[start]).value;
    FinalIsSound(jobs, limits, start, w);
    forall id | id in w.reached ensures TrulyNeeds(jobs, start, id) {
      AsReadIsTrue(jobs, limits, start, id);
    }
  }

  // ----- exactly when the bound suffices -----

  /** Every job on the stack was reached already. */
  predicate IsSettled(w: Work) {
    ToSet(w.frontier) <= w.reached
  }

  /**
   The turns that the search takes, without any bound, until every job on the stack was reached. It is
   counted from the workflow alone.
   */
  function TurnsNeeded(jobs: Jobs, limits: Limits, w: Work): nat
    decreases jobs.Keys - w.reached, |w.frontier|
  {
    if IsSettled(w) || w.frontier == [] then 0
    else
      var next := Turn(jobs, limits, w);
      if next.Err? then 1
      else
        var current := w.frontier[|w.frontier| - 1];
        assert current in jobs && current !in w.reached ==> jobs.Keys - next.value.reached < jobs.Keys - w.reached by {
          assert current in jobs && current !in w.reached ==> current in jobs.Keys - w.reached;
        }
        1 + TurnsNeeded(jobs, limits, next.value)
  }

  /** A settled stack only gets shorter. */
  lemma SettledStays(jobs: Jobs, limits: Limits, w: Work)
    requires IsSettled(w) && w.frontier != []
    ensures Turn(jobs, limits, w) == Ok(Work(w.reached, w.frontier[..|w.frontier| - 1]))
    ensures IsSettled(Work(w.reached, w.frontier[..|w.frontier| - 1]))
  {
    var current, rest := w.frontier[|w.frontier| - 1], w.frontier[..|w.frontier| - 1];
    assert w.frontier == rest + [current];
    ToSetAppend(rest, current);
  }

  /** Bounded turns end settled exactly when they are as many as are needed. */
  lemma {:induction false} SettledIff(jobs: Jobs, limits: Limits, w: Work, turns: nat, end: Work)
    requires Turns(jobs, limits, w, turns) == Ok(end)
    ensures IsSettled(end) <==> TurnsNeeded(jobs, limits, w) <= turns
    decreases turns
  {
    if turns > 0 && w.frontier != [] {
      if IsSettled(w) {
        SettledStays(jobs, limits, w);
      }
      var next := Turn(jobs, limits, w);
      assert next.Ok?;
      SettledIff(jobs, limits, next.value, turns - 1, end);
    }
  }

  /** All needs are reached exactly when the search would take no more turns than the bound. */
  lemma ReachedIsAllIff(jobs: Jobs, limits: Limits, start: string)
    requires start in jobs && Final(jobs, limits, jobs[start]).Ok?
    ensures (forall id :: id in Final(jobs, limits, jobs[start]).value.reached <==>
        NeedsAsRead(jobs, limits, start, id))
       <==> TurnsNeeded(jobs, limits, Start(jobs, limits, jobs[start]).value) <= limits.maxJobs
  {
    var w := Final(jobs, limits, jobs[start]).value;
    var roots, succ := KnownSet(jobs, ReadNeeds(jobs[start], limits)), ReadSuccessors(jobs, limits);
    FinalIsSound(jobs, limits, start, w);
    SettledIff(jobs, limits, Start(jobs, limits, jobs[start]).value, limits.maxJobs, w);
    if IsSettled(w) {
      assert w.reached + ToSet(w.frontier) == w.reached;
      FrontierDone(roots, succ, w.reached);
    } else {
      var id :| id in ToSet(w.frontier) && id !in w.reached;
      assert NeedsAsRead(jobs, limits, start, id);
    }
  }

  /**
   * Reading no more of each list than the limit loses nothing: whatever the start, or a job it comes to,
   * declares behind the cut is come to all the same.
   */
  ghost predicate CutLosesNothing(jobs: Jobs, limits: Limits, start: string)
    requires start in jobs
  {
    && (forall id :: id in KnownSet(jobs, DeclaredNeeds(jobs[start])) ==> NeedsAsRead(jobs, limits, start, id))
    && (forall k, id :: NeedsAsRead(jobs, limits, start, k) && id in TrueSuccessors(jobs)(k) ==>
          NeedsAsRead(jobs, limits, start, id))
  }

  /** The needs as read are the true needs exactly when the cut loses nothing. */
  lemma ReadIsTrueIff(jobs: Jobs, limits: Limits, start: string)
    requires start in jobs
    ensures (forall id :: NeedsAsRead(jobs, limits, start, id) <==> TrulyNeeds(jobs, start, id))
       <==> CutLosesNothing(jobs, limits, start)
  {
    var roots, succ := KnownSet(jobs, DeclaredNeeds(jobs[start])), TrueSuccessors(jobs);
    forall id ensures NeedsAsRead(jobs, limits, start, id) ==> TrulyNeeds(jobs, start, id) {
      if NeedsAsRead(jobs, limits, start, id) {
        AsReadIsTrue(jobs, limits, start, id);
      }
    }
    if forall id :: NeedsAsRead(jobs, limits, start, id) <==> TrulyNeeds(jobs, start, id) {
      forall id | id in roots ensures NeedsAsRead(jobs, limits, start, id) {
        RootsAreReached(roots, succ, id);
      }
      forall k, id | NeedsAsRead(jobs, limits, start, k) && id in succ(k) ensures NeedsAsRead(jobs, limits, start, id) {
        SuccessorsAreReached(roots, succ, k, id);
      }
    }
    if CutLosesNothing(jobs, limits, start) {
      var read := set id | id in jobs && NeedsAsRead(jobs, limits, start, id);
      forall id | TrulyNeeds(jobs, start, id) ensures NeedsAsRead(jobs, limits, start, id) {
        ClosedHoldsReachable(roots, succ, read, id);
      }
    }
  }

  /** Lists within the limit are not cut. */
  lemma ShortListsLoseNothing(jobs: Jobs, limits: Limits, start: string)
    requires start in jobs && forall k :: k in jobs ==> |DeclaredNeeds(jobs[k])| <= limits.maxJobs
    ensures CutLosesNothing(jobs, limits, start)
  {
    var roots, succ := KnownSet(jobs, ReadNeeds(jobs[start], limits)), ReadSuccessors(jobs, limits);
    ReadIsDeclared(jobs[start], limits, jobs);
    forall id | id in roots ensures NeedsAsRead(jobs, limits, start, id) {
      RootsAreReached(roots, succ, id);
    }
    forall k, id | NeedsAsRead(jobs, limits, start, k) && id in TrueSuccessors(jobs)(k)
      ensures NeedsAsRead(jobs, limits, start, id)
    {
      ReadIsDeclared(jobs[k], limits, jobs);
      SuccessorsAreReached(roots, succ, k, id);
    }
  }

  /**
   * The true needs are found exactly when the cut of long lists loses nothing and the search would take
   * no more turns than the bound.
   */
  lemma TrueNeedsAreFoundIff(jobs: Jobs, limits: Limits, start: string)
    requires start in jobs && Final(jobs, limits, jobs[start]).Ok?
    ensures (forall id :: id in Final(jobs, limits, jobs[start]).value.reached <==> TrulyNeeds(jobs, start, id))
       <==> CutLosesNothing(jobs, limits, start)
            && TurnsNeeded(jobs, limits, Start(jobs, limits, jobs[start]).value) <= limits.maxJobs
  {
    var w := Final(jobs, limits, jobs[start]).value;
    ReachedIsAllIff(jobs, limits, start);
    ReadIsTrueIff(jobs, limits, start);
    ReachedIsRead(jobs, limits, start);
    forall id | NeedsAsRead(jobs, limits, start, id) ensures TrulyNeeds(jobs, start, id) {
      AsReadIsTrue(jobs, limits, start, id);
    }
  }

  lemma ReachedIsRead(jobs: Jobs, limits: Limits, start: string)
    requires start in jobs && Final(jobs, limits, jobs[start]).Ok?
    ensures forall id :: id in Final(jobs, limits, jobs[start]).value.reached ==> NeedsAsRead(jobs, limits, start, id)
  {
    FinalIsSound(jobs, limits, start, Final(jobs, limits, jobs[start]).value);
  }

  // ----- a simple count that suffices -----

  /** How many needs on existing jobs each of some jobs declares: what it puts on the stack at most. */
  function NeedCounts(jobs: Jobs, limits: Limits, within: set<string>): map<string, nat> {
    map id | id in jobs && id in within :: |Known(jobs, ReadNeeds(jobs[id], limits))|
  }

  /** The needs of its jobs do not lead out of the set. */
  ghost predicate IsClosed(jobs: Jobs, limits: Limits, within: set<string>) {
    forall id :: id in jobs && id in within ==> KnownSet(jobs, ReadNeeds(jobs[id], limits)) <= within
  }

  /** What the stack can still grow by is what the jobs not reached yet declare. */
  ghost function Ahead(jobs: Jobs, limits: Limits, within: set<string>, w: Work): nat {
    |w.frontier| + Sum(NeedCounts(jobs, limits, within) - w.reached)
  }

  lemma {:induction false} UnreachedAreKnown(jobs: Jobs, reached: set<string>, ids: seq<string>)
    ensures |Unreached(jobs, reached, ids)| <= |Known(jobs, ids)|
  {
    if ids != [] {
      UnreachedAreKnown(jobs, reached, ids[..|ids| - 1]);
    }
  }

  lemma TurnUsesOne(jobs: Jobs, limits: Limits, within: set<string>, w: Work, w': Work)
    requires w.frontier != [] && Turn(jobs, limits, w) == Ok(w')
    requires IsClosed(jobs, limits, within) && ToSet(w.frontier) <= within * jobs.Keys
    ensures Ahead(jobs, limits, within, w') < Ahead(jobs, limits, within, w)
    ensures ToSet(w'.frontier) <= within * jobs.Keys
  {
    var current := w.frontier[|w.frontier| - 1];
    assert current in ToSet(w.frontier);
    TurnAsSets(jobs, limits, w, w', current);
    if current !in w.reached {
      var counts := NeedCounts(jobs, limits, within);
      UnreachedAreKnown(jobs, w'.reached, ReadNeeds(jobs[current], limits));
      SumRemove(counts - w.reached, current);
      assert counts - w.reached - {current} == counts - w'.reached;
    }
  }

  /** A search inside a closed set takes no more turns than the needs declared there. */
  lemma {:induction false} FewNeedsTakeFewTurns(jobs: Jobs, limits: Limits, within: set<string>, w: Work)
    requires IsClosed(jobs, limits, within) && ToSet(w.frontier) <= within * jobs.Keys
    ensures TurnsNeeded(jobs, limits, w) <= Ahead(jobs, limits, within, w)
    decreases Ahead(jobs, limits, within, w)
  {
    if !IsSettled(w) && w.frontier != [] {
      var next := Turn(jobs, limits, w);
      if next.Ok? {
        TurnUsesOne(jobs, limits, within, w, next.value);
        FewNeedsTakeFewTurns(jobs, limits, within, next.value);
      }
    }
  }

  /**
   With no more needs than turns, exactly the needs as read are reached, cycles or not. It is enough
   to count the needs of the start and, once each, of the jobs it can come to.
   */
  lemma FewNeedsAreAllReached(jobs: Jobs, limits: Limits, start: string, within: set<string>)
    requires start in jobs && Final(jobs, limits, jobs[start]).Ok?
    requires IsClosed(jobs, limits, within) && KnownSet(jobs, ReadNeeds(jobs[start], limits)) <= within
    requires |Known(jobs, ReadNeeds(jobs[start], limits))| + Sum(NeedCounts(jobs, limits, within)) <= limits.maxJobs
    ensures forall id :: id in Final(jobs, limits, jobs[start]).value.reached <==> NeedsAsRead(jobs, limits, start, id)
  {
    var w := Start(jobs, limits, jobs[start]).value;
    KnownMembers(jobs, ReadNeeds(jobs[start], limits));
    assert NeedCounts(jobs, limits, within) - {} == NeedCounts(jobs, limits, within);
    FewNeedsTakeFewTurns(jobs, limits, within, w);
    ReachedIsAllIff(jobs, limits, start);
  }

  // ----- when it does not -----

  lemma {:induction false} AllAreKnown(jobs: Jobs, ids: seq<string>)
    requires forall i :: 0 <= i < |ids| ==> ids[i] in jobs
    ensures Known(jobs, ids) == ids
  {
    if ids != [] {
      AllAreKnown(jobs, ids[..|ids| - 1]);
      assert ids == ids[..|ids| - 1] + [ids[|ids| - 1]];
    }
  }

  lemma {:induction false} RepeatsAreSkipped(jobs: Jobs, limits: Limits, reached: set<string>, gate: string, id: string,
                                             n: nat)
    requires id in reached
    ensures Turns(jobs, limits, Work(reached, [gate] + Repeat(id, n)), n) == Ok(Work(reached, [gate]))
  {
    var frontier := [gate] + Repeat(id, n);
    if n == 0 {
      assert frontier == [gate];
    } else {
      assert frontier[..|frontier| - 1] == [gate] + Repeat(id, n - 1);
      RepeatsAreSkipped(jobs, limits, reached, gate, id, n - 1);
    }
  }

  /** The first of the repeats takes two turns: its own, and that of the one job it needs. */
  lemma FirstRepeat(jobs: Jobs, limits: Limits, left: seq<string>, lint: string, docs: string)
    requires lint in jobs && jobs[lint].needs == One(docs) && docs in jobs && jobs[docs].needs == Absent && lint != docs
    ensures Turn(jobs, limits, Work({}, left + [lint])) == Ok(Work({lint}, left + [docs]))
    ensures Turn(jobs, limits, Work({lint}, left + [docs])) == Ok(Work({lint, docs}, left))
  {
    assert (left + [lint])[..|left|] == left && (left + [docs])[..|left|] == left;
    assert Unreached(jobs, {lint}, [docs]) == [docs] by {
      assert [docs][..0] == [];
    }
    assert {} + {lint} == {lint};
    assert {lint} + {docs} == {lint, docs};
    assert left + Unreached(jobs, {lint, docs}, []) == left;
  }

  /**
   * Repeated needs can use up the turns. A job that needs a gate and names another job for the rest of
   * its needs, which needs one job more, does not reach the gate.
   */
  lemma RepeatsHideAGate(jobs: Jobs, limits: Limits, start: string, gate: string, lint: string, docs: string)
    requires start in jobs && gate in jobs && lint in jobs && docs in jobs
    requires gate != lint && gate != docs && lint != docs && limits.maxJobs >= 2
    requires jobs[start].needs == Many([gate] + Repeat(lint, limits.maxJobs - 1))
    requires jobs[lint].needs == One(docs) && jobs[docs].needs == Absent
    ensures TrulyNeeds(jobs, start, gate)
    ensures Final(jobs, limits, jobs[start]).Ok? && gate !in Final(jobs, limits, jobs[start]).value.reached
  {
    var n := limits.maxJobs;
    var needs := [gate] + Repeat(lint, n - 1);
    assert needs[0] == gate;
    RootsAreReached(KnownSet(jobs, needs), TrueSuccessors(jobs), gate);
    RepeatsEnd(jobs, limits, jobs[start], gate, lint, docs, n);
  }

  lemma RepeatsEnd(jobs: Jobs, limits: Limits, job: Job, gate: string, lint: string, docs: string, n: nat)
    requires n >= 2 && limits.maxJobs == n && gate in jobs
    requires job.needs == Many([gate] + Repeat(lint, n - 1))
    requires lint in jobs && jobs[lint].needs == One(docs) && docs in jobs && jobs[docs].needs == Absent && lint != docs
    ensures Final(jobs, limits, job) == Ok(Work({lint, docs}, [gate]))
  {
    var needs := [gate] + Repeat(lint, n - 1);
    assert needs[..n] == needs;
    AllAreKnown(jobs, needs);
    RepeatsUseAllTurns(jobs, limits, gate, lint, docs, n);
  }

  lemma RepeatsUseAllTurns(jobs: Jobs, limits: Limits, gate: string, lint: string, docs: string, n: nat)
    requires n >= 2
    requires lint in jobs && jobs[lint].needs == One(docs) && docs in jobs && jobs[docs].needs == Absent && lint != docs
    ensures Turns(jobs, limits, Work({}, [gate] + Repeat(lint, n - 1)), n) == Ok(Work({lint, docs}, [gate]))
  {
    var left := [gate] + Repeat(lint, n - 2);
    assert left + [lint] == [gate] + Repeat(lint, n - 1);
    FirstRepeat(jobs, limits, left, lint, docs);
    TwoTurns(jobs, limits, Work({}, left + [lint]), n);
    RepeatsAreSkipped(jobs, limits, {lint, docs}, gate, lint, n - 2);
  }

  lemma TwoTurns(jobs: Jobs, limits: Limits, w: Work, n: nat)
    requires n >= 2 && w.frontier != [] && Turn(jobs, limits, w).Ok?
    requires Turn(jobs, limits, w).value.frontier != [] && Turn(jobs, limits, Turn(jobs, limits, w).value).Ok?
    ensures Turns(jobs, limits, w, n)
      == Turns(jobs, limits, Turn(jobs, limits, Turn(jobs, limits, w).value).value, n - 2)
  {
  }

  lemma {:induction false} TurnsTwice(jobs: Jobs, limits: Limits, w: Work, m: nat, n: nat, mid: Work)
    requires Turns(jobs, limits, w, m) == Ok(mid)
    ensures Turns(jobs, limits, w, m + n) == Turns(jobs, limits, mid, n)
    decreases m
  {
    if m > 0 && w.frontier != [] {
      TurnsTwice(jobs, limits, Turn(jobs, limits, w).value, m - 1, n, mid);
    }
  }

  /** A job without needs leaves the stack and adds nothing. */
  lemma LeafTurn(jobs: Jobs, limits: Limits, reached: set<string>, rest: seq<string>, leaf: string)
    requires leaf in jobs && jobs[leaf].needs == Absent
    ensures Turn(jobs, limits, Work(reached, rest + [leaf])) == Ok(Work(reached + {leaf}, rest))
  {
    assert (rest + [leaf])[..|rest|] == rest;
    assert leaf in reached ==> reached + {leaf} == reached;
    assert rest + Unreached(jobs, reached + {leaf}, []) == rest;
  }

  lemma {:induction false} LeavesTurn(jobs: Jobs, limits: Limits, reached: set<string>, rest: seq<string>,
                                      leaves: seq<string>)
    requires forall i :: 0 <= i < |leaves| ==> leaves[i] in jobs && jobs[leaves[i]].needs == Absent
    ensures Turns(jobs, limits, Work(reached, rest + leaves), |leaves|) == Ok(Work(reached + ToSet(leaves), rest))
    decreases |leaves|
  {
    if leaves == [] {
      assert rest + leaves == rest && reached + ToSet(leaves) == reached;
    } else {
      var init, last := leaves[..|leaves| - 1], leaves[|leaves| - 1];
      assert rest + leaves == (rest + init) + [last] && leaves == init + [last];
      LeafTurn(jobs, limits, reached, rest + init, last);
      LeavesTurn(jobs, limits, reached + {last}, rest, init);
      ToSetAppend(init, last);
      assert reached + {last} + ToSet(init) == reached + ToSet(leaves);
    }
  }

  /** The last need of the start brings two of its other needs onto the stack a second time. */
  lemma SecondTimeTurn(jobs: Jobs, limits: Limits, rest: seq<string>, a: string, b: string, last: string)
    requires a in jobs && b in jobs && last in jobs && a != last && b != last && limits.maxJobs >= 2
    requires jobs[last].needs == Many([a, b])
    ensures Turn(jobs, limits, Work({}, rest + [last])) == Ok(Work({last}, rest + [a, b]))
  {
    assert (rest + [last])[..|rest|] == rest && [a, b][..Min(limits.maxJobs, 2)] == [a, b] && {} + {last} == {last};
    assert [a, b][..1] == [a] && [a][..0] == [];
    assert Unreached(jobs, {last}, [a]) == [a];
    assert Unreached(jobs, {last}, [a, b]) == [a] + [b] == [a, b];
  }

  /** The stack of the shape that hides a gate, and how it is worked off until only the gate is left. */
  lemma OnlyTheGateIsLeft(jobs: Jobs, limits: Limits, gate: string, a: string, b: string, last: string,
                          others: seq<string>)
    requires a in jobs && b in jobs && last in jobs && a != last && b != last && limits.maxJobs >= 2
    requires jobs[last].needs == Many([a, b]) && jobs[a].needs == Absent && jobs[b].needs == Absent
    requires forall i :: 0 <= i < |others| ==> others[i] in jobs && jobs[others[i]].needs == Absent
    ensures Turns(jobs, limits, Work({}, [gate] + ([a, b] + others) + [last]), |others| + 5)
         == Ok(Work({last} + ToSet([a, b] + others + [a, b]), [gate]))
  {
    var rest, leaves := [gate] + ([a, b] + others), [a, b] + others + [a, b];
    SecondTimeTurn(jobs, limits, rest, a, b, last);
    var next := Work({last}, rest + [a, b]);
    assert rest + [a, b] == [gate] + leaves;
    assert Turns(jobs, limits, Work({}, rest + [last]), 1 + |leaves|) == Turns(jobs, limits, next, |leaves|);
    forall i | 0 <= i < |leaves| ensures leaves[i] in jobs && jobs[leaves[i]].needs == Absent {
      if 2 <= i < |others| + 2 {
        assert leaves[i] == others[i - 2];
      }
    }
    LeavesTurn(jobs, limits, {last}, [gate], leaves);
  }

  /**
   Needs without any repetition, in a graph without cycles, can use up the turns as well: one job
   among the last of a list needs two that stand earlier in it.
   */
  lemma SharedNeedsHideAGate(jobs: Jobs, limits: Limits, start: string, gate: string, a: string, b: string,
                             last: string, others: seq<string>)
    requires limits.maxJobs == |others| + 5
    requires start in jobs && gate in jobs && a in jobs && b in jobs && last in jobs
    requires a != last && b != last && gate !in [a, b] + others + [a, b] && gate != last
    requires jobs[start].needs == Many([gate] + ([a, b] + others) + [last])
    requires jobs[last].needs == Many([a, b]) && jobs[a].needs == Absent && jobs[b].needs == Absent
    requires forall i :: 0 <= i < |others| ==> others[i] in jobs && jobs[others[i]].needs == Absent
    ensures TrulyNeeds(jobs, start, gate)
    ensures Final(jobs, limits, jobs[start]).Ok? && gate !in Final(jobs, limits, jobs[start]).value.reached
  {
    var needs := [gate] + ([a, b] + others) + [last];
    var end := Work({last} + ToSet([a, b] + others + [a, b]), [gate]);
    assert needs[0] == gate;
    ListedIsNeeded(jobs, start, needs, 0);
    SharedNeedsAreRead(jobs, limits, jobs[start], gate, a, b, last, others);
    OnlyTheGateIsLeft(jobs, limits, gate, a, b, last, others);
    assert Final(jobs, limits, jobs[start]) == Ok(end);
  }

  lemma SharedNeedsAreRead(jobs: Jobs, limits: Limits, job: Job, gate: string, a: string, b: string, last: string,
                           others: seq<string>)
    requires limits.maxJobs == |others| + 5 && gate in jobs && a in jobs && b in jobs && last in jobs
    requires job.needs == Many([gate] + ([a, b] + others) + [last])
    requires forall i :: 0 <= i < |others| ==> others[i] in jobs
    ensures Start(jobs, limits, job) == Ok(Work({}, [gate] + ([a, b] + others) + [last]))
  {
    var needs := [gate] + ([a, b] + others) + [last];
    assert needs[..|needs|] == needs;
    forall i | 0 <= i < |needs| ensures needs[i] in jobs {
      if 3 <= i < |others| + 3 {
        assert needs[i] == others[i - 3];
      }
    }
    ListIsRead(jobs, limits, job, needs, needs);
  }

  // ----- workflows that show it -----

  /** No job declares a need twice. */
  ghost predicate NeedsAreDistinct(jobs: Jobs) {
    forall id :: id in jobs ==> Distinct(DeclaredNeeds(jobs[id]))
  }

  function PlainJob(needs: Needs): Job {
    Job(needs, false, Ok([]))
  }

  /** A release workflow of these jobs, whose needs are given. */
  function Declared(order: seq<string>, needs: string -> Needs): Workflow {
    Workflow(true, [], order, map id | id in order :: PlainJob(needs(id)))
  }

  lemma DeclaredIsWorkflow(order: seq<string>, needs: string -> Needs, limits: Limits)
    requires Distinct(order) && 0 < |order| <= limits.maxJobs
    ensures IsWorkflow(Declared(order, needs), limits)
  {
    assert Declared(order, needs).jobs.Keys == ToSet(order);
  }

  /** With repeated needs a file of four jobs is enough. */
  lemma RepeatsCanHideAGate(limits: Limits) returns (w: Workflow, start: string, gate: string)
    requires limits.maxJobs >= 4
    ensures IsWorkflow(w, limits) && start in w.jobs && TrulyNeeds(w.jobs, start, gate)
    ensures Final(w.jobs, limits, w.jobs[start]).Ok? && gate !in Final(w.jobs, limits, w.jobs[start]).value.reached
  {
    var lint, docs := "l", "d";
    start, gate := "p", "v";
    var order := [start, gate, lint, docs];
    var list := [gate] + Repeat(lint, limits.maxJobs - 1);
    var needs := (id: string) => if id == "p" then Many(list) else if id == "l" then One("d") else Absent;
    w := Declared(order, needs);
    DeclaredIsWorkflow(order, needs, limits);
    RepeatsHideAGate(w.jobs, limits, start, gate, lint, docs);
  }

  /** A need behind the cut of a long list is lost, however few turns the search takes. */
  lemma CutHidesAGate(jobs: Jobs, limits: Limits, start: string, gate: string, docs: string)
    requires limits.maxJobs >= 1 && start in jobs && gate in jobs && docs in jobs && gate != docs
    requires jobs[start].needs == Many(Repeat(docs, limits.maxJobs) + [gate]) && jobs[docs].needs == Absent
    ensures TrulyNeeds(jobs, start, gate)
    ensures Final(jobs, limits, jobs[start]).Ok? && gate !in Final(jobs, limits, jobs[start]).value.reached
    ensures TurnsNeeded(jobs, limits, Start(jobs, limits, jobs[start]).value) <= limits.maxJobs
  {
    var list, read := Repeat(docs, limits.maxJobs) + [gate], Repeat(docs, limits.maxJobs);
    ListedIsNeeded(jobs, start, list, limits.maxJobs);
    assert list[..limits.maxJobs] == read;
    ListIsRead(jobs, limits, jobs[start], list, read);
    LeavesAreDone(jobs, limits, read);
    assert gate !in ToSet(read);
  }

  lemma ListedIsNeeded(jobs: Jobs, start: string, list: seq<string>, k: nat)
    requires start in jobs && jobs[start].needs == Many(list) && k < |list| && list[k] in jobs
    ensures TrulyNeeds(jobs, start, list[k])
  {
    RootsAreReached(KnownSet(jobs, list), TrueSuccessors(jobs), list[k]);
  }

  /** The search starts from what is read of the list, if all of it exists. */
  lemma ListIsRead(jobs: Jobs, limits: Limits, job: Job, list: seq<string>, read: seq<string>)
    requires job.needs == Many(list) && read == list[..Min(limits.maxJobs, |list|)]
    requires forall i :: 0 <= i < |read| ==> read[i] in jobs
    ensures Start(jobs, limits, job) == Ok(Work({}, read))
  {
    AllAreKnown(jobs, read);
  }

  lemma LeavesAreDone(jobs: Jobs, limits: Limits, leaves: seq<string>)
    requires forall i :: 0 <= i < |leaves| ==> leaves[i] in jobs && jobs[leaves[i]].needs == Absent
    ensures Turns(jobs, limits, Work({}, leaves), |leaves|) == Ok(Work(ToSet(leaves), []))
    ensures TurnsNeeded(jobs, limits, Work({}, leaves)) <= |leaves|
  {
    assert [] + leaves == leaves && {} + ToSet(leaves) == ToSet(leaves);
    LeavesTurn(jobs, limits, {}, [], leaves);
    SettledIff(jobs, limits, Work({}, leaves), |leaves|, Work(ToSet(leaves), []));
  }

  /** A file of three jobs is enough for it. */
  lemma ACutCanHideAGate(limits: Limits) returns (w: Workflow, start: string, gate: string)
    requires limits.maxJobs >= 3
    ensures IsWorkflow(w, limits) && start in w.jobs && TrulyNeeds(w.jobs, start, gate)
    ensures Final(w.jobs, limits, w.jobs[start]).Ok? && gate !in Final(w.jobs, limits, w.jobs[start]).value.reached
    ensures TurnsNeeded(w.jobs, limits, Start(w.jobs, limits, w.jobs[start]).value) <= limits.maxJobs
  {
    var docs := "d";
    start, gate := "p", "v";
    var order := [start, gate, docs];
    var list := Repeat(docs, limits.maxJobs) + [gate];
    var needs := (id: string) => if id == "p" then Many(list) else Absent;
    w := Declared(order, needs);
    DeclaredIsWorkflow(order, needs, limits);
    CutHidesAGate(w.jobs, limits, start, gate, docs);
  }

  /** Names that no other job has: the letter f once, twice, and so on. */
  function OtherNames(n: nat): (names: seq<string>)
    ensures |names| == n && Distinct(names)
    ensures forall i :: 0 <= i < n ==> names[i] != [] && names[i][0] == 'f' && |names[i]| == i + 1
  {
    seq(n, (i: nat) => Repeat('f', i + 1))
  }

  /** The needs of the shape that hides a gate. */
  function SharedNeeds(start: string, list: seq<string>, a: string, b: string, last: string): string -> Needs {
    id => if id == start then Many(list) else if id == last then Many([a, b]) else Absent
  }

  lemma SharedNeedsFile(limits: Limits, start: string, gate: string, a: string, b: string, last: string,
                        others: seq<string>)
    returns (w: Workflow)
    requires limits.maxJobs == |others| + 5
    requires Distinct([start] + ([gate] + ([a, b] + others) + [last]))
    ensures IsWorkflow(w, limits) && NeedsAreDistinct(w.jobs) && start in w.jobs && TrulyNeeds(w.jobs, start, gate)
    ensures Final(w.jobs, limits, w.jobs[start]).Ok? && gate !in Final(w.jobs, limits, w.jobs[start]).value.reached
  {
    var list := [gate] + ([a, b] + others) + [last];
    var order := [start] + list;
    var needs := SharedNeeds(start, list, a, b, last);
    w := Declared(order, needs);
    DeclaredIsWorkflow(order, needs, limits);
    assert order[0] == start && order[1] == gate && order[2] == a && order[3] == b && order[|order| - 1] == last;
    forall i | 0 <= i < |others|
      ensures others[i] in w.jobs && others[i] != start && others[i] != gate && others[i] != last {
      assert order[i + 4] == others[i];
    }
    TailIsDistinct(start, list);
    SharedNeedsAreDistinct(order, start, list, a, b, last);
    SharedNeedsHideAGate(w.jobs, limits, start, gate, a, b, last, others);
  }

  lemma SharedNeedsAreDistinct(order: seq<string>, start: string, list: seq<string>, a: string, b: string, last: string)
    requires Distinct(list) && a != b
    ensures NeedsAreDistinct(Declared(order, SharedNeeds(start, list, a, b, last)).jobs)
  {
    assert Distinct([a, b]);
  }

  lemma TailIsDistinct<T>(x: T, s: seq<T>)
    requires Distinct([x] + s)
    ensures Distinct(s)
  {
    assert forall i :: 0 <= i < |s| ==> ([x] + s)[i + 1] == s[i];
  }

  /** From five jobs on, a file hides a gate in which no list of needs repeats a job, whatever the bound. */
  lemma AGateCanBeHidden(limits: Limits) returns (w: Workflow, start: string, gate: string)
    requires limits.maxJobs >= 5
    ensures IsWorkflow(w, limits) && NeedsAreDistinct(w.jobs) && start in w.jobs && TrulyNeeds(w.jobs, start, gate)
    ensures Final(w.jobs, limits, w.jobs[start]).Ok? && gate !in Final(w.jobs, limits, w.jobs[start]).value.reached
  {
    start, gate := "p", "v";
    var others := OtherNames(limits.maxJobs - 5);
    AllNamesAreDistinct("p", "v", "a", "b", "c", others);
    w := SharedNeedsFile(limits, "p", "v", "a", "b", "c", others);
  }

  lemma AllNamesAreDistinct(start: string, gate: string, a: string, b: string, last: string, others: seq<string>)
    requires Distinct(others) && Distinct([start, gate, a, b, last])
    requires forall i :: 0 <= i < |others| ==> others[i] !in [start, gate, a, b, last]
    ensures Distinct([start] + ([gate] + ([a, b] + others) + [last]))
  {
    var five, order := [start, gate, a, b, last], [start] + ([gate] + ([a, b] + others) + [last]);
    assert five[0] != five[1] && five[0] != five[2] && five[0] != five[3] && five[0] != five[4];
    assert five[1] != five[2] && five[1] != five[3] && five[1] != five[4];
    assert five[2] != five[3] && five[2] != five[4] && five[3] != five[4];
    assert forall i :: 0 <= i < |others| ==> order[i + 4] == others[i] && others[i] != start && others[i] != gate
                                             && others[i] != a && others[i] != b && others[i] != last;
    forall i, j | 0 <= i < j < |order| ensures order[i] != order[j] {
      if 4 <= i && j < |others| + 4 {
        assert others[i - 4] != others[j - 4];
      }
    }
  }

  // ----- refusals -----

  datatype Refusal =
    | NotAllowed(job: string, reason: Reason)
    | RunsAfterFailedGate(job: string)
    | Ungated(job: string, reason: Reason, missing: seq<string>)
    | WrongWorkflow(job: string, reason: Reason)
    | NothingPublishes
    | BadTrigger(text: string)

  function Missing(gates: seq<string>, reached: set<string>): seq<string> {
    if gates == [] then [] else
    var last := gates[|gates| - 1];
    Missing(gates[..|gates| - 1], reached) + (if last in reached then [] else [last])
  }

  function Disallowed(id: string, reasons: seq<Reason>): seq<Refusal> {
    if reasons == [] then [] else
    var last := reasons[|reasons| - 1];
    Disallowed(id, reasons[..|reasons| - 1]) + (if last.allowed then [] else [NotAllowed(id, last)])
  }

  function UngatedFor(id: string, reasons: seq<Reason>, missing: seq<string>): seq<Refusal> {
    if reasons == [] then [] else
    UngatedFor(id, reasons[..|reasons| - 1], missing) + [Ungated(id, reasons[|reasons| - 1], missing)]
  }

  function WrongWorkflowFor(id: string, reasons: seq<Reason>): seq<Refusal> {
    if reasons == [] then [] else
    WrongWorkflowFor(id, reasons[..|reasons| - 1]) + [WrongWorkflow(id, reasons[|reasons| - 1])]
  }

  /** The refusals of one publishing job, given what its needs reach. */
  function JobRefusals(id: string, job: Job, reasons: seq<Reason>, reached: set<string>): seq<Refusal> {
    var missing := Missing(REQUIRED_GATES, reached);
    Disallowed(id, reasons)
    + (if job.bypassesGates then [RunsAfterFailedGate(id)] else [])
    + (if missing != [] then UngatedFor(id, reasons, missing) else [])
  }

  /** The gates that are not among the needs, in their order. */
  method MissingGates(reached: set<string>) returns (missing: seq<string>)
    ensures missing == Missing(REQUIRED_GATES, reached)
  {
    missing := [];
    for i := 0 to |REQUIRED_GATES|
      invariant missing == Missing(REQUIRED_GATES[..i], reached)
    {
      assert REQUIRED_GATES[..i + 1][..i] == REQUIRED_GATES[..i];
      if REQUIRED_GATES[i] !in reached {
        missing := missing + [REQUIRED_GATES[i]];
      }
    }
    assert REQUIRED_GATES[..|REQUIRED_GATES|] == REQUIRED_GATES;
  }

  method PublishJobRefusals(id: string, job: Job, jobs: Jobs, limits: Limits, reasons: seq<Reason>)
    returns (result: Result<seq<Refusal>, Error>)
    requires id in jobs && jobs[id] == job && |reasons| <= limits.maxSteps
    ensures var final := Final(jobs, limits, job);
            result == if final.Err? then Err(final.error) else Ok(JobRefusals(id, job, reasons, final.value.reached))
  {
    var refusals := [];
    for i := 0 to |reasons|
      invariant refusals == Disallowed(id, reasons[..i])
    {
      assert reasons[..i + 1][..i] == reasons[..i];
      if !reasons[i].allowed {
        refusals := refusals + [NotAllowed(id, reasons[i])];
      }
    }
    assert reasons[..|reasons|] == reasons;
    if job.bypassesGates {
      refusals := refusals + [RunsAfterFailedGate(id)];
    }
    ghost var base := Disallowed(id, reasons) + (if job.bypassesGates then [RunsAfterFailedGate(id)] else []);
    assert refusals == base;
    var needs := TransitiveNeeds(jobs, limits, id);
    if needs.Err? {
      return Err(needs.error);
    }
    var missing := MissingGates(needs.value);
    if missing != [] {
      var before := refusals;
      for i := 0 to |reasons|
        invariant refusals == before + UngatedFor(id, reasons[..i], missing)
      {
        assert reasons[..i + 1][..i] == reasons[..i];
        refusals := refusals + [Ungated(id, reasons[i], missing)];
      }
      assert reasons[..|reasons|] == reasons;
    }
    assert base + [] == base;
    return Ok(refusals);
  }

  lemma {:induction false} MissingIff(gates: seq<string>, reached: set<string>)
    ensures Missing(gates, reached) == [] <==> ToSet(gates) <= reached
  {
    if gates != [] {
      var init, last := gates[..|gates| - 1], gates[|gates| - 1];
      MissingIff(init, reached);
      assert gates == init + [last];
      ToSetAppend(init, last);
    }
  }

  lemma {:induction false} DisallowedIff(id: string, reasons: seq<Reason>)
    ensures Disallowed(id, reasons) == [] <==> forall i :: 0 <= i < |reasons| ==> reasons[i].allowed
  {
    if reasons != [] {
      var init, last := reasons[..|reasons| - 1], reasons[|reasons| - 1];
      DisallowedIff(id, init);
      assert forall i :: 0 <= i < |init| ==> init[i] == reasons[i];
      assert Disallowed(id, reasons) == [] <==> Disallowed(id, init) == [] && last.allowed;
    }
  }

  lemma {:induction false} MissingAre(gates: seq<string>, reached: set<string>, gate: string)
    ensures gate in Missing(gates, reached) <==> gate in gates && gate !in reached
  {
    if gates != [] {
      var init, last := gates[..|gates| - 1], gates[|gates| - 1];
      MissingAre(init, reached, gate);
      assert gates == init + [last];
    }
  }

  lemma {:induction false} DisallowedAre(id: string, reasons: seq<Reason>, r: Refusal)
    ensures r in Disallowed(id, reasons) <==> exists x :: x in reasons && !x.allowed && r == NotAllowed(id, x)
  {
    if reasons != [] {
      var init, last := reasons[..|reasons| - 1], reasons[|reasons| - 1];
      DisallowedAre(id, init, r);
      assert reasons == init + [last];
    }
  }

  lemma {:induction false} UngatedAre(id: string, reasons: seq<Reason>, missing: seq<string>, r: Refusal)
    ensures r in UngatedFor(id, reasons, missing) <==> exists x :: x in reasons && r == Ungated(id, x, missing)
  {
    if reasons != [] {
      var init, last := reasons[..|reasons| - 1], reasons[|reasons| - 1];
      UngatedAre(id, init, missing, r);
      assert reasons == init + [last];
    }
  }

  /**
   * What the refusals of a publishing job say: each names the job, and an ungated one exactly the gates not reached.
   */
  lemma JobRefusalsSay(id: string, job: Job, reasons: seq<Reason>, reached: set<string>, r: Refusal)
    ensures r in JobRefusals(id, job, reasons, reached) <==>
      (|| (exists x :: x in reasons && !x.allowed && r == NotAllowed(id, x))
       || (job.bypassesGates && r == RunsAfterFailedGate(id))
       || (exists x :: x in reasons && r == Ungated(id, x, Missing(REQUIRED_GATES, reached))
                       && Missing(REQUIRED_GATES, reached) != []))
    ensures forall gate :: gate in Missing(REQUIRED_GATES, reached) <==>
      gate in ["dogfood-gate", "image-smoke", "build", "release-files", "verify"] && gate !in reached
  {
    DisallowedAre(id, reasons, r);
    UngatedAre(id, reasons, Missing(REQUIRED_GATES, reached), r);
    forall gate ensures gate in Missing(REQUIRED_GATES, reached) <==> gate in REQUIRED_GATES && gate !in reached {
      MissingAre(REQUIRED_GATES, reached, gate);
    }
  }

  /** A publishing job is let through when nothing about it is refused. */
  ghost predicate MayPublish(job: Job, reasons: seq<Reason>, reached: set<string>) {
    && (forall i :: 0 <= i < |reasons| ==> reasons[i].allowed)
    && !job.bypassesGates
    && ToSet(REQUIRED_GATES) <= reached
  }

  lemma JobRefusalsIff(id: string, job: Job, reasons: seq<Reason>, reached: set<string>)
    requires reasons != []
    ensures JobRefusals(id, job, reasons, reached) == [] <==> MayPublish(job, reasons, reached)
  {
    var missing := Missing(REQUIRED_GATES, reached);
    MissingIff(REQUIRED_GATES, reached);
    DisallowedIff(id, reasons);
  }

  // ----- a whole workflow -----

  datatype Workflow = Workflow(isRelease: bool, triggers: seq<Refusal>, order: seq<string>, jobs: Jobs)

  /** The jobs in the order of the file, each once; a file with none or too many is not read. */
  predicate IsWorkflow(w: Workflow, limits: Limits) {
    && (forall i :: 0 <= i < |w.order| ==> w.order[i] in w.jobs)
    && Distinct(w.order) && ToSet(w.order) == w.jobs.Keys && 0 < |w.order| <= limits.maxJobs
    && forall id :: id in w.jobs && w.jobs[id].reasons.Ok? ==> |w.jobs[id].reasons.value| <= limits.maxSteps
  }

  /** The refusals so far, and how many jobs publish. */
  datatype Tally = Tally(refusals: seq<Refusal>, publishers: nat)

  function CheckJob(w: Workflow, limits: Limits, t: Tally, id: string): Result<Tally, Error>
    requires id in w.jobs
  {
    var job := w.jobs[id];
    if job.reasons.Err? then Err(job.reasons.error)
    else if job.reasons.value == [] then Ok(t)
    else if !w.isRelease then Ok(Tally(t.refusals + WrongWorkflowFor(id, job.reasons.value), t.publishers + 1))
    else
      var final := Final(w.jobs, limits, job);
      if final.Err? then Err(final.error)
      else Ok(Tally(t.refusals + JobRefusals(id, job, job.reasons.value, final.value.reached), t.publishers + 1))
  }

  function CheckJobs(w: Workflow, limits: Limits, ids: seq<string>): Result<Tally, Error>
    requires forall i :: 0 <= i < |ids| ==> ids[i] in w.jobs
  {
    if ids == [] then Ok(Tally(if w.isRelease then w.triggers else [], 0))
    else
      var before := CheckJobs(w, limits, ids[..|ids| - 1]);
      if before.Err? then before else CheckJob(w, limits, before.value, ids[|ids| - 1])
  }

  function Refusals(w: Workflow, limits: Limits): Result<seq<Refusal>, Error>
    requires forall i :: 0 <= i < |w.order| ==> w.order[i] in w.jobs
  {
    var all := CheckJobs(w, limits, w.order);
    if all.Err? then Err(all.error)
    else if w.isRelease && all.value.publishers == 0 then Ok(all.value.refusals + [NothingPublishes])
    else Ok(all.value.refusals)
  }

  lemma ErrorsStay(w: Workflow, limits: Limits, ids: seq<string>, k: nat)
    requires forall i :: 0 <= i < |ids| ==> ids[i] in w.jobs
    requires k <= |ids| && CheckJobs(w, limits, ids[..k]).Err?
    ensures CheckJobs(w, limits, ids) == CheckJobs(w, limits, ids[..k])
    decreases |ids|
  {
    if k < |ids| {
      var init := ids[..|ids| - 1];
      assert init[..k] == ids[..k];
      ErrorsStay(w, limits, init, k);
    } else {
      assert ids[..k] == ids;
    }
  }

  lemma OneMoreChecked(w: Workflow, limits: Limits, i: nat)
    requires forall k :: 0 <= k < |w.order| ==> w.order[k] in w.jobs
    requires i < |w.order| && CheckJobs(w, limits, w.order[..i]).Ok?
    ensures CheckJobs(w, limits, w.order[..i + 1])
      == CheckJob(w, limits, CheckJobs(w, limits, w.order[..i]).value, w.order[i])
  {
    assert w.order[..i + 1][..i] == w.order[..i];
  }

  method WrongWorkflowRefusals(id: string, reasons: seq<Reason>) returns (refusals: seq<Refusal>)
    ensures refusals == WrongWorkflowFor(id, reasons)
  {
    refusals := [];
    for k := 0 to |reasons|
      invariant refusals == WrongWorkflowFor(id, reasons[..k])
    {
      assert reasons[..k + 1][..k] == reasons[..k];
      refusals := refusals + [WrongWorkflow(id, reasons[k])];
    }
    assert reasons[..|reasons|] == reasons;
  }

  /** One job of the file: skipped, refused as publishing from the wrong workflow, or checked for its gates. */
  method CheckOneJob(w: Workflow, limits: Limits, t: Tally, id: string) returns (result: Result<Tally, Error>)
    requires id in w.jobs && (w.jobs[id].reasons.Ok? ==> |w.jobs[id].reasons.value| <= limits.maxSteps)
    ensures result == CheckJob(w, limits, t, id)
  {
    var job := w.jobs[id];
    if job.reasons.Err? {
      return Err(job.reasons.error);
    }
    var reasons := job.reasons.value;
    if reasons == [] {
      return Ok(t);
    }
    if !w.isRelease {
      var wrong := WrongWorkflowRefusals(id, reasons);
      return Ok(Tally(t.refusals + wrong, t.publishers + 1));
    }
    var more := PublishJobRefusals(id, job, w.jobs, limits, reasons);
    if more.Err? {
      return Err(more.error);
    }
    return Ok(Tally(t.refusals + more.value, t.publishers + 1));
  }

  method CheckWorkflowFile(w: Workflow, limits: Limits) returns (result: Result<seq<Refusal>, Error>)
    requires IsWorkflow(w, limits)
    ensures result == Refusals(w, limits)
  {
    var t := Tally(if w.isRelease then w.triggers else [], 0);
    for i := 0 to |w.order|
      invariant CheckJobs(w, limits, w.order[..i]) == Ok(t)
    {
      OneMoreChecked(w, limits, i);
      var next := CheckOneJob(w, limits, t, w.order[i]);
      if next.Err? {
        ErrorsStay(w, limits, w.order, i + 1);
        return Err(next.error);
      }
      t := next.value;
    }
    assert w.order[..|w.order|] == w.order;
    if w.isRelease && t.publishers == 0 {
      return Ok(t.refusals + [NothingPublishes]);
    }
    return Ok(t.refusals);
  }

  // ----- what acceptance means -----

  predicate Publishes(job: Job) {
    job.reasons.Ok? && job.reasons.value != []
  }

  /** The job is no reason to refuse the workflow. */
  ghost predicate IsCleared(w: Workflow, limits: Limits, id: string)
    requires id in w.jobs
  {
    var job := w.jobs[id];
    && job.reasons.Ok?
    && (Publishes(job) ==>
          (&& w.isRelease
           && Final(w.jobs, limits, job).Ok?
           && MayPublish(job, job.reasons.value, Final(w.jobs, limits, job).value.reached)))
  }

  lemma OneMoreJob(w: Workflow, limits: Limits, t: Tally, id: string)
    requires id in w.jobs
    ensures var t' := CheckJob(w, limits, t, id);
            && (t'.Ok? && t'.value.refusals == [] <==> t.refusals == [] && IsCleared(w, limits, id))
            && (t'.Ok? ==> t'.value.publishers == t.publishers + if Publishes(w.jobs[id]) then 1 else 0)
  {
    var job := w.jobs[id];
    if Publishes(job) {
      if w.isRelease && Final(w.jobs, limits, job).Ok? {
        JobRefusalsIff(id, job, job.reasons.value, Final(w.jobs, limits, job).value.reached);
      }
    }
  }

  lemma {:induction false} JobsAreCleared(w: Workflow, limits: Limits, ids: seq<string>)
    requires forall i :: 0 <= i < |ids| ==> ids[i] in w.jobs
    ensures var all := CheckJobs(w, limits, ids);
            && (all.Ok? && all.value.refusals == [] <==>
                (w.isRelease ==> w.triggers == []) && forall i :: 0 <= i < |ids| ==> IsCleared(w, limits, ids[i]))
            && (all.Ok? ==> (all.value.publishers > 0 <==> exists id :: id in ids && Publishes(w.jobs[id])))
  {
    if ids != [] {
      var init, last := ids[..|ids| - 1], ids[|ids| - 1];
      assert ids == init + [last];
      assert forall i :: 0 <= i < |init| ==> ids[i] == init[i];
      JobsAreCleared(w, limits, init);
      var before := CheckJobs(w, limits, init);
      if before.Ok? {
        OneMoreJob(w, limits, before.value, last);
      }
    }
  }

  /** A workflow is accepted exactly when each job is cleared and, in the release workflow, some job publishes. */
  lemma AcceptedIff(w: Workflow, limits: Limits)
    requires IsWorkflow(w, limits)
    ensures Refusals(w, limits) == Ok([]) <==>
            && (w.isRelease ==> w.triggers == [] && exists id :: id in w.jobs && Publishes(w.jobs[id]))
            && (forall id :: id in w.jobs ==> IsCleared(w, limits, id))
  {
    JobsAreCleared(w, limits, w.order);
    EachJobIsListed(w);
    var all := CheckJobs(w, limits, w.order);
    if Refusals(w, limits) == Ok([]) {
      assert all.Ok? && all.value.refusals == [];
      forall id | id in w.jobs ensures IsCleared(w, limits, id) {
        var i :| 0 <= i < |w.order| && w.order[i] == id;
      }
    }
  }

  lemma EachJobIsListed(w: Workflow)
    requires ToSet(w.order) == w.jobs.Keys
    ensures forall id :: id in w.jobs ==> exists i :: 0 <= i < |w.order| && w.order[i] == id
  {
    forall id | id in w.jobs ensures exists i :: 0 <= i < |w.order| && w.order[i] == id {
      assert id in ToSet(w.order);
    }
  }

  /** In an accepted workflow every publishing job truly needs every gate, and cannot run after one failed. */
  lemma AcceptedMeansGated(w: Workflow, limits: Limits, id: string, gate: string)
    requires IsWorkflow(w, limits)
    requires Refusals(w, limits) == Ok([])
    requires id in w.jobs && Publishes(w.jobs[id])
    requires gate in ["dogfood-gate", "image-smoke", "build", "release-files", "verify"]
    ensures w.isRelease && !w.jobs[id].bypassesGates && TrulyNeeds(w.jobs, id, gate)
  {
    AcceptedIff(w, limits);
    assert IsCleared(w, limits, id);
    ReachedIsNeeded(w.jobs, limits, id);
  }
}
