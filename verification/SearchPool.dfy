/**
 * The bounded worker pool of a federated search (api/internal/adult/search.go).
 *
 * The searching goroutine and its workers are actors that take one step at a time in any order. A
 * step is one operation on the semaphore, the result channel or the wait group.
 */
module SearchPool {
  import opened Prelude

  const MAX_CONCURRENCY: nat := 4

  /** Where the searching goroutine is. Acquiring and Spawning name the client they are about. */
  datatype Main = Acquiring(client: nat) | Spawning(client: nat) | Waiting | Closing | Draining | Finished

  datatype Worker = Idle | Searching | Sending | Releasing | Ending | Gone

  /** Slots counts the tokens in the semaphore; results are named by their client. */
  datatype State = State(
    main: Main,
    workers: seq<Worker>,
    slots: nat,
    channel: seq<nat>,
    closed: bool,
    waiting: int,
    drained: seq<nat>)

  datatype Actor = Searcher | WorkerOf(client: nat)

  function Initial(n: nat): State
    requires n > 0
  {
    State(Acquiring(0), seq(n, i => Idle), 0, [], false, 0, [])
  }

  // ----- the steps -----

  /** The searching goroutine can take its next step. */
  predicate MainCan(s: State) {
    match s.main
    case Acquiring(_) => s.slots < MAX_CONCURRENCY
    case Spawning(i) => i < |s.workers|
    case Waiting => s.waiting == 0
    case Closing => true
    case Draining => s.channel != [] || s.closed
    case Finished => false
  }

  function MainStep(s: State): State
    requires MainCan(s)
  {
    match s.main
    case Acquiring(i) => s.(slots := s.slots + 1, main := Spawning(i))
    case Spawning(i) =>
      s.(workers := s.workers[i := Searching],
         waiting := s.waiting + 1,
         main := if i + 1 < |s.workers| then Acquiring(i + 1) else Waiting)
    case Waiting => s.(main := Closing)
    case Closing => s.(closed := true, main := Draining)
    case Draining =>
      if s.channel != [] then s.(channel := s.channel[1..], drained := s.drained + [s.channel[0]])
      else s.(main := Finished)
  }

  /** A worker can take its next step: a send needs room in the channel, a release a token to take back. */
  predicate WorkerCan(s: State, i: nat) {
    && i < |s.workers|
    && match s.workers[i]
       case Idle => false
       case Searching => true
       case Sending => |s.channel| < |s.workers|
       case Releasing => s.slots > 0
       case Ending => true
       case Gone => false
  }

  function WorkerStep(s: State, i: nat): State
    requires WorkerCan(s, i)
  {
    match s.workers[i]
    case Searching => s.(workers := s.workers[i := Sending])
    case Sending => s.(workers := s.workers[i := Releasing], channel := s.channel + [i])
    case Releasing => s.(workers := s.workers[i := Ending], slots := s.slots - 1)
    case Ending => s.(workers := s.workers[i := Gone], waiting := s.waiting - 1)
  }

  predicate Can(s: State, a: Actor) {
    match a
    case Searcher => MainCan(s)
    case WorkerOf(i) => WorkerCan(s, i)
  }

  function Step(s: State, a: Actor): State
    requires Can(s, a)
  {
    match a
    case Searcher => MainStep(s)
    case WorkerOf(i) => WorkerStep(s, i)
  }

  // ----- counting workers -----

  function Tally(workers: seq<Worker>, weight: Worker -> nat): nat {
    if workers == [] then 0 else Tally(workers[..|workers| - 1], weight) + weight(workers[|workers| - 1])
  }

  lemma {:induction false} TallyUpdate(workers: seq<Worker>, i: nat, w: Worker, weight: Worker -> nat)
    requires i < |workers|
    ensures Tally(workers[i := w], weight) == Tally(workers, weight) - weight(workers[i]) + weight(w)
  {
    var n := |workers| - 1;
    if i < n {
      assert workers[i := w][..n] == workers[..n][i := w];
      TallyUpdate(workers[..n], i, w, weight);
    } else {
      assert workers[i := w][..n] == workers[..n];
    }
  }

  /** A tally of ones and zeros is positive exactly when some worker counts. */
  lemma {:induction false} TallyPositive(workers: seq<Worker>, weight: Worker -> nat)
    ensures Tally(workers, weight) > 0 <==> exists i :: 0 <= i < |workers| && weight(workers[i]) > 0
  {
    var n := |workers| - 1;
    if n >= 0 {
      TallyPositive(workers[..n], weight);
      if i :| 0 <= i < |workers| && weight(workers[i]) > 0 && i < n {
        assert workers[..n][i] == workers[i];
      }
      if i :| 0 <= i < |workers[..n]| && weight(workers[..n][i]) > 0 {
        assert workers[i] == workers[..n][i];
      }
    }
  }

  lemma {:induction false} TallyOfSame(n: nat, w: Worker, weight: Worker -> nat)
    ensures Tally(seq(n, i => w), weight) == n * weight(w)
  {
    if n > 0 {
      assert seq(n, i => w)[..n - 1] == seq(n - 1, i => w);
      TallyOfSame(n - 1, w, weight);
      assert n * weight(w) == (n - 1) * weight(w) + weight(w);
    }
  }

  /** Workers that hold a slot of the semaphore. */
  function Holding(w: Worker): nat {
    if w.Searching? || w.Sending? || w.Releasing? then 1 else 0
  }

  /** Workers the wait group waits for. */
  function Awaited(w: Worker): nat {
    if w.Idle? || w.Gone? then 0 else 1
  }

  /** The steps a worker has left once it is spawned. */
  function StepsLeft(w: Worker): nat {
    match w
    case Idle => 4
    case Searching => 4
    case Sending => 3
    case Releasing => 2
    case Ending => 1
    case Gone => 0
  }

  predicate HasSent(w: Worker) {
    w.Releasing? || w.Ending? || w.Gone?
  }

  // ----- what every step keeps -----

  /** The clients whose workers were spawned. */
  function Spawned(s: State): nat {
    match s.main
    case Acquiring(i) => i
    case Spawning(i) => i
    case _ => |s.workers|
  }

  ghost predicate Inv(s: State) {
    && CountsAgree(s)
    && ResultsAgree(s)
    && PhaseAgrees(s)
  }

  /** Each token belongs to a worker, or to the searcher about to spawn one; the wait group counts the living. */
  ghost predicate CountsAgree(s: State) {
    && s.slots == Tally(s.workers, Holding) + (if s.main.Spawning? then 1 else 0)
    && s.slots <= MAX_CONCURRENCY
    && s.waiting == Tally(s.workers, Awaited)
  }

  /** Exactly the clients whose workers have sent are in the channel or drained, each once. */
  ghost predicate ResultsAgree(s: State) {
    && Distinct(s.drained + s.channel)
    && forall i :: i in s.drained + s.channel <==> 0 <= i < |s.workers| && HasSent(s.workers[i])
  }

  ghost predicate PhaseAgrees(s: State) {
    && (s.main.Acquiring? || s.main.Spawning? ==> s.main.client < |s.workers|)
    && (forall i :: 0 <= i < |s.workers| ==> (s.workers[i].Idle? <==> Spawned(s) <= i))
    && (s.main.Closing? || s.main.Draining? || s.main.Finished? ==>
          forall i :: 0 <= i < |s.workers| ==> s.workers[i].Gone?)
    && (s.closed <==> s.main.Draining? || s.main.Finished?)
    && (s.drained != [] ==> s.closed)
    && (s.main.Finished? ==> s.channel == [])
  }

  lemma InitialKeeps(n: nat)
    requires n > 0
    ensures Inv(Initial(n))
  {
    TallyOfSame(n, Idle, Holding);
    TallyOfSame(n, Idle, Awaited);
  }

  lemma MainKeeps(s: State)
    requires Inv(s) && MainCan(s)
    ensures Inv(MainStep(s))
  {
    match s.main
    case Spawning(i) => SpawnKeeps(s, i);
    case Waiting => NobodyIsLeft(s);
    case Draining =>
      assert s.channel != [] ==> MainStep(s).drained + MainStep(s).channel == s.drained + s.channel;
    case Acquiring(_) =>
    case Closing =>
  }

  lemma SpawnKeeps(s: State, i: nat)
    requires Inv(s) && s.main == Spawning(i)
    ensures Inv(MainStep(s))
  {
    TallyUpdate(s.workers, i, Searching, Holding);
    TallyUpdate(s.workers, i, Searching, Awaited);
  }

  /** A wait group at zero means that every worker has gone. */
  lemma NobodyIsLeft(s: State)
    requires Inv(s) && s.main.Waiting? && s.waiting == 0
    ensures forall i :: 0 <= i < |s.workers| ==> s.workers[i].Gone?
  {
    TallyPositive(s.workers, Awaited);
    forall i | 0 <= i < |s.workers| ensures s.workers[i].Gone? {
      assert Awaited(s.workers[i]) == 0;
    }
  }

  lemma WorkerKeeps(s: State, i: nat)
    requires Inv(s) && WorkerCan(s, i)
    ensures Inv(WorkerStep(s, i))
  {
    var s' := WorkerStep(s, i);
    TallyUpdate(s.workers, i, s'.workers[i], Holding);
    TallyUpdate(s.workers, i, s'.workers[i], Awaited);
    ResultsStayTrue(s, i);
  }

  lemma ResultsStayTrue(s: State, i: nat)
    requires ResultsAgree(s) && WorkerCan(s, i)
    ensures ResultsAgree(WorkerStep(s, i))
  {
    var s' := WorkerStep(s, i);
    var results := s.drained + s.channel;
    if s.workers[i].Sending? {
      assert i !in results;
      assert s'.drained + s'.channel == results + [i];
      assert forall j :: j in results + [i] <==> j in results || j == i;
    } else {
      assert s'.drained + s'.channel == results;
      assert HasSent(s.workers[i]) == HasSent(s'.workers[i]);
    }
  }

  lemma StepKeeps(s: State, a: Actor)
    requires Inv(s) && Can(s, a)
    ensures Inv(Step(s, a))
  {
    match a
    case Searcher => MainKeeps(s);
    case WorkerOf(i) => WorkerKeeps(s, i);
  }

  // ----- what it means -----

  /** A worker that is ready to send finds room, and the channel still open. */
  lemma SendNeverBlocks(s: State, i: nat)
    requires Inv(s) && i < |s.workers| && s.workers[i].Sending?
    ensures WorkerCan(s, i) && !s.closed
  {
    var results := s.drained + s.channel;
    var all := Clients(|s.workers|);
    DistinctCardinality(results);
    assert i in all && i !in ToSet(results);
    ProperSubsetIsSmaller(ToSet(results), all);
    assert |s.channel| <= |results|;
  }

  ghost function Clients(n: nat): (all: set<nat>)
    ensures |all| == n
    ensures forall j: nat :: j in all <==> j < n
  {
    if n == 0 then {} else Clients(n - 1) + {n - 1}
  }

  /** A worker that gives its slot back never waits for a token. */
  lemma ReleaseNeverBlocks(s: State, i: nat)
    requires Inv(s) && i < |s.workers| && s.workers[i].Releasing?
    ensures WorkerCan(s, i)
  {
    assert Holding(s.workers[i]) > 0;
    TallyPositive(s.workers, Holding);
  }

  /** No state is stuck before the search is finished, and at the end no worker is left behind. */
  lemma SomeoneCanStep(s: State)
    requires Inv(s)
    ensures (exists a :: Can(s, a)) <==> !s.main.Finished?
    ensures s.main.Finished? ==> forall i :: 0 <= i < |s.workers| ==> s.workers[i].Gone?
  {
    if s.main.Finished? {
      forall a ensures !Can(s, a) {
      }
    } else if MainCan(s) {
      assert Can(s, Searcher);
    } else {
      var i := BlockingWorker(s);
      if s.workers[i].Sending? {
        SendNeverBlocks(s, i);
      } else if s.workers[i].Releasing? {
        ReleaseNeverBlocks(s, i);
      }
      assert Can(s, WorkerOf(i));
    }
  }

  /** When the searcher has to wait, it waits for a living worker. */
  lemma BlockingWorker(s: State) returns (i: nat)
    requires Inv(s) && !MainCan(s) && !s.main.Finished?
    ensures i < |s.workers| && !s.workers[i].Idle? && !s.workers[i].Gone?
  {
    if s.main.Acquiring? {
      TallyPositive(s.workers, Holding);
      i :| 0 <= i < |s.workers| && Holding(s.workers[i]) > 0;
    } else {
      assert s.main.Waiting?;
      TallyPositive(s.workers, Awaited);
      i :| 0 <= i < |s.workers| && Awaited(s.workers[i]) > 0;
    }
  }

  // ----- every schedule -----

  /** The steps that are left before the search is finished. */
  function Remaining(s: State): int {
    Tally(s.workers, StepsLeft) + MainLeft(s)
  }

  function MainLeft(s: State): int {
    var n := |s.workers|;
    match s.main
    case Acquiring(i) => 2 * (n - i) + n + 3
    case Spawning(i) => 2 * (n - i) - 1 + n + 3
    case Waiting => n + 3
    case Closing => n + 2
    case Draining => n - |s.drained| + 1
    case Finished => 0
  }

  /** A drained channel has given one result for each client. */
  lemma AllAreDrained(s: State)
    requires Inv(s) && s.closed && s.channel == []
    ensures Distinct(s.drained) && ToSet(s.drained) == Clients(|s.workers|)
    ensures |s.drained| == |s.workers|
  {
    assert s.drained + s.channel == s.drained;
    DistinctCardinality(s.drained);
    forall j: nat | j < |s.workers| ensures j in s.drained {
      assert s.workers[j].Gone?;
    }
    assert ToSet(s.drained) == Clients(|s.workers|);
  }

  /** Every step takes one off what remains, whoever takes it. */
  lemma StepUsesOne(s: State, a: Actor)
    requires Inv(s) && Can(s, a)
    ensures Remaining(Step(s, a)) == Remaining(s) - 1
  {
    match a
    case Searcher => MainUsesOne(s);
    case WorkerOf(i) => TallyUpdate(s.workers, i, WorkerStep(s, i).workers[i], StepsLeft);
  }

  lemma MainUsesOne(s: State)
    requires Inv(s) && MainCan(s)
    ensures Remaining(MainStep(s)) == Remaining(s) - 1
  {
    if s.main.Spawning? {
      SpawnUsesOne(s);
    } else if s.main.Draining? && s.channel == [] {
      AllAreDrained(s);
    }
  }

  lemma SpawnUsesOne(s: State)
    requires Inv(s) && s.main.Spawning?
    ensures Remaining(MainStep(s)) == Remaining(s) - 1
  {
    TallyUpdate(s.workers, s.main.client, Searching, StepsLeft);
    assert s.workers[s.main.client].Idle?;
  }

  /** A schedule: the states met, and who took each step between them. */
  ghost predicate IsRun(n: nat, states: seq<State>, actors: seq<Actor>)
    requires n > 0
  {
    && |states| == |actors| + 1
    && states[0] == Initial(n)
    && forall k :: 0 <= k < |actors| ==> Leads(states[k], actors[k], states[k + 1])
  }

  predicate Leads(s: State, a: Actor, s': State) {
    Can(s, a) && s' == Step(s, a)
  }

  lemma {:induction false} RunKeeps(n: nat, states: seq<State>, actors: seq<Actor>, k: nat)
    requires n > 0 && IsRun(n, states, actors) && k < |states|
    ensures Inv(states[k]) && |states[k].workers| == n
    ensures Remaining(states[k]) + k == 7 * n + 3
  {
    if k == 0 {
      InitialKeeps(n);
      TallyOfSame(n, Idle, StepsLeft);
    } else {
      RunKeeps(n, states, actors, k - 1);
      assert Leads(states[k - 1], actors[k - 1], states[k - 1 + 1]);
      StepKeeps(states[k - 1], actors[k - 1]);
      StepUsesOne(states[k - 1], actors[k - 1]);
    }
  }

  /** The workers whose search is under way. */
  function UnderWay(w: Worker): nat {
    if w.Searching? then 1 else 0
  }

  /**
   * In every state of every schedule: at most four searches run, no send blocks or meets a closed
   * channel, no release blocks, and the channel is closed only when every worker has gone.
   */
  lemma EveryScheduleIsSafe(n: nat, states: seq<State>, actors: seq<Actor>, k: nat)
    requires n > 0 && IsRun(n, states, actors) && k < |states|
    ensures |Searchers(states[k].workers)| <= 4
    ensures forall i: nat :: i < |states[k].workers| ==>
        (states[k].workers[i].Sending? || states[k].workers[i].Releasing? ==> WorkerCan(states[k], i))
    ensures states[k].closed ==> forall i: nat :: i < |states[k].workers| ==> states[k].workers[i].Gone?
    ensures states[k].waiting >= 0
  {
    var s := states[k];
    RunKeeps(n, states, actors, k);
    TallyIsMonotone(s.workers, UnderWay, Holding);
    SearchersAreTallied(s.workers);
    forall i: nat | i < n && (s.workers[i].Sending? || s.workers[i].Releasing?) ensures WorkerCan(s, i) {
      if s.workers[i].Sending? {
        SendNeverBlocks(s, i);
      } else {
        ReleaseNeverBlocks(s, i);
      }
    }
  }

  /** The workers whose search is under way. */
  ghost function Searchers(workers: seq<Worker>): set<int> {
    set i | 0 <= i < |workers| && workers[i].Searching?
  }

  lemma {:induction false} SearchersAreTallied(workers: seq<Worker>)
    ensures |Searchers(workers)| <= Tally(workers, UnderWay)
  {
    if workers != [] {
      var n := |workers| - 1;
      SearchersAreTallied(workers[..n]);
      assert Searchers(workers) == Searchers(workers[..n]) + (if workers[n].Searching? then {n} else {});
    }
  }

  lemma {:induction false} TallyIsMonotone(workers: seq<Worker>, f: Worker -> nat, g: Worker -> nat)
    requires forall w :: f(w) <= g(w)
    ensures Tally(workers, f) <= Tally(workers, g)
  {
    if workers != [] {
      TallyIsMonotone(workers[..|workers| - 1], f, g);
    }
  }

  /**
   * Every schedule can go on until it has taken exactly 7n + 3 steps; it is finished then and no
   * sooner, with one result drained for each of the n clients.
   */
  lemma EveryScheduleFinishes(n: nat, states: seq<State>, actors: seq<Actor>)
    requires n > 0 && IsRun(n, states, actors)
    ensures |actors| <= 7 * n + 3
    ensures |actors| < 7 * n + 3 <==> exists a :: Can(states[|actors|], a)
    ensures |actors| == 7 * n + 3 <==> states[|actors|].main.Finished?
    ensures |actors| == 7 * n + 3 ==> IsPermutation(n, states[|actors|].drained)
  {
    var s := states[|actors|];
    RunKeeps(n, states, actors, |actors|);
    SomeoneCanStep(s);
    if s.main.Finished? {
      AllAreDrained(s);
      TallyPositive(s.workers, StepsLeft);
    } else {
      DrainedFit(s);
    }
  }

  lemma DrainedFit(s: State)
    requires Inv(s)
    ensures |s.drained| <= |s.workers|
  {
    var results := s.drained + s.channel;
    DistinctCardinality(results);
    SubsetIsNotLarger(ToSet(results), Clients(|s.workers|));
  }

  // ----- what the drained results add up to -----

  ghost predicate IsPermutation(n: nat, order: seq<nat>) {
    Distinct(order) && ToSet(order) == Clients(n)
  }

  datatype Hits<+P, +S> = Hits(performers: seq<P>, studios: seq<S>, failed: bool)

  /** One instance's answer: it fails as a whole only when both of its searches fail. */
  function SearchInstance<P, S, E>(performers: Result<seq<P>, E>, studios: Result<seq<S>, E>): Hits<P, S> {
    if performers.Err? && studios.Err? then Hits([], [], true)
    else Hits(if performers.Ok? then performers.value else [], if studios.Ok? then studios.value else [], false)
  }

  /** The lists of the clients in a given order, end to end. */
  ghost function Gathered<T>(list: nat -> seq<T>, order: seq<nat>): seq<T> {
    if order == [] then [] else Gathered(list, order[..|order| - 1]) + list(order[|order| - 1])
  }

  function Found<T, E>(r: Result<seq<T>, E>): seq<T> {
    if r.Ok? then r.value else []
  }

  /** Receiving until the channel is empty and closed. */
  method Drain<P, S, E>(ghost order: seq<nat>, performersOf: nat -> Result<seq<P>, E>,
                        studiosOf: nat -> Result<seq<S>, E>, channel: seq<Hits<P, S>>)
    returns (performers: seq<P>, studios: seq<S>)
    requires |channel| == |order|
    requires forall k :: 0 <= k < |order| ==> channel[k] == SearchInstance(performersOf(order[k]), studiosOf(order[k]))
    ensures performers == Gathered(i => Found(performersOf(i)), order)
    ensures studios == Gathered(i => Found(studiosOf(i)), order)
  {
    performers, studios := [], [];
    ghost var p := i => Found(performersOf(i));
    ghost var s := i => Found(studiosOf(i));
    for k := 0 to |channel|
      invariant performers == Gathered(p, order[..k])
      invariant studios == Gathered(s, order[..k])
    {
      assert order[..k + 1][..k] == order[..k];
      var res := channel[k];
      if res.failed {
        assert p(order[k]) == [] && s(order[k]) == [];
        continue;
      }
      performers := performers + res.performers;
      studios := studios + res.studios;
    }
    assert order[..|channel|] == order;
  }

  lemma {:induction false} GatheredConcat<T>(list: nat -> seq<T>, a: seq<nat>, b: seq<nat>)
    ensures Gathered(list, a + b) == Gathered(list, a) + Gathered(list, b)
  {
    if b == [] {
      assert a + b == a;
    } else {
      assert (a + b)[..|a + b| - 1] == a + b[..|b| - 1];
      GatheredConcat(list, a, b[..|b| - 1]);
    }
  }

  function UpTo(n: nat): seq<nat> {
    seq(n, i => i)
  }

  /** Whatever order the results came in, the same hits are gathered, each as often. */
  lemma {:induction false} OrderOnlyShuffles<T>(list: nat -> seq<T>, n: nat, order: seq<nat>)
    requires IsPermutation(n, order)
    ensures multiset(Gathered(list, order)) == multiset(Gathered(list, UpTo(n)))
  {
    if n == 0 {
      DistinctCardinality(order);
      assert order == UpTo(n);
    } else {
      var a, b := SplitAtLast(n, order);
      OrderOnlyShuffles(list, n - 1, a + b);
      NextIsShuffled(list, n - 1, a, b);
    }
  }

  lemma NextIsShuffled<T>(list: nat -> seq<T>, n: nat, a: seq<nat>, b: seq<nat>)
    requires multiset(Gathered(list, a + b)) == multiset(Gathered(list, UpTo(n)))
    ensures multiset(Gathered(list, a + [n] + b)) == multiset(Gathered(list, UpTo(n + 1)))
  {
    LastIsShuffled(list, a, n, b);
    assert UpTo(n + 1)[..n] == UpTo(n);
    assert Gathered(list, UpTo(n + 1)) == Gathered(list, UpTo(n)) + list(n);
  }

  lemma LastIsShuffled<T>(list: nat -> seq<T>, a: seq<nat>, x: nat, b: seq<nat>)
    ensures multiset(Gathered(list, a + [x] + b)) == multiset(Gathered(list, a + b)) + multiset(list(x))
  {
    assert (a + [x])[..|a|] == a;
    GatheredConcat(list, a + [x], b);
    GatheredConcat(list, a, b);
  }

  /** A permutation of n clients is one of n - 1 with the last client put in somewhere. */
  lemma SplitAtLast(n: nat, order: seq<nat>) returns (a: seq<nat>, b: seq<nat>)
    requires n > 0 && IsPermutation(n, order)
    ensures order == a + [n - 1] + b && IsPermutation(n - 1, a + b)
  {
    assert n - 1 in ToSet(order);
    var k :| 0 <= k < |order| && order[k] == n - 1;
    a, b := order[..k], order[k + 1..];
    SplitAround(order, k);
    PermutationWithout(n, a, b);
  }

  lemma SplitAround<T>(s: seq<T>, k: nat)
    requires k < |s|
    ensures s == s[..k] + [s[k]] + s[k + 1..]
  {
  }

  lemma PermutationWithout(n: nat, a: seq<nat>, b: seq<nat>)
    requires n > 0 && IsPermutation(n, a + [n - 1] + b)
    ensures IsPermutation(n - 1, a + b)
  {
    WithoutStaysDistinct(a, n - 1, b);
    SetWithout(a, n - 1, b);
    assert Clients(n) - {n - 1} == Clients(n - 1);
  }

  lemma SetWithout<T>(a: seq<T>, x: T, b: seq<T>)
    requires x !in a && x !in b
    ensures ToSet(a + b) == ToSet(a + [x] + b) - {x}
  {
    ToSetConcat(a + [x], b);
    ToSetAppend(a, x);
    ToSetConcat(a, b);
  }

  lemma WithoutStaysDistinct<T>(a: seq<T>, x: T, b: seq<T>)
    requires Distinct(a + [x] + b)
    ensures Distinct(a + b) && x !in a && x !in b
  {
    var s, t := a + [x] + b, a + b;
    assert forall i :: 0 <= i < |a| ==> t[i] == s[i] && s[i] == a[i];
    assert forall i :: |a| <= i < |t| ==> t[i] == s[i + 1];
    assert s[|a|] == x;
    assert forall i :: 0 <= i < |b| ==> b[i] == s[|a| + 1 + i];
  }
}
