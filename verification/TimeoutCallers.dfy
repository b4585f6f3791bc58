/**
 * Which tests reach a helper (tools/ci/e2e_timeout_check.py).
 *
 * A worklist runs over the call graph of a spec's top-level segments, for no more turns than there are
 * segments.
 */
module TimeoutCallers {
  import opened Prelude
  import opened Reachability

  /** A top-level construct: a test, a helper with its name, or other code. */
  datatype Segment = Segment(helper: Option<string>, isTest: bool, text: string)

  /** Whether a text calls a name, as the regular expression for a call finds it. */
  type Calls = (string, string) -> bool

  predicate IsHelper(s: Segment) {
    s.helper.Some? && s.helper.value != ""
  }

  /** The helpers whose text calls a name. */
  function HelpersCalling(calls: Calls, segs: seq<Segment>, name: string): set<string> {
    if segs == [] then {} else
    var last := segs[|segs| - 1];
    HelpersCalling(calls, segs[..|segs| - 1], name)
      + (if IsHelper(last) && calls(name, last.text) then {last.helper.value} else {})
  }

  function CallGraph(calls: Calls, segs: seq<Segment>): string -> set<string> {
    name => HelpersCalling(calls, segs, name)
  }

  /** The name is the helper's own or that of a helper whose calls lead to it. */
  ghost predicate LeadsTo(calls: Calls, segs: seq<Segment>, helper: string, name: string) {
    Reaches({helper}, CallGraph(calls, segs), name)
  }

  ghost predicate TestReaches(calls: Calls, segs: seq<Segment>, helper: string, test: Segment) {
    test.isTest && exists name :: LeadsTo(calls, segs, helper, name) && calls(name, test.text)
  }

  /** The tests among some segments that reach the helper, in order. */
  ghost function ReachingTests(calls: Calls, segs: seq<Segment>, helper: string, among: seq<Segment>): seq<Segment> {
    if among == [] then [] else
    var last := among[|among| - 1];
    ReachingTests(calls, segs, helper, among[..|among| - 1])
      + (if TestReaches(calls, segs, helper, last) then [last] else [])
  }

  function HelperNames(segs: seq<Segment>): set<string> {
    if segs == [] then {} else
    var last := segs[|segs| - 1];
    HelperNames(segs[..|segs| - 1]) + (if IsHelper(last) then {last.helper.value} else {})
  }

  lemma {:induction false} NamesAreFew(calls: Calls, segs: seq<Segment>, name: string)
    ensures |HelperNames(segs)| <= |segs|
    ensures HelpersCalling(calls, segs, name) <= HelperNames(segs)
  {
    if segs != [] {
      NamesAreFew(calls, segs[..|segs| - 1], name);
    }
  }

  // ----- the worklist -----

  /** What a turn keeps: the names done are the turns taken, and each name enters the stack once. */
  ghost predicate Sound(calls: Calls, segs: seq<Segment>, helper: string, done: set<string>, reached: set<string>,
                        frontier: seq<string>) {
    && Frontier({helper}, CallGraph(calls, segs), done, ToSet(frontier))
    && reached == done + ToSet(frontier)
    && done !! ToSet(frontier)
    && Distinct(frontier)
    && reached <= HelperNames(segs) + {helper}
  }

  lemma StartIsSound(calls: Calls, segs: seq<Segment>, helper: string)
    ensures Sound(calls, segs, helper, {}, {helper}, [helper])
  {
    assert ToSet([helper]) == {helper};
    FrontierStart({helper}, CallGraph(calls, segs));
  }

  lemma TurnIsSound(calls: Calls, segs: seq<Segment>, helper: string, done: set<string>, reached: set<string>,
                    frontier: seq<string>,
                    name: string, reached': set<string>, added: seq<string>, frontier': seq<string>)
    requires Sound(calls, segs, helper, done, reached, frontier)
    requires frontier != [] && name == frontier[|frontier| - 1]
    requires ToSet(added) == HelpersCalling(calls, segs, name) - reached && Distinct(added)
    requires reached' == reached + HelpersCalling(calls, segs, name)
    requires frontier' == frontier[..|frontier| - 1] + added
    ensures Sound(calls, segs, helper, done + {name}, reached', frontier') && name !in done
  {
    var graph := CallGraph(calls, segs);
    var rest := frontier[..|frontier| - 1];
    assert frontier == rest + [name];
    ToSetAppend(rest, name);
    ToSetConcat(rest, added);
    LastIsNotBefore(rest, name);
    DistinctConcat(rest, added);
    assert graph(name) == HelpersCalling(calls, segs, name);
    NamesAreFew(calls, segs, name);
    FrontierStep({helper}, graph, done, ToSet(frontier), name, ToSet(frontier'));
  }

  lemma LastIsNotBefore<T>(s: seq<T>, x: T)
    requires Distinct(s + [x])
    ensures Distinct(s) && x !in ToSet(s)
  {
    assert (s + [x])[|s|] == x && forall i :: 0 <= i < |s| ==> (s + [x])[i] == s[i];
  }

  lemma DistinctConcat<T>(a: seq<T>, b: seq<T>)
    requires Distinct(a) && Distinct(b) && ToSet(a) !! ToSet(b)
    ensures Distinct(a + b)
  {
    forall i, j | 0 <= i < j < |a + b| ensures (a + b)[i] != (a + b)[j] {
      if i < |a| <= j {
        assert (a + b)[i] in ToSet(a) && (a + b)[j] in ToSet(b);
      }
    }
  }

  /** Once the turns are used up, or no name is left, exactly the names that lead to the helper are reached. */
  lemma EnoughTurns(calls: Calls, segs: seq<Segment>, helper: string, done: set<string>, reached: set<string>,
                    frontier: seq<string>)
    requires Sound(calls, segs, helper, done, reached, frontier)
    requires frontier == [] || |done| == |segs|
    ensures forall name :: name in reached <==> LeadsTo(calls, segs, helper, name)
  {
    var graph := CallGraph(calls, segs);
    if frontier == [] {
      assert ToSet(frontier) == {};
      FrontierDone({helper}, graph, done);
    } else {
      AllNamesAreReached(calls, segs, helper, done, reached, frontier);
      forall n, m | n in reached && m in graph(n) ensures m in reached {
        NamesAreFew(calls, segs, n);
      }
      forall name | LeadsTo(calls, segs, helper, name) ensures name in reached {
        ClosedHoldsReachable({helper}, graph, reached, name);
      }
    }
  }

  /** A name left after as many turns as segments means that every helper's name was reached. */
  lemma AllNamesAreReached(calls: Calls, segs: seq<Segment>, helper: string, done: set<string>, reached: set<string>,
                           frontier: seq<string>)
    requires Sound(calls, segs, helper, done, reached, frontier)
    requires frontier != [] && |done| == |segs|
    ensures HelperNames(segs) + {helper} == reached
  {
    var all := HelperNames(segs) + {helper};
    NamesAreFew(calls, segs, helper);
    DistinctCardinality(frontier);
    assert |reached| == |done| + |frontier|;
    if reached != all {
      ProperSubsetIsSmaller(reached, all);
    }
  }

  /** One turn: the helpers that call the name and are not reached yet are reached and put on the stack. */
  method Discover(calls: Calls, segs: seq<Segment>, name: string, before: set<string>, rest: seq<string>)
    returns (reached: set<string>, frontier: seq<string>, ghost added: seq<string>)
    ensures reached == before + HelpersCalling(calls, segs, name)
    ensures frontier == rest + added && Distinct(added)
    ensures ToSet(added) == HelpersCalling(calls, segs, name) - before
  {
    reached, frontier, added := before, rest, [];
    for k := 0 to |segs|
      invariant frontier == rest + added && Distinct(added)
      invariant reached == before + HelpersCalling(calls, segs[..k], name)
      invariant ToSet(added) == HelpersCalling(calls, segs[..k], name) - before
    {
      var seg := segs[k];
      assert segs[..k + 1][..k] == segs[..k];
      if seg.helper.Some? && seg.helper.value != "" && seg.helper.value !in reached && calls(name, seg.text) {
        ToSetAppend(added, seg.helper.value);
        assert seg.helper.value !in ToSet(added);
        reached := reached + {seg.helper.value};
        frontier := frontier + [seg.helper.value];
        added := added + [seg.helper.value];
      }
    }
    assert segs[..|segs|] == segs;
  }

  method Callers(calls: Calls, segs: seq<Segment>, helper: string) returns (tests: seq<Segment>)
    ensures tests == ReachingTests(calls, segs, helper, segs)
  {
    var reached, frontier := {helper}, [helper];
    ghost var done: set<string> := {};
    StartIsSound(calls, segs, helper);
    for turn := 0 to |segs|
      invariant Sound(calls, segs, helper, done, reached, frontier)
      invariant |done| == turn
    {
      if frontier == [] {
        break;
      }
      var name := frontier[|frontier| - 1];
      ghost var was, before, added := reached, frontier, [];
      reached, frontier, added := Discover(calls, segs, name, reached, frontier[..|frontier| - 1]);
      TurnIsSound(calls, segs, helper, done, was, before, name, reached, added, frontier);
      done := done + {name};
    }
    EnoughTurns(calls, segs, helper, done, reached, frontier);
    tests := TestsCalling(calls, segs, helper, reached);
  }

  /** The tests that call any of the names. */
  method TestsCalling(calls: Calls, segs: seq<Segment>, ghost helper: string, names: set<string>)
    returns (tests: seq<Segment>)
    requires forall name :: name in names <==> LeadsTo(calls, segs, helper, name)
    ensures tests == ReachingTests(calls, segs, helper, segs)
  {
    tests := [];
    for k := 0 to |segs|
      invariant tests == ReachingTests(calls, segs, helper, segs[..k])
    {
      assert segs[..k + 1][..k] == segs[..k];
      if segs[k].isTest && exists name :: name in names && calls(name, segs[k].text) {
        tests := tests + [segs[k]];
      }
    }
    assert segs[..|segs|] == segs;
  }

  // ----- what the result is -----

  /** A test is listed exactly when it reaches the helper. */
  lemma {:induction false} ListedIff(calls: Calls, segs: seq<Segment>, helper: string, among: seq<Segment>,
                                     test: Segment)
    ensures test in ReachingTests(calls, segs, helper, among) <==>
        test in among && TestReaches(calls, segs, helper, test)
  {
    if among != [] {
      ListedIff(calls, segs, helper, among[..|among| - 1], test);
      assert among == among[..|among| - 1] + [among[|among| - 1]];
    }
  }

  /**
   * A caller of a caller is a caller: a test that calls a helper which is itself listed as leading there reaches it.
   */
  lemma CallersOfCallers(calls: Calls, segs: seq<Segment>, helper: string, through: Segment, test: Segment)
    requires through in segs && IsHelper(through) && test.isTest
    requires exists name :: LeadsTo(calls, segs, helper, name) && calls(name, through.text)
    requires calls(through.helper.value, test.text)
    ensures TestReaches(calls, segs, helper, test)
  {
    var name :| LeadsTo(calls, segs, helper, name) && calls(name, through.text);
    CallingHelperIsKnown(calls, segs, name, through);
    SuccessorsAreReached({helper}, CallGraph(calls, segs), name, through.helper.value);
    assert LeadsTo(calls, segs, helper, through.helper.value);
  }

  lemma {:induction false} CallingHelperIsKnown(calls: Calls, segs: seq<Segment>, name: string, s: Segment)
    requires s in segs && IsHelper(s) && calls(name, s.text)
    ensures s.helper.value in HelpersCalling(calls, segs, name)
  {
    var last := segs[|segs| - 1];
    if s != last {
      assert segs == segs[..|segs| - 1] + [last];
      CallingHelperIsKnown(calls, segs[..|segs| - 1], name, s);
    }
  }
}
