/** Sums over maps and sequences, and the order in which a map happens to be visited. */
module Sums {
  import opened Prelude

  ghost function Sum(m: map<string, nat>): nat {
    if m == map[] then 0 else
    var k :| k in m;
    m[k] + Sum(m - {k})
  }

  lemma {:induction false} SumRemove(m: map<string, nat>, k: string)
    requires k in m
    ensures Sum(m) == m[k] + Sum(m - {k})
    decreases m
  {
    var c :| c in m && Sum(m) == m[c] + Sum(m - {c});
    if c != k {
      SumRemove(m - {c}, k);
      SumRemove(m - {k}, c);
      assert m - {c} - {k} == m - {k} - {c};
    }
  }

  ghost function Total(ns: seq<nat>): nat {
    if ns == [] then 0 else Total(ns[..|ns| - 1]) + ns[|ns| - 1]
  }

  lemma {:induction false} TotalAppend(a: seq<nat>, b: seq<nat>)
    ensures Total(a + b) == Total(a) + Total(b)
  {
    if b == [] {
      assert a + b == a;
    } else {
      assert (a + b)[..|a + b| - 1] == a + b[..|b| - 1];
      TotalAppend(a, b[..|b| - 1]);
    }
  }

  function Get(m: map<string, nat>, k: string): nat {
    if k in m then m[k] else 0
  }

  /** The values of a map along a sequence of names. */
  ghost function Along(m: map<string, nat>, names: seq<string>): seq<nat> {
    seq(|names|, i requires 0 <= i < |names| => Get(m, names[i]))
  }

  /** The sum over a map is the total along any order of its keys. */
  lemma {:induction false} SumInOrder(m: map<string, nat>, names: seq<string>)
    requires Distinct(names) && ToSet(names) == m.Keys
    ensures Sum(m) == Total(Along(m, names))
    decreases |names|
  {
    if names == [] {
      assert m == map[];
    } else {
      var init, last := names[..|names| - 1], names[|names| - 1];
      var rest := m - {last};
      assert names == init + [last];
      ToSetAppend(init, last);
      assert last !in ToSet(init);
      SumRemove(m, last);
      SumInOrder(rest, init);
      AlongLast(m, init, last);
    }
  }

  lemma AlongLast(m: map<string, nat>, init: seq<string>, last: string)
    requires last in m && last !in init
    ensures Total(Along(m, init + [last])) == Total(Along(m - {last}, init)) + m[last]
  {
    var all := Along(m, init + [last]);
    assert all[..|all| - 1] == Along(m - {last}, init);
  }

  ghost predicate IsOrder(keys: set<string>, names: seq<string>) {
    Distinct(names) && ToSet(names) == keys
  }

  /** The names of an object in the order a map iteration happens to give them. */
  method IterationOrder<T>(m: map<string, T>) returns (names: seq<string>)
    ensures IsOrder(m.Keys, names)
  {
    names := [];
    var rest := m.Keys;
    while rest != {}
      invariant Distinct(names) && rest <= m.Keys
      invariant ToSet(names) == m.Keys - rest
      decreases rest
    {
      var k :| k in rest;
      ToSetAppend(names, k);
      assert k !in ToSet(names);
      names := names + [k];
      rest := rest - {k};
    }
  }
}
