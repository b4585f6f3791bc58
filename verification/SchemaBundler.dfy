/**
 The MCP schema bundler: it clones a request schema, clones every component the clone
 refers to, directly or not, and rewrites the references of the clones in place to
 "#/$defs/...". Go maps and slices are references, so the model has a store of cells and
 values that point into it; aliasing and in-place update are part of the model.
 */
module SchemaBundler {
  import opened Prelude
  import opened Sums
  import opened Reachability

  /** A leaf of a document. Unencodable stands for a value the JSON encoder refuses. */
  datatype Leaf = Text(text: string) | Atom(id: int) | Unencodable(id: int)

  datatype Json = Scalar(leaf: Leaf) | Array(elems: seq<Json>) | Object(fields: map<string, Json>)

  datatype Value = Plain(leaf: Leaf) | Ref(addr: nat)

  datatype Cell = MapCell(entries: map<string, Value>) | ListCell(elems: seq<Value>)

  type Store = seq<Cell>

  const REF_KEY := "$ref"
  const SCHEMA_PREFIX := "#/components/schemas/"
  const DEFS_PREFIX := "#/$defs/"

  // ----- the store -----

  predicate In(v: Value, n: nat) {
    v.Ref? ==> v.addr < n
  }

  ghost predicate CellBelow(cell: Cell, n: nat) {
    && (cell.MapCell? ==> forall k :: k in cell.entries ==> In(cell.entries[k], n))
    && (cell.ListCell? ==> forall i :: 0 <= i < |cell.elems| ==> In(cell.elems[i], n))
  }

  /** A cell only points at older cells: documents are finite, though they may share parts. */
  ghost predicate WellFormed(store: Store) {
    forall a :: 0 <= a < |store| ==> CellBelow(store[a], a)
  }

  ghost predicate Live(store: Store, v: Value) {
    WellFormed(store) && In(v, |store|)
  }

  function Rank(v: Value): nat {
    if v.Ref? then v.addr + 1 else 0
  }

  /** The document a value stands for: what json.Marshal sees. */
  function Unfold(store: Store, v: Value): Json
    requires Live(store, v)
    decreases Rank(v)
  {
    match v
    case Plain(leaf) => Scalar(leaf)
    case Ref(a) =>
      assert CellBelow(store[a], a);
      match store[a]
      case MapCell(entries) => Object(map k | k in entries :: Unfold(store, entries[k]))
      case ListCell(elems) => Array(seq(|elems|, i requires 0 <= i < |elems| => Unfold(store, elems[i])))
  }

  /** All cells a value is made of. */
  ghost function Cells(store: Store, v: Value): set<nat>
    requires Live(store, v)
    decreases Rank(v)
  {
    match v
    case Plain(_) => {}
    case Ref(a) =>
      assert CellBelow(store[a], a);
      match store[a]
      case MapCell(entries) => {a} + set k, x | k in entries && x in Cells(store, entries[k]) :: x
      case ListCell(elems) => {a} + set i, x | 0 <= i < |elems| && x in Cells(store, elems[i]) :: x
  }

  /** The cells a traversal visits: it never descends below a $ref. */
  ghost function Visited(store: Store, v: Value): set<nat>
    requires Live(store, v)
    decreases Rank(v)
  {
    match v
    case Plain(_) => {}
    case Ref(a) =>
      assert CellBelow(store[a], a);
      match store[a]
      case MapCell(entries) => {a} + set k, x | k in entries && k != REF_KEY && x in Visited(store, entries[k]) :: x
      case ListCell(elems) => {a} + set i, x | 0 <= i < |elems| && x in Visited(store, elems[i]) :: x
  }

  // ----- references -----

  function RewriteRef(ref: string): string {
    if SCHEMA_PREFIX <= ref then DEFS_PREFIX + ref[|SCHEMA_PREFIX|..] else ref
  }

  /** A reference into the components becomes the one of the same name into the definitions; any other stays. */
  ghost predicate IsRewritten(r: string, ref: string) {
    if "#/components/schemas/" <= r then exists n :: r == "#/components/schemas/" + n && ref == "#/$defs/" + n
    else ref == r
  }

  lemma RewriteRefIsRewritten(r: string)
    ensures IsRewritten(r, RewriteRef(r))
  {
    if SCHEMA_PREFIX <= r {
      var n := r[|SCHEMA_PREFIX|..];
      assert r == "#/components/schemas/" + n && RewriteRef(r) == "#/$defs/" + n;
    }
  }

  lemma RewriteRefOnce(ref: string)
    ensures !(SCHEMA_PREFIX <= RewriteRef(ref))
    ensures RewriteRef(RewriteRef(ref)) == RewriteRef(ref)
  {
    if SCHEMA_PREFIX <= ref {
      assert RewriteRef(ref)[2] == '$' && SCHEMA_PREFIX[2] == 'c';
    }
  }

  /** The reference strings a traversal of a document meets. */
  ghost function RefsIn(j: Json): set<string> {
    match j
    case Scalar(_) => {}
    case Array(elems) => set i, r | 0 <= i < |elems| && r in RefsIn(elems[i]) :: r
    case Object(fields) =>
      (if REF_KEY in fields && fields[REF_KEY].Scalar? && fields[REF_KEY].leaf.Text?
       then {fields[REF_KEY].leaf.text} else {})
      + set k, r | k in fields && k != REF_KEY && r in RefsIn(fields[k]) :: r
  }

  ghost function Names(refs: set<string>): set<string> {
    set r | r in refs && SCHEMA_PREFIX <= r :: r[|SCHEMA_PREFIX|..]
  }

  /** The document with every reference string a traversal meets rewritten, and nothing else. */
  function Rewritten(j: Json): Json
    decreases j, 0
  {
    match j
    case Scalar(_) => j
    case Array(elems) => Array(seq(|elems|, i requires 0 <= i < |elems| => Rewritten(elems[i])))
    case Object(fields) => Object(map k | k in fields :: RewrittenField(k, fields[k]))
  }

  function RewrittenField(k: string, j: Json): Json
    decreases j, 1
  {
    if k != REF_KEY then Rewritten(j)
    else if j.Scalar? && j.leaf.Text? then Scalar(Text(RewriteRef(j.leaf.text)))
    else j
  }

  // ----- the same, said by paths through a document -----

  datatype Step = Key(name: string) | Index(at: nat)

  /** What a path of keys and indices leads to. */
  function At(j: Json, path: seq<Step>): Option<Json>
    decreases |path|
  {
    if path == [] then Some(j)
    else
      match path[0]
      case Key(k) => if j.Object? && k in j.fields then At(j.fields[k], path[1..]) else None
      case Index(i) => if j.Array? && i < |j.elems| then At(j.elems[i], path[1..]) else None
  }

  /** The references of a document are the texts under a $ref that no other $ref is above. */
  lemma {:induction false} RefsAreAt(j: Json, r: string)
    ensures r in RefsIn(j) <==>
        exists path :: Key("$ref") !in path && At(j, path + [Key("$ref")]) == Some(Scalar(Text(r)))
    decreases j
  {
    if r in RefsIn(j) {
      var path := PathOfRef(j, r);
      assert Key("$ref") !in path && At(j, path + [Key("$ref")]) == Some(Scalar(Text(r)));
    }
    if path :| Key("$ref") !in path && At(j, path + [Key("$ref")]) == Some(Scalar(Text(r))) {
      RefIsMet(j, path, r);
    }
  }

  lemma {:induction false} PathOfRef(j: Json, r: string) returns (path: seq<Step>)
    requires r in RefsIn(j)
    ensures Key("$ref") !in path && At(j, path + [Key("$ref")]) == Some(Scalar(Text(r)))
    decreases j
  {
    if j.Array? {
      var i :| 0 <= i < |j.elems| && r in RefsIn(j.elems[i]);
      var rest := PathOfRef(j.elems[i], r);
      path := [Index(i)] + rest;
      assert (path + [Key("$ref")])[1..] == rest + [Key("$ref")];
    } else if REF_KEY in j.fields && j.fields[REF_KEY] == Scalar(Text(r)) {
      path := [];
      assert [Key("$ref")][1..] == [];
    } else {
      var k :| k in j.fields && k != REF_KEY && r in RefsIn(j.fields[k]);
      var rest := PathOfRef(j.fields[k], r);
      path := [Key(k)] + rest;
      assert (path + [Key("$ref")])[1..] == rest + [Key("$ref")];
    }
  }

  lemma {:induction false} RefIsMet(j: Json, path: seq<Step>, r: string)
    requires Key("$ref") !in path && At(j, path + [Key("$ref")]) == Some(Scalar(Text(r)))
    ensures r in RefsIn(j)
    decreases |path|
  {
    if path == [] {
      assert [Key("$ref")][1..] == [];
    } else {
      assert (path + [Key("$ref")])[1..] == path[1..] + [Key("$ref")];
      assert path[0] in path;
      match path[0]
      case Key(k) => RefIsMet(j.fields[k], path[1..], r);
      case Index(i) => RefIsMet(j.elems[i], path[1..], r);
    }
  }

  /** The same leaf, a list of the same length, or an object with the same keys. */
  ghost predicate SameKind(a: Json, b: Json) {
    match a
    case Scalar(_) => a == b
    case Array(elems) => b.Array? && |b.elems| == |elems|
    case Object(fields) => b.Object? && b.fields.Keys == fields.Keys
  }

  /** Rewriting keeps every path above a $ref, and the kind of what is there. */
  lemma {:induction false} RewritingKeepsPaths(j: Json, path: seq<Step>)
    requires Key("$ref") !in path
    ensures At(j, path).None? ==> At(Rewritten(j), path).None?
    ensures At(j, path).Some? ==>
        && At(Rewritten(j), path) == Some(Rewritten(At(j, path).value))
        && SameKind(At(j, path).value, Rewritten(At(j, path).value))
    decreases |path|
  {
    if path != [] {
      assert path[0] in path;
      match path[0]
      case Key(k) =>
        if j.Object? && k in j.fields {
          RewritingKeepsPaths(j.fields[k], path[1..]);
        }
      case Index(i) =>
        if j.Array? && i < |j.elems| {
          RewritingKeepsPaths(j.elems[i], path[1..]);
        }
    }
  }

  /** Under a $ref, rewriting changes a text that refers to a component, and nothing else. */
  lemma RewritingChangesRefs(j: Json, path: seq<Step>, below: seq<Step>)
    requires Key("$ref") !in path
    ensures var was := At(j, path + ([Key("$ref")] + below));
            var now := At(Rewritten(j), path + ([Key("$ref")] + below));
            if below == [] && was.Some? && was.value.Scalar? && was.value.leaf.Text?
            then now.Some? && now.value.Scalar? && now.value.leaf.Text?
                 && IsRewritten(was.value.leaf.text, now.value.leaf.text)
            else now == was
    decreases |path|
  {
    var rest := [Key("$ref")] + below;
    if path == [] {
      assert path + rest == rest && rest[1..] == below;
      if j.Object? && REF_KEY in j.fields && j.fields[REF_KEY].Scalar? && j.fields[REF_KEY].leaf.Text? {
        RewriteRefIsRewritten(j.fields[REF_KEY].leaf.text);
      }
    } else {
      assert path[0] in path && (path + rest)[0] == path[0] && (path + rest)[1..] == path[1..] + rest;
      match path[0]
      case Key(k) =>
        if j.Object? && k in j.fields {
          RewritingChangesRefs(j.fields[k], path[1..], below);
        }
      case Index(i) =>
        if j.Array? && i < |j.elems| {
          RewritingChangesRefs(j.elems[i], path[1..], below);
        }
    }
  }

  function OwnRef(cell: Cell): Option<string> {
    if cell.MapCell? && REF_KEY in cell.entries && cell.entries[REF_KEY].Plain? && cell.entries[REF_KEY].leaf.Text?
    then Some(cell.entries[REF_KEY].leaf.text)
    else None
  }

  function RewriteCell(cell: Cell): Cell {
    match OwnRef(cell)
    case None => cell
    case Some(ref) => MapCell(cell.entries[REF_KEY := Plain(Text(RewriteRef(ref)))])
  }

  function RewriteAll(store: Store, at: set<nat>): Store {
    seq(|store|, a requires 0 <= a < |store| => if a in at then RewriteCell(store[a]) else store[a])
  }

  lemma RewriteCellOnce(cell: Cell)
    ensures RewriteCell(RewriteCell(cell)) == RewriteCell(cell)
  {
    if OwnRef(cell).Some? {
      RewriteRefOnce(OwnRef(cell).value);
    }
  }

  lemma RewriteAllTwice(store: Store, a: set<nat>, b: set<nat>)
    ensures RewriteAll(RewriteAll(store, a), b) == RewriteAll(store, a + b)
  {
    forall i | 0 <= i < |store| ensures RewriteCell(RewriteCell(store[i])) == RewriteCell(store[i]) {
      RewriteCellOnce(store[i]);
    }
  }

  lemma RewriteAllIsLive(store: Store, at: set<nat>)
    requires WellFormed(store)
    ensures WellFormed(RewriteAll(store, at))
  {
    forall a | 0 <= a < |store| ensures CellBelow(RewriteAll(store, at)[a], a) {
      assert CellBelow(store[a], a);
    }
  }

  /** Rewriting changes no path: the same cells are visited before and after. */
  lemma {:induction false} RewriteKeepsVisited(store: Store, at: set<nat>, v: Value)
    requires Live(store, v)
    ensures Live(RewriteAll(store, at), v)
    ensures Visited(RewriteAll(store, at), v) == Visited(store, v)
    decreases Rank(v)
  {
    RewriteAllIsLive(store, at);
    if v.Ref? {
      var a := v.addr;
      var store' := RewriteAll(store, at);
      assert CellBelow(store[a], a) && CellBelow(store'[a], a);
      match store[a]
      case MapCell(entries) =>
        forall k | k in entries && k != REF_KEY
          ensures store'[a].entries[k] == entries[k] && Visited(store', entries[k]) == Visited(store, entries[k])
        {
          RewriteKeepsVisited(store, at, entries[k]);
        }
        assert store'[a].entries.Keys == entries.Keys;
      case ListCell(elems) =>
        forall i | 0 <= i < |elems| ensures Visited(store', elems[i]) == Visited(store, elems[i]) {
          RewriteKeepsVisited(store, at, elems[i]);
        }
    }
  }

  // ----- traversal: the common shape of the two worklist loops -----

  /** How many values a traversal of a document visits. */
  ghost function VisitSize(j: Json): (n: nat)
    ensures n >= 1
  {
    match j
    case Scalar(_) => 1
    case Array(elems) => 1 + Total(seq(|elems|, i requires 0 <= i < |elems| => VisitSize(elems[i])))
    case Object(fields) => 1 + Sum(map k | k in fields && k != REF_KEY :: VisitSize(fields[k]))
  }

  ghost predicate AllLive(store: Store, vs: seq<Value>) {
    WellFormed(store) && forall i :: 0 <= i < |vs| ==> In(vs[i], |store|)
  }

  ghost function VisitSizes(store: Store, vs: seq<Value>): seq<nat>
    requires AllLive(store, vs)
  {
    seq(|vs|, i requires 0 <= i < |vs| => VisitSize(Unfold(store, vs[i])))
  }

  /** The keys of a map cell other than $ref, in the order they happen to be visited. */
  ghost predicate VisitOrder(cell: Cell, names: seq<string>) {
    cell.MapCell? ==> IsOrder(cell.entries.Keys - {REF_KEY}, names)
  }

  /** What visiting a cell puts on the worklist. */
  function Kids(cell: Cell, names: seq<string>): seq<Value>
    requires cell.MapCell? ==> forall k :: k in names ==> k in cell.entries
  {
    match cell
    case ListCell(elems) => elems
    case MapCell(entries) => seq(|names|, i requires 0 <= i < |names| => entries[names[i]])
  }

  lemma VisitOrderNames(cell: Cell, names: seq<string>)
    requires VisitOrder(cell, names) && cell.MapCell?
    ensures forall k :: k in names <==> k in cell.entries && k != REF_KEY
  {
    forall k ensures k in names <==> k in ToSet(names) { }
  }

  lemma KidsAreLive(store: Store, a: nat, names: seq<string>)
    requires WellFormed(store) && a < |store| && VisitOrder(store[a], names)
    ensures store[a].MapCell? ==> forall k :: k in names ==> k in store[a].entries
    ensures AllLive(store, Kids(store[a], names))
  {
    assert CellBelow(store[a], a);
    if store[a].MapCell? {
      VisitOrderNames(store[a], names);
    }
  }

  lemma KidsSize(store: Store, a: nat, names: seq<string>)
    requires WellFormed(store) && a < |store| && VisitOrder(store[a], names)
    requires store[a].MapCell? ==> forall k :: k in names ==> k in store[a].entries
    requires AllLive(store, Kids(store[a], names))
    ensures VisitSize(Unfold(store, Ref(a))) == 1 + Total(VisitSizes(store, Kids(store[a], names)))
  {
    if store[a].MapCell? {
      VisitOrderNames(store[a], names);
      MapKidsSize(store, a, names, Unfold(store, Ref(a)).fields);
    } else {
      ElemsVisitSize(Unfold(store, Ref(a)).elems, VisitSizes(store, Kids(store[a], names)));
    }
  }

  lemma MapKidsSize(store: Store, a: nat, names: seq<string>, fields: map<string, Json>)
    requires WellFormed(store) && a < |store| && store[a].MapCell? && CellBelow(store[a], a)
    requires IsOrder(store[a].entries.Keys - {REF_KEY}, names)
    requires forall k :: k in names ==> k in store[a].entries
    requires AllLive(store, Kids(store[a], names))
    requires fields.Keys == store[a].entries.Keys
    requires forall k :: k in fields ==> fields[k] == Unfold(store, store[a].entries[k])
    ensures VisitSize(Object(fields)) == 1 + Total(VisitSizes(store, Kids(store[a], names)))
  {
    var kids := Kids(store[a], names);
    var sizes := VisitSizes(store, kids);
    forall i | 0 <= i < |names| ensures names[i] in fields && sizes[i] == VisitSize(fields[names[i]]) {
      assert names[i] in names && kids[i] == store[a].entries[names[i]];
    }
    FieldsVisitSize(fields, names, sizes);
  }

  lemma ElemsVisitSize(elems: seq<Json>, sizes: seq<nat>)
    requires |sizes| == |elems| && forall i :: 0 <= i < |elems| ==> sizes[i] == VisitSize(elems[i])
    ensures VisitSize(Array(elems)) == 1 + Total(sizes)
  {
    assert sizes == seq(|elems|, i requires 0 <= i < |elems| => VisitSize(elems[i]));
  }

  lemma FieldsVisitSize(fields: map<string, Json>, names: seq<string>, sizes: seq<nat>)
    requires IsOrder(fields.Keys - {REF_KEY}, names)
    requires |sizes| == |names|
    requires forall i :: 0 <= i < |names| ==> names[i] in fields && sizes[i] == VisitSize(fields[names[i]])
    ensures VisitSize(Object(fields)) == 1 + Total(sizes)
  {
    var byName: map<string, nat> := map k | k in fields && k != REF_KEY :: VisitSize(fields[k]);
    forall i | 0 <= i < |names| ensures names[i] in byName {
      assert names[i] in ToSet(names);
    }
    assert sizes == Along(byName, names);
    SumInOrder(byName, names);
    ObjectVisitSize(fields, byName);
  }

  lemma ObjectVisitSize(fields: map<string, Json>, sizes: map<string, nat>)
    requires sizes.Keys == fields.Keys - {REF_KEY}
    requires forall k :: k in sizes ==> sizes[k] == VisitSize(fields[k])
    ensures VisitSize(Object(fields)) == 1 + Sum(sizes)
  {
    assert sizes == map k | k in fields && k != REF_KEY :: VisitSize(fields[k]);
  }

  /** Some value of a worklist leads to this cell. */
  ghost predicate Ahead(store: Store, work: seq<Value>, x: nat)
    requires AllLive(store, work)
  {
    exists i :: 0 <= i < |work| && x in Visited(store, work[i])
  }

  lemma KidsVisited(store: Store, a: nat, names: seq<string>, x: nat)
    requires WellFormed(store) && a < |store| && VisitOrder(store[a], names)
    requires store[a].MapCell? ==> forall k :: k in names ==> k in store[a].entries
    requires AllLive(store, Kids(store[a], names))
    ensures x in Visited(store, Ref(a)) <==> x == a || Ahead(store, Kids(store[a], names), x)
  {
    var kids := Kids(store[a], names);
    assert CellBelow(store[a], a);
    if store[a].MapCell? {
      var entries := store[a].entries;
      VisitOrderNames(store[a], names);
      if k :| k in entries && k != REF_KEY && x in Visited(store, entries[k]) {
        var i :| 0 <= i < |names| && names[i] == k;
        assert x in Visited(store, kids[i]);
      }
      if Ahead(store, kids, x) {
        var i :| 0 <= i < |kids| && x in Visited(store, kids[i]);
        assert kids[i] == entries[names[i]];
        assert names[i] in names;
      }
    }
  }

  /** Worklist accounting of one visit: the last value leaves, its kids arrive. */
  ghost predicate WorkStep(store: Store, rest: seq<Value>, v: Value, kids: seq<Value>)
    requires AllLive(store, rest) && Live(store, v) && AllLive(store, kids)
  {
    && Total(VisitSizes(store, rest + kids)) < Total(VisitSizes(store, rest + [v]))
    && forall x :: Ahead(store, rest + [v], x) <==> Ahead(store, rest + kids, x) || (v.Ref? && x == v.addr)
  }

  lemma AheadAppend(store: Store, a: seq<Value>, b: seq<Value>, x: nat)
    requires AllLive(store, a) && AllLive(store, b)
    ensures Ahead(store, a + b, x) <==> Ahead(store, a, x) || Ahead(store, b, x)
  {
    if Ahead(store, a, x) {
      var i :| 0 <= i < |a| && x in Visited(store, a[i]);
      assert x in Visited(store, (a + b)[i]);
    }
    if Ahead(store, b, x) {
      var i :| 0 <= i < |b| && x in Visited(store, b[i]);
      assert x in Visited(store, (a + b)[|a| + i]);
    }
  }

  lemma VisitIsStep(store: Store, rest: seq<Value>, v: Value, names: seq<string>)
    requires AllLive(store, rest) && Live(store, v)
    requires v.Ref? ==> VisitOrder(store[v.addr], names)
    ensures v.Ref? ==> (store[v.addr].MapCell? ==> forall k :: k in names ==> k in store[v.addr].entries)
    ensures var kids := if v.Ref? then Kids(store[v.addr], names) else [];
      AllLive(store, kids) && WorkStep(store, rest, v, kids)
  {
    var kids := [];
    if v.Ref? {
      KidsAreLive(store, v.addr, names);
      kids := Kids(store[v.addr], names);
    }
    VisitShrinks(store, rest, v, names, kids);
    forall x ensures Ahead(store, rest + [v], x) <==> Ahead(store, rest + kids, x) || (v.Ref? && x == v.addr) {
      AheadAppend(store, rest, [v], x);
      AheadAppend(store, rest, kids, x);
      assert Ahead(store, [v], x) <==> x in Visited(store, [v][0]);
      if v.Ref? {
        KidsVisited(store, v.addr, names, x);
      }
    }
  }

  lemma VisitShrinks(store: Store, rest: seq<Value>, v: Value, names: seq<string>, kids: seq<Value>)
    requires AllLive(store, rest) && Live(store, v) && AllLive(store, kids)
    requires v.Ref? ==> VisitOrder(store[v.addr], names)
    requires v.Ref? ==> (store[v.addr].MapCell? ==> forall k :: k in names ==> k in store[v.addr].entries)
    requires kids == if v.Ref? then Kids(store[v.addr], names) else []
    ensures Total(VisitSizes(store, rest + kids)) < Total(VisitSizes(store, rest + [v]))
  {
    if v.Ref? {
      KidsSize(store, v.addr, names);
    }
    VisitSizesAppend(store, rest, [v]);
    VisitSizesAppend(store, rest, kids);
    VisitSizeOfOne(store, v);
  }

  lemma VisitSizesAppend(store: Store, a: seq<Value>, b: seq<Value>)
    requires AllLive(store, a) && AllLive(store, b)
    ensures AllLive(store, a + b)
    ensures Total(VisitSizes(store, a + b)) == Total(VisitSizes(store, a)) + Total(VisitSizes(store, b))
  {
    assert VisitSizes(store, a + b) == VisitSizes(store, a) + VisitSizes(store, b);
    TotalAppend(VisitSizes(store, a), VisitSizes(store, b));
  }

  lemma VisitSizeOfOne(store: Store, v: Value)
    requires Live(store, v)
    ensures AllLive(store, [v]) && Total(VisitSizes(store, [v])) == VisitSize(Unfold(store, v))
  {
    assert VisitSizes(store, [v]) == [VisitSize(Unfold(store, v))];
    assert Total([VisitSize(Unfold(store, v))]) == Total([]) + VisitSize(Unfold(store, v));
  }

  predicate HasRef(store: Store, a: nat, r: string) {
    a < |store| && OwnRef(store[a]) == Some(r)
  }

  /** The references of a document are the references of the cells visited. */
  lemma {:induction false} VisitedRefIsIn(store: Store, v: Value, a: nat, r: string)
    requires Live(store, v) && a in Visited(store, v) && HasRef(store, a, r)
    ensures r in RefsIn(Unfold(store, v))
    decreases Rank(v)
  {
    assert CellBelow(store[v.addr], v.addr);
    if a == v.addr {
      assert Unfold(store, store[a].entries[REF_KEY]) == Scalar(Text(r));
    } else if store[v.addr].MapCell? {
      var entries := store[v.addr].entries;
      var k :| k in entries && k != REF_KEY && a in Visited(store, entries[k]);
      VisitedRefIsIn(store, entries[k], a, r);
      assert r in RefsIn(Unfold(store, v).fields[k]);
    } else {
      var elems := store[v.addr].elems;
      var i :| 0 <= i < |elems| && a in Visited(store, elems[i]);
      VisitedRefIsIn(store, elems[i], a, r);
      assert r in RefsIn(Unfold(store, v).elems[i]);
    }
  }

  lemma {:induction false} RefInIsVisited(store: Store, v: Value, r: string) returns (a: nat)
    requires Live(store, v) && r in RefsIn(Unfold(store, v))
    ensures a in Visited(store, v) && HasRef(store, a, r)
    decreases Rank(v)
  {
    assert CellBelow(store[v.addr], v.addr);
    if store[v.addr].MapCell? {
      var entries := store[v.addr].entries;
      if k :| k in entries && k != REF_KEY && r in RefsIn(Unfold(store, entries[k])) {
        a := RefInIsVisited(store, entries[k], r);
      } else {
        a := v.addr;
        assert Unfold(store, entries[REF_KEY]) == Scalar(Text(r));
      }
    } else {
      var elems := store[v.addr].elems;
      var i :| 0 <= i < |elems| && r in RefsIn(Unfold(store, elems[i]));
      a := RefInIsVisited(store, elems[i], r);
    }
  }

  /** The reference strings of a document, in the order the worklist meets them. */
  method FindRefs(store: Store, root: Value) returns (refs: seq<string>)
    requires Live(store, root)
    ensures ToSet(refs) == RefsIn(Unfold(store, root))
  {
    refs := [];
    var work := [root];
    ghost var done: set<nat> := {};
    assert work[0] == root;
    while work != []
      invariant AllLive(store, work)
      invariant forall x :: x in Visited(store, root) <==> x in done || Ahead(store, work, x)
      invariant forall r :: r in refs <==> exists a :: a in done && HasRef(store, a, r)
      decreases Total(VisitSizes(store, work))
    {
      var current := work[|work| - 1];
      ghost var before := work;
      work := work[..|work| - 1];
      assert before == work + [current];
      if current.Ref? {
        var cell := store[current.addr];
        var names: seq<string> := [];
        if cell.MapCell? {
          if OwnRef(cell).Some? {
            refs := refs + [OwnRef(cell).value];
          }
          names := IterationOrder(cell.entries - {REF_KEY});
        }
        VisitIsStep(store, work, current, names);
        done := done + {current.addr};
        work := work + Kids(cell, names);
      } else {
        VisitIsStep(store, work, current, []);
        assert work + [] == work;
      }
    }
    forall r ensures r in refs <==> r in RefsIn(Unfold(store, root)) {
      if r in refs {
        var a :| a in done && HasRef(store, a, r);
        VisitedRefIsIn(store, root, a, r);
      }
      if r in RefsIn(Unfold(store, root)) {
        var a := RefInIsVisited(store, root, r);
      }
    }
  }

  // ----- growing the store -----

  /** New cells at the end of the store change nothing about older values. */
  lemma {:induction false} GrowthKeepsMeaning(store: Store, store': Store, v: Value)
    requires Live(store, v) && WellFormed(store') && store <= store'
    ensures Live(store', v)
    ensures Unfold(store', v) == Unfold(store, v)
    ensures Cells(store', v) == Cells(store, v)
    ensures Visited(store', v) == Visited(store, v)
    decreases Rank(v)
  {
    if v.Ref? {
      var a := v.addr;
      assert store'[a] == store[a] && CellBelow(store[a], a) && CellBelow(store'[a], a);
      match store[a]
      case MapCell(entries) =>
        forall k | k in entries
          ensures Unfold(store', entries[k]) == Unfold(store, entries[k])
          ensures Cells(store', entries[k]) == Cells(store, entries[k])
          ensures Visited(store', entries[k]) == Visited(store, entries[k])
        {
          GrowthKeepsMeaning(store, store', entries[k]);
        }
      case ListCell(elems) =>
        forall i | 0 <= i < |elems|
          ensures Unfold(store', elems[i]) == Unfold(store, elems[i])
          ensures Cells(store', elems[i]) == Cells(store, elems[i])
          ensures Visited(store', elems[i]) == Visited(store, elems[i])
        {
          GrowthKeepsMeaning(store, store', elems[i]);
        }
    }
  }

  lemma {:induction false} GrowthKeepsTree(store: Store, store': Store, v: Value)
    requires Live(store, v) && WellFormed(store') && store <= store'
    ensures Live(store', v)
    ensures Tree(store, v) ==> Tree(store', v)
    decreases Rank(v)
  {
    if v.Ref? {
      var a := v.addr;
      assert store'[a] == store[a] && CellBelow(store[a], a) && CellBelow(store'[a], a);
      match store[a]
      case MapCell(entries) =>
        forall k | k in entries
          ensures Cells(store', entries[k]) == Cells(store, entries[k])
          ensures Tree(store, entries[k]) ==> Tree(store', entries[k])
        {
          GrowthKeepsTree(store, store', entries[k]);
          GrowthKeepsMeaning(store, store', entries[k]);
        }
      case ListCell(elems) =>
        forall i | 0 <= i < |elems|
          ensures Cells(store', elems[i]) == Cells(store, elems[i])
          ensures Tree(store, elems[i]) ==> Tree(store', elems[i])
        {
          GrowthKeepsTree(store, store', elems[i]);
          GrowthKeepsMeaning(store, store', elems[i]);
        }
    }
  }

  lemma GrowthKeeps(store: Store, store': Store, v: Value)
    requires Live(store, v) && WellFormed(store') && store <= store'
    ensures Live(store', v)
    ensures Unfold(store', v) == Unfold(store, v)
    ensures Cells(store', v) == Cells(store, v)
    ensures Visited(store', v) == Visited(store, v)
    ensures Tree(store, v) ==> Tree(store', v)
  {
    GrowthKeepsMeaning(store, store', v);
    GrowthKeepsTree(store, store', v);
  }

  /** No two parts of the value share a cell. */
  ghost predicate Tree(store: Store, v: Value)
    requires Live(store, v)
    decreases Rank(v)
  {
    v.Ref? ==>
      assert CellBelow(store[v.addr], v.addr);
      match store[v.addr]
      case MapCell(entries) =>
        && (forall k :: k in entries ==> Tree(store, entries[k]))
        && (forall k, l :: k in entries && l in entries && k != l ==>
            Cells(store, entries[k]) !! Cells(store, entries[l]))
      case ListCell(elems) =>
        && (forall i :: 0 <= i < |elems| ==> Tree(store, elems[i]))
        && (forall i, j :: 0 <= i < j < |elems| ==> Cells(store, elems[i]) !! Cells(store, elems[j]))
  }

  /** A value of its own: a tree made only of cells from one stretch of the store. */
  ghost predicate Own(store: Store, v: Value, lo: nat, hi: nat) {
    Live(store, v) && Tree(store, v) && forall c :: c in Cells(store, v) ==> lo <= c < hi
  }

  lemma {:induction false} VisitedAreCells(store: Store, v: Value)
    requires Live(store, v)
    ensures Visited(store, v) <= Cells(store, v)
    decreases Rank(v)
  {
    if v.Ref? {
      assert CellBelow(store[v.addr], v.addr);
      match store[v.addr]
      case MapCell(entries) =>
        forall k | k in entries ensures Visited(store, entries[k]) <= Cells(store, entries[k]) {
          VisitedAreCells(store, entries[k]);
        }
      case ListCell(elems) =>
        forall i | 0 <= i < |elems| ensures Visited(store, elems[i]) <= Cells(store, elems[i]) {
          VisitedAreCells(store, elems[i]);
        }
    }
  }

  /** Rewriting cells that a value does not have leaves it alone. */
  lemma {:induction false} RewriteElsewhere(store: Store, at: set<nat>, v: Value)
    requires Live(store, v) && at !! Cells(store, v)
    ensures Live(RewriteAll(store, at), v) && Unfold(RewriteAll(store, at), v) == Unfold(store, v)
    decreases Rank(v)
  {
    RewriteAllIsLive(store, at);
    if v.Ref? {
      var a := v.addr;
      assert a in Cells(store, v) && CellBelow(store[a], a) && RewriteAll(store, at)[a] == store[a];
      match store[a]
      case MapCell(entries) =>
        forall k | k in entries ensures Unfold(RewriteAll(store, at), entries[k]) == Unfold(store, entries[k]) {
          RewriteElsewhere(store, at, entries[k]);
        }
      case ListCell(elems) =>
        forall i | 0 <= i < |elems| ensures Unfold(RewriteAll(store, at), elems[i]) == Unfold(store, elems[i]) {
          RewriteElsewhere(store, at, elems[i]);
        }
    }
  }

  /** Rewriting exactly the visited cells of a tree gives the rewritten document: same shape, new references. */
  lemma {:induction false} RewriteTree(store: Store, at: set<nat>, v: Value)
    requires Live(store, v) && Tree(store, v)
    requires forall c :: c in Cells(store, v) ==> (c in at <==> c in Visited(store, v))
    ensures Live(RewriteAll(store, at), v) && Unfold(RewriteAll(store, at), v) == Rewritten(Unfold(store, v))
    decreases Rank(v)
  {
    RewriteAllIsLive(store, at);
    if v.Ref? {
      var a := v.addr;
      var store' := RewriteAll(store, at);
      assert CellBelow(store[a], a) && CellBelow(store'[a], a);
      assert a in Visited(store, v) && a in Cells(store, v);
      assert store'[a] == RewriteCell(store[a]);
      match store[a]
      case MapCell(entries) =>
        forall k | k in entries
          ensures Unfold(store', store'[a].entries[k]) == RewrittenField(k, Unfold(store, entries[k]))
        {
          RewriteEntry(store, at, v, k);
          if k != REF_KEY {
            RewriteTree(store, at, entries[k]);
          } else {
            RewriteElsewhere(store, at, entries[k]);
          }
        }
        ObjectRewritten(Unfold(store, v).fields, Unfold(store', v).fields);
      case ListCell(elems) =>
        forall i | 0 <= i < |elems| ensures Unfold(store', elems[i]) == Rewritten(Unfold(store, elems[i])) {
          RewriteElem(store, at, v, i);
          RewriteTree(store, at, elems[i]);
        }
    }
  }

  lemma ObjectRewritten(fields: map<string, Json>, fields': map<string, Json>)
    requires fields'.Keys == fields.Keys
    requires forall k :: k in fields ==> fields'[k] == RewrittenField(k, fields[k])
    ensures Object(fields') == Rewritten(Object(fields))
  {
    assert Rewritten(Object(fields)).fields == fields';
  }

  /** A part of a tree meets the rewritten cells in its own visited cells, or, below $ref, nowhere. */
  lemma RewriteEntry(store: Store, at: set<nat>, v: Value, k: string)
    requires Live(store, v) && Tree(store, v) && v.Ref? && store[v.addr].MapCell? && k in store[v.addr].entries
    requires forall c :: c in Cells(store, v) ==> (c in at <==> c in Visited(store, v))
    ensures CellBelow(store[v.addr], v.addr)
    ensures var e := store[v.addr].entries[k];
      if k == REF_KEY then at !! Cells(store, e)
      else forall c :: c in Cells(store, e) ==> (c in at <==> c in Visited(store, e))
  {
    assert CellBelow(store[v.addr], v.addr);
    var entries := store[v.addr].entries;
    CellsBelow(store, entries[k]);
    forall c | c in Cells(store, entries[k])
      ensures c in at <==> k != REF_KEY && c in Visited(store, entries[k])
    {
      assert c in Cells(store, v) && c != v.addr;
      if c in Visited(store, v) {
        var l :| l in entries && l != REF_KEY && c in Visited(store, entries[l]);
        VisitedAreCells(store, entries[l]);
      }
    }
  }

  lemma RewriteElem(store: Store, at: set<nat>, v: Value, i: nat)
    requires Live(store, v) && Tree(store, v) && v.Ref? && store[v.addr].ListCell? && i < |store[v.addr].elems|
    requires forall c :: c in Cells(store, v) ==> (c in at <==> c in Visited(store, v))
    ensures CellBelow(store[v.addr], v.addr)
    ensures var e := store[v.addr].elems[i];
      forall c :: c in Cells(store, e) ==> (c in at <==> c in Visited(store, e))
  {
    assert CellBelow(store[v.addr], v.addr);
    forall c | c in Cells(store, store[v.addr].elems[i])
      ensures c in at <==> c in Visited(store, store[v.addr].elems[i])
    {
      ElemVisited(store, v, i, c);
    }
  }

  lemma ElemVisited(store: Store, v: Value, i: nat, c: nat)
    requires Live(store, v) && Tree(store, v) && v.Ref? && store[v.addr].ListCell? && i < |store[v.addr].elems|
    requires CellBelow(store[v.addr], v.addr) && c in Cells(store, store[v.addr].elems[i])
    ensures c in Cells(store, v)
    ensures c in Visited(store, v) <==> c in Visited(store, store[v.addr].elems[i])
  {
    var elems := store[v.addr].elems;
    CellsBelow(store, elems[i]);
    if c in Visited(store, v) {
      var j :| 0 <= j < |elems| && c in Visited(store, elems[j]);
      VisitedAreCells(store, elems[j]);
      assert c in Cells(store, elems[j]);
      assert i == j;
    }
  }

  lemma {:induction false} CellsBelow(store: Store, v: Value)
    requires Live(store, v)
    ensures forall c :: c in Cells(store, v) ==> c < Rank(v)
    decreases Rank(v)
  {
    if v.Ref? {
      assert CellBelow(store[v.addr], v.addr);
      match store[v.addr]
      case MapCell(entries) =>
        forall k | k in entries ensures forall c :: c in Cells(store, entries[k]) ==> c < Rank(entries[k]) {
          CellsBelow(store, entries[k]);
        }
      case ListCell(elems) =>
        forall i | 0 <= i < |elems| ensures forall c :: c in Cells(store, elems[i]) ==> c < Rank(elems[i]) {
          CellsBelow(store, elems[i]);
        }
    }
  }

  // ----- cloning -----

  predicate Encodable(j: Json) {
    match j
    case Scalar(leaf) => !leaf.Unencodable?
    case Array(elems) => forall i :: 0 <= i < |elems| ==> Encodable(elems[i])
    case Object(fields) => forall k :: k in fields ==> Encodable(fields[k])
  }

  ghost predicate HoldsUnencodable(j: Json, path: seq<Step>) {
    var at := At(j, path);
    at.Some? && at.value.Scalar? && at.value.leaf.Unencodable?
  }

  /** A document can be encoded exactly when no path leads to a value that cannot. */
  lemma {:induction false} EncodableIff(j: Json)
    ensures Encodable(j) <==> forall path :: !HoldsUnencodable(j, path)
    decreases j
  {
    if Encodable(j) {
      forall path ensures !HoldsUnencodable(j, path) {
        NothingUnencodable(j, path);
      }
    } else {
      var path := PathToUnencodable(j);
      assert HoldsUnencodable(j, path);
    }
  }

  lemma {:induction false} NothingUnencodable(j: Json, path: seq<Step>)
    requires Encodable(j)
    ensures !HoldsUnencodable(j, path)
    decreases |path|
  {
    if path != [] {
      match path[0]
      case Key(k) =>
        if j.Object? && k in j.fields {
          NothingUnencodable(j.fields[k], path[1..]);
        }
      case Index(i) =>
        if j.Array? && i < |j.elems| {
          NothingUnencodable(j.elems[i], path[1..]);
        }
    }
  }

  lemma {:induction false} PathToUnencodable(j: Json) returns (path: seq<Step>)
    requires !Encodable(j)
    ensures HoldsUnencodable(j, path)
    decreases j
  {
    match j
    case Scalar(_) => path := [];
    case Array(elems) =>
      var i :| 0 <= i < |elems| && !Encodable(elems[i]);
      var rest := PathToUnencodable(elems[i]);
      path := [Index(i)] + rest;
      assert path[1..] == rest;
    case Object(fields) =>
      var k :| k in fields && !Encodable(fields[k]);
      var rest := PathToUnencodable(fields[k]);
      path := [Key(k)] + rest;
      assert path[1..] == rest;
  }

  /** Values built one after the other from new cells, each from its own stretch. */
  ghost predicate Copies(store: Store, lo: nat, vs: seq<Value>, js: seq<Json>) {
    && WellFormed(store) && |vs| == |js|
    && (forall i :: 0 <= i < |vs| ==> Own(store, vs[i], lo, |store|) && Unfold(store, vs[i]) == js[i])
    && (forall i, j :: 0 <= i < j < |vs| ==> Cells(store, vs[i]) !! Cells(store, vs[j]))
  }

  lemma CopiesGrow(store: Store, lo: nat, vs: seq<Value>, js: seq<Json>, store': Store, v: Value, j: Json)
    requires lo <= |store| && Copies(store, lo, vs, js) && store <= store' && WellFormed(store')
    requires Own(store', v, |store|, |store'|) && Unfold(store', v) == j
    ensures Copies(store', lo, vs + [v], js + [j])
  {
    forall i | 0 <= i < |vs|
      ensures Own(store', vs[i], lo, |store|) && Unfold(store', vs[i]) == js[i]
      ensures Cells(store', vs[i]) == Cells(store, vs[i])
    {
      GrowthKeeps(store, store', vs[i]);
    }
  }

  function Zip(names: seq<string>, vs: seq<Value>): map<string, Value>
    requires |names| == |vs|
  {
    if names == [] then map[]
    else Zip(names[..|names| - 1], vs[..|vs| - 1])[names[|names| - 1] := vs[|vs| - 1]]
  }

  lemma {:induction false} ZipAt(names: seq<string>, vs: seq<Value>)
    requires |names| == |vs| && Distinct(names)
    ensures Zip(names, vs).Keys == ToSet(names)
    ensures forall i :: 0 <= i < |names| ==> names[i] in Zip(names, vs) && Zip(names, vs)[names[i]] == vs[i]
    decreases |names|
  {
    if names != [] {
      var init, last := names[..|names| - 1], names[|names| - 1];
      assert names == init + [last] && vs == vs[..|vs| - 1] + [vs[|vs| - 1]];
      LastIsNew(init, last);
      ZipAt(init, vs[..|vs| - 1]);
      ZipOneMore(init, last, vs[..|vs| - 1], vs[|vs| - 1]);
    }
  }

  lemma ZipOneMore(init: seq<string>, last: string, vs: seq<Value>, v: Value)
    requires |init| == |vs| && forall i :: 0 <= i < |init| ==> init[i] != last
    requires Zip(init, vs).Keys == ToSet(init)
    requires forall i :: 0 <= i < |init| ==> init[i] in Zip(init, vs) && Zip(init, vs)[init[i]] == vs[i]
    ensures var all := Zip(init + [last], vs + [v]);
      && all.Keys == ToSet(init + [last])
      && (forall i :: 0 <= i < |init| + 1 ==> (init + [last])[i] in all && all[(init + [last])[i]] == (vs + [v])[i])
  {
    assert (init + [last])[..|init|] == init && (vs + [v])[..|vs|] == vs;
    ToSetAppend(init, last);
    assert Zip(init + [last], vs + [v]) == Zip(init, vs)[last := v];
  }

  lemma LastIsNew<T>(init: seq<T>, last: T)
    requires Distinct(init + [last])
    ensures Distinct(init) && forall i :: 0 <= i < |init| ==> init[i] != last
  {
    assert (init + [last])[|init|] == last && forall i :: 0 <= i < |init| ==> (init + [last])[i] == init[i];
  }

  /** A list cell over copies is a copy of the array. */
  lemma ListOfCopies(store: Store, lo: nat, vs: seq<Value>, js: seq<Json>)
    requires lo <= |store| && Copies(store, lo, vs, js)
    ensures var store', v := store + [ListCell(vs)], Ref(|store|);
      Own(store', v, lo, |store'|) && Unfold(store', v) == Array(js)
  {
    var store', v := store + [ListCell(vs)], Ref(|store|);
    forall a | 0 <= a < |store'| ensures CellBelow(store'[a], a) {
      assert a < |store| ==> CellBelow(store[a], a);
    }
    forall i | 0 <= i < |vs|
      ensures Own(store', vs[i], lo, |store|) && Unfold(store', vs[i]) == js[i]
      ensures Cells(store', vs[i]) == Cells(store, vs[i])
    {
      GrowthKeeps(store, store', vs[i]);
    }
    assert Unfold(store', v).elems == js;
  }

  /** A map cell over copies is a copy of the object. */
  lemma MapOfCopies(store: Store, lo: nat, names: seq<string>, vs: seq<Value>, js: seq<Json>, fields: map<string, Json>)
    requires lo <= |store| && Copies(store, lo, vs, js)
    requires IsOrder(fields.Keys, names) && |names| == |vs|
    requires forall i :: 0 <= i < |names| ==> names[i] in fields && js[i] == fields[names[i]]
    ensures var store', v := store + [MapCell(Zip(names, vs))], Ref(|store|);
      Own(store', v, lo, |store'|) && Unfold(store', v) == Object(fields)
  {
    var entries := Zip(names, vs);
    var store' := store + [MapCell(entries)];
    ZipAt(names, vs);
    assert entries.Keys == fields.Keys;
    forall k | k in entries
      ensures WellFormed(store') && In(entries[k], |store|) && Own(store', entries[k], lo, |store|)
      ensures Unfold(store', entries[k]) == fields[k]
    {
      MapEntryIsCopy(store, lo, names, vs, js, fields, k);
    }
    assert CellBelow(store'[|store|], |store|);
    assert WellFormed(store') by {
      forall a | 0 <= a < |store'| ensures CellBelow(store'[a], a) {
        assert a < |store| ==> CellBelow(store[a], a);
      }
    }
    forall k, l | k in entries && l in entries && k != l
      ensures Cells(store', entries[k]) !! Cells(store', entries[l]) {
      MapEntriesApart(store, lo, names, vs, js, fields, k, l);
    }
    ObjectIsOwn(store', lo, |store|, entries, fields);
  }

  /** A map cell whose entries are separate values of their own. */
  lemma ObjectIsOwn(store: Store, lo: nat, top: nat, entries: map<string, Value>, fields: map<string, Json>)
    requires WellFormed(store) && lo <= top < |store| && store[top] == MapCell(entries) && CellBelow(store[top], top)
    requires entries.Keys == fields.Keys
    requires forall k :: k in entries ==> Own(store, entries[k], lo, top) && Unfold(store, entries[k]) == fields[k]
    requires forall k, l :: k in entries && l in entries && k != l ==>
        Cells(store, entries[k]) !! Cells(store, entries[l])
    ensures Own(store, Ref(top), lo, top + 1) && Unfold(store, Ref(top)) == Object(fields)
  {
    forall c | c in Cells(store, Ref(top)) ensures lo <= c < top + 1 {
      if c != top {
        var k :| k in entries && c in Cells(store, entries[k]);
      }
    }
    ObjectUnfolds(store, top, entries, fields);
  }

  lemma ObjectUnfolds(store: Store, top: nat, entries: map<string, Value>, fields: map<string, Json>)
    requires WellFormed(store) && top < |store| && store[top] == MapCell(entries) && CellBelow(store[top], top)
    requires entries.Keys == fields.Keys
    requires forall k :: k in entries ==> Unfold(store, entries[k]) == fields[k]
    ensures Unfold(store, Ref(top)) == Object(fields)
  {
    assert Unfold(store, Ref(top)).fields == fields;
  }

  lemma MapEntriesApart(store: Store, lo: nat, names: seq<string>, vs: seq<Value>, js: seq<Json>,
                        fields: map<string, Json>, k: string, l: string)
    requires lo <= |store| && Copies(store, lo, vs, js)
    requires IsOrder(fields.Keys, names) && |names| == |vs|
    requires forall i :: 0 <= i < |names| ==> names[i] in fields && js[i] == fields[names[i]]
    requires k in Zip(names, vs) && l in Zip(names, vs) && k != l
    requires WellFormed(store + [MapCell(Zip(names, vs))])
    ensures In(Zip(names, vs)[k], |store|) && In(Zip(names, vs)[l], |store|)
    ensures var store' := store + [MapCell(Zip(names, vs))];
      Cells(store', Zip(names, vs)[k]) !! Cells(store', Zip(names, vs)[l])
  {
    MapEntryIsCopy(store, lo, names, vs, js, fields, k);
    MapEntryIsCopy(store, lo, names, vs, js, fields, l);
    var entries := Zip(names, vs);
    var store' := store + [MapCell(entries)];
    var i :| 0 <= i < |vs| && names[i] == k && entries[k] == vs[i] && Cells(store', entries[k]) == Cells(store, vs[i]);
    var j :| 0 <= j < |vs| && names[j] == l && entries[l] == vs[j] && Cells(store', entries[l]) == Cells(store, vs[j]);
  }

  lemma MapEntryIsCopy(store: Store, lo: nat, names: seq<string>, vs: seq<Value>, js: seq<Json>,
                       fields: map<string, Json>, k: string)
    requires lo <= |store| && Copies(store, lo, vs, js)
    requires IsOrder(fields.Keys, names) && |names| == |vs|
    requires forall i :: 0 <= i < |names| ==> names[i] in fields && js[i] == fields[names[i]]
    requires k in Zip(names, vs)
    ensures var e, store' := Zip(names, vs)[k], store + [MapCell(Zip(names, vs))];
      && WellFormed(store') && In(e, |store|) && Own(store', e, lo, |store|) && k in fields
        && Unfold(store', e) == fields[k]
      && exists i :: 0 <= i < |vs| && names[i] == k && e == vs[i] && Cells(store', e) == Cells(store, vs[i])
  {
    ZipAt(names, vs);
    var entries := Zip(names, vs);
    var store' := store + [MapCell(entries)];
    forall l | l in entries ensures In(entries[l], |store|) {
      var i :| 0 <= i < |names| && names[i] == l;
      assert Own(store, vs[i], lo, |store|);
    }
    forall a | 0 <= a < |store'| ensures CellBelow(store'[a], a) {
      assert a < |store| ==> CellBelow(store[a], a);
    }
    var i :| 0 <= i < |names| && names[i] == k;
    assert Own(store, vs[i], lo, |store|);
    GrowthKeeps(store, store', vs[i]);
  }

  // ----- the reference graph of the components -----

  /** The documents of the named schemas. */
  function Trees(store: Store, schemas: map<string, Value>): map<string, Json>
    requires AllLive(store, []) && forall n :: n in schemas ==> In(schemas[n], |store|)
  {
    map n | n in schemas :: Unfold(store, schemas[n])
  }

  /** The names one named schema refers to. */
  ghost function Succ(trees: map<string, Json>): string -> set<string> {
    (n: string) => if n in trees then Names(RefsIn(trees[n])) else {}
  }

  /** The names a document needs, directly or not. */
  ghost predicate Needs(trees: map<string, Json>, root: Json, n: string) {
    Reaches(Names(RefsIn(root)), Succ(trees), n)
  }

  ghost predicate Refers(j: Json, n: string) {
    "#/components/schemas/" + n in RefsIn(j)
  }

  /** A chain of references from a document through the named ones. */
  ghost predicate IsChain(trees: map<string, Json>, root: Json, chain: seq<string>) {
    && |chain| > 0 && Refers(root, chain[0])
    && forall i :: 0 <= i < |chain| - 1 ==> chain[i] in trees && Refers(trees[chain[i]], chain[i + 1])
  }

  lemma NamesAreReferred(j: Json, n: string)
    ensures n in Names(RefsIn(j)) <==> Refers(j, n)
  {
    var r := "#/components/schemas/" + n;
    assert SCHEMA_PREFIX <= r && r[|SCHEMA_PREFIX|..] == n;
    if n in Names(RefsIn(j)) {
      var q :| q in RefsIn(j) && SCHEMA_PREFIX <= q && n == q[|SCHEMA_PREFIX|..];
      assert q == r;
    }
  }

  lemma SuccessorsAreReferred(trees: map<string, Json>, m: string, n: string)
    ensures n in Succ(trees)(m) <==> m in trees && Refers(trees[m], n)
  {
    if m in trees {
      NamesAreReferred(trees[m], n);
    }
  }

  lemma ChainIsPath(trees: map<string, Json>, root: Json, chain: seq<string>)
    ensures IsChain(trees, root, chain) <==> IsPath(Names(RefsIn(root)), Succ(trees), chain)
  {
    if |chain| > 0 {
      NamesAreReferred(root, chain[0]);
    }
    var succ := Succ(trees);
    if IsPath(Names(RefsIn(root)), succ, chain) {
      forall i | 0 <= i < |chain| - 1 ensures chain[i] in trees && Refers(trees[chain[i]], chain[i + 1]) {
        assert chain[i + 1] in succ(chain[i]);
        SuccessorsAreReferred(trees, chain[i], chain[i + 1]);
      }
    }
    if IsChain(trees, root, chain) {
      forall i | 0 <= i < |chain| - 1 ensures chain[i + 1] in succ(chain[i]) {
        SuccessorsAreReferred(trees, chain[i], chain[i + 1]);
      }
    }
  }

  /** A name is needed exactly when a chain of references leads to it. */
  lemma NeedsIff(trees: map<string, Json>, root: Json, n: string)
    ensures Needs(trees, root, n) <==> exists chain :: IsChain(trees, root, chain) && chain[|chain| - 1] == n
  {
    if Needs(trees, root, n) {
      var chain :| IsPath(Names(RefsIn(root)), Succ(trees), chain) && chain[|chain| - 1] == n;
      ChainIsPath(trees, root, chain);
    }
    if chain :| IsChain(trees, root, chain) && chain[|chain| - 1] == n {
      ChainIsPath(trees, root, chain);
    }
  }

  /** The names queued for a list of reference strings. */
  method SchemaNames(refs: seq<string>) returns (names: seq<string>)
    ensures ToSet(names) == Names(ToSet(refs))
  {
    names := [];
    for i := 0 to |refs|
      invariant ToSet(names) == Names(ToSet(refs[..i]))
    {
      assert refs[..i + 1] == refs[..i] + [refs[i]];
      ToSetAppend(refs[..i], refs[i]);
      if SCHEMA_PREFIX <= refs[i] {
        ToSetAppend(names, refs[i][|SCHEMA_PREFIX|..]);
        names := names + [refs[i][|SCHEMA_PREFIX|..]];
      }
    }
    assert refs[..|refs|] == refs;
  }

  /** A clone of an encodable document is a tree of new cells; another document is its own clone. */
  ghost predicate CloneOf(store: Store, lo: nat, hi: nat, source: Value, j: Json, clone: Value) {
    && Live(store, clone) && Unfold(store, clone) == j
    && (if Encodable(j) then Own(store, clone, lo, hi) else clone == source)
  }

  class Bundler {
    var store: Store
    const schemas: map<string, Value>
    var defs: map<string, Value>
    /** The expansion order of collectDefs. */
    ghost var expanded: seq<string>

    ghost predicate Valid()
      reads this
    {
      && WellFormed(store)
      && (forall n :: n in schemas ==> In(schemas[n], |store|))
    }

    constructor (store: Store, schemas: map<string, Value>)
      requires WellFormed(store) && forall n :: n in schemas ==> In(schemas[n], |store|)
      ensures Valid() && this.store == store && this.schemas == schemas && defs == map[]
    {
      this.store, this.schemas, defs, expanded := store, schemas, map[], [];
    }

    /** What json.Unmarshal does: it builds the document from new cells. */
    method Decode(j: Json) returns (v: Value)
      requires WellFormed(store)
      modifies this`store
      ensures old(store) <= store && Own(store, v, |old(store)|, |store|) && Unfold(store, v) == j
      decreases j, 1
    {
      match j
      case Scalar(leaf) =>
        v := Plain(leaf);
      case Array(elems) =>
        var vs := DecodeAll(elems, j);
        ListOfCopies(store, |old(store)|, vs, elems);
        v := Ref(|store|);
        store := store + [ListCell(vs)];
      case Object(fields) =>
        var names := IterationOrder(fields);
        assert forall i :: 0 <= i < |names| ==> names[i] in ToSet(names);
        var js := seq(|names|, i requires 0 <= i < |names| => fields[names[i]]);
        var vs := DecodeAll(js, j);
        MapOfCopies(store, |old(store)|, names, vs, js, fields);
        v := Ref(|store|);
        store := store + [MapCell(Zip(names, vs))];
    }

    method DecodeAll(js: seq<Json>, ghost parent: Json) returns (vs: seq<Value>)
      requires WellFormed(store)
      requires forall i :: 0 <= i < |js| ==> (parent decreases to js[i])
      modifies this`store
      ensures old(store) <= store && Copies(store, |old(store)|, vs, js)
      decreases parent, 0
    {
      vs := [];
      for i := 0 to |js|
        invariant old(store) <= store && Copies(store, |old(store)|, vs, js[..i])
      {
        ghost var before := store;
        var v := Decode(js[i]);
        CopiesGrow(before, |old(store)|, vs, js[..i], store, v, js[i]);
        assert js[..i] + [js[i]] == js[..i + 1];
        vs := vs + [v];
      }
      assert js[..|js|] == js;
    }

    /** cloneValue: a round trip through JSON, or the value itself when that fails. */
    method Clone(v: Value) returns (clone: Value)
      requires Live(store, v)
      modifies this`store
      ensures old(store) <= store && WellFormed(store)
      ensures CloneOf(store, |old(store)|, |store|, v, Unfold(old(store), v), clone)
      ensures !Encodable(Unfold(old(store), v)) ==> store == old(store)
    {
      var j := Unfold(store, v);
      if Encodable(j) {
        clone := Decode(j);
      } else {
        clone := v;
      }
    }

    /** rewriteRefsInPlace: exactly the visited cells are rewritten. */
    method RewriteRefs(root: Value)
      requires Live(store, root)
      modifies this`store
      ensures store == RewriteAll(old(store), Visited(old(store), root))
    {
      ghost var start := store;
      var work := [root];
      ghost var done: set<nat> := {};
      assert work[0] == root;
      assert store == RewriteAll(start, done);
      while work != []
        invariant Rewriting(start, root, done, work) && store == RewriteAll(start, done)
        decreases Total(VisitSizes(start, work))
      {
        var current := work[|work| - 1];
        assert work == work[..|work| - 1] + [current];
        work := work[..|work| - 1];
        if current.Ref? {
          var cell := store[current.addr];
          var names: seq<string> := [];
          if cell.MapCell? {
            names := IterationOrder(cell.entries - {REF_KEY});
          }
          RewriteVisit(start, root, done, work, current.addr, names);
          store := store[current.addr := RewriteCell(cell)];
          done := done + {current.addr};
          work := work + Kids(cell, names);
        } else {
          VisitIsStep(start, work, current, []);
          assert work + [] == work;
        }
      }
      assert done == Visited(start, root);
    }

    /** One expansion: the clone of a named schema is stored and its references are returned. */
    method Expand(name: string, ghost trees: map<string, Json>, ghost lo: nat) returns (more: seq<string>)
      requires Valid() && name in schemas && name !in defs
      requires lo <= |store| && trees == Trees(store, schemas)
      requires Collected(store, lo, schemas, trees, defs)
      requires Distinct(expanded) && ToSet(expanded) == defs.Keys
      modifies this
      ensures Valid() && old(store) <= store
      ensures defs.Keys == old(defs).Keys + {name}
      ensures Trees(store, schemas) == trees
      ensures Collected(store, lo, schemas, trees, defs)
      ensures Distinct(expanded) && ToSet(expanded) == defs.Keys
      ensures ToSet(more) == Succ(trees)(name)
    {
      var cloned := Clone(schemas[name]);
      CollectedGrows(old(store), lo, schemas, trees, defs, store, name, cloned);
      TreesKept(old(store), store, schemas);
      ToSetAppend(expanded, name);
      assert name !in ToSet(expanded);
      defs := defs[name := cloned];
      expanded := expanded + [name];
      var refs := FindRefs(store, cloned);
      more := SchemaNames(refs);
    }

    /** What the outer loop of collectDefs keeps. */
    ghost predicate Collecting(trees: map<string, Json>, roots: set<string>, lo: nat, queue: seq<string>)
      reads this
    {
      && Valid() && lo <= |store| && trees == Trees(store, schemas)
      && Collected(store, lo, schemas, trees, defs)
      && Frontier(roots, Succ(trees), defs.Keys, ToSet(queue))
      && Distinct(expanded) && ToSet(expanded) == defs.Keys
    }

    /** One turn of the outer loop: the first name is known, unknown to the document, or expanded. */
    method Turn(queue: seq<string>, ghost trees: map<string, Json>, ghost roots: set<string>, ghost lo: nat)
      returns (rest: seq<string>, unknown: bool)
      requires queue != [] && Collecting(trees, roots, lo, queue)
      modifies this
      ensures Valid() && old(store) <= store
      ensures unknown ==> queue[0] !in schemas && Reaches(roots, Succ(trees), queue[0])
      ensures !unknown ==> Collecting(trees, roots, lo, rest)
      ensures if unknown || queue[0] in old(defs) then defs == old(defs) && rest == queue[1..]
        else queue[0] in schemas && defs.Keys == old(defs).Keys + {queue[0]}
    {
      var name := queue[0];
      ghost var done, succ := defs.Keys, Succ(trees);
      rest, unknown := queue[1..], false;
      assert queue == [name] + rest;
      HeadAndTail(name, rest);
      if name in defs {
        FrontierStep(roots, succ, done, ToSet(queue), name, ToSet(rest));
        assert done + {name} == done;
      } else if name !in schemas {
        unknown := true;
      } else {
        var more := Expand(name, trees, lo);
        ToSetConcat(rest, more);
        FrontierStep(roots, succ, done, ToSet(queue), name, ToSet(rest + more));
        rest := rest + more;
      }
    }

    /**
     collectDefs: the closure of the references of root. It fails on a needed name that the
     document lacks, and otherwise expands every needed name exactly once.
     */
    method CollectDefs(root: Value) returns (unknown: Option<string>)
      requires Valid() && Live(store, root) && defs == map[]
      modifies this
      ensures Valid() && old(store) <= store
      ensures var trees, j := Trees(old(store), schemas), Unfold(old(store), root);
        && (unknown.Some? ==> Needs(trees, j, unknown.value) && unknown.value !in schemas)
        && (unknown.None? ==> forall n :: n in defs <==> Needs(trees, j, n))
        && (unknown.None? ==> Collected(store, |old(store)|, schemas, trees, defs))
        && (unknown.None? ==> Distinct(expanded) && ToSet(expanded) == defs.Keys)
    {
      ghost var trees := Trees(store, schemas);
      ghost var roots, lo := Names(RefsIn(Unfold(store, root))), |store|;
      expanded := [];
      var refs := FindRefs(store, root);
      var queue := SchemaNames(refs);
      StartsCollecting(trees, roots, lo, queue);
      while queue != []
        invariant Collecting(trees, roots, lo, queue) && old(store) <= store
        decreases schemas.Keys - defs.Keys, |queue|
      {
        ghost var left := schemas.Keys - defs.Keys;
        var name := queue[0];
        var rest, missing := Turn(queue, trees, roots, lo);
        if missing {
          return Some(name);
        }
        queue := rest;
        assert name in left ==> name !in schemas.Keys - defs.Keys;
      }
      HasCollected(trees, roots, lo);
      unknown := None;
    }

    lemma StartsCollecting(trees: map<string, Json>, roots: set<string>, lo: nat, queue: seq<string>)
      requires Valid() && lo == |store| && trees == Trees(store, schemas) && defs == map[] && expanded == []
      requires ToSet(queue) == roots
      ensures Collecting(trees, roots, lo, queue)
    {
      FrontierStart(roots, Succ(trees));
      assert defs.Keys == {};
      assert ToSet(expanded) == {};
    }

    lemma HasCollected(trees: map<string, Json>, roots: set<string>, lo: nat)
      requires Collecting(trees, roots, lo, [])
      ensures forall n :: n in defs <==> Reaches(roots, Succ(trees), n)
    {
      assert ToSet<string>([]) == {};
      FrontierDone(roots, Succ(trees), defs.Keys);
    }

    /** The last loop of buildRequestBody: every collected clone is rewritten, in any order. */
    method RewriteDefs()
      requires WellFormed(store) && forall n :: n in defs ==> In(defs[n], |store|)
      modifies this`store
      ensures store == RewriteAll(old(store), VisitedBy(old(store), defs))
    {
      ghost var start := store;
      var names := IterationOrder(defs);
      ghost var done: set<nat> := {};
      assert store == RewriteAll(start, done);
      for i := 0 to |names|
        invariant store == RewriteAll(start, done)
        invariant forall x :: x in done <==>
            exists k :: 0 <= k < i && names[k] in defs && x in Visited(start, defs[names[k]])
      {
        assert names[i] in ToSet(names);
        RewriteKeepsVisited(start, done, defs[names[i]]);
        RewriteRefs(defs[names[i]]);
        RewriteAllTwice(start, done, Visited(start, defs[names[i]]));
        done := done + Visited(start, defs[names[i]]);
      }
      forall x ensures x in done <==> x in VisitedBy(start, defs) {
        if n :| n in defs && x in Visited(start, defs[n]) {
          assert n in ToSet(names);
        }
      }
      assert done == VisitedBy(start, defs);
    }

    /**
     The core of buildRequestBody: clone the body schema, collect what it needs, rewrite the
     clones. The ghost results are the store before rewriting and the end of the body's clone.
     */
    method Bundle(schema: Value) returns (r: Result<Value, string>, ghost mid: Store, ghost base: nat)
      requires Valid() && Live(store, schema) && defs == map[]
      modifies this
      ensures Valid()
      ensures var trees, j := Trees(old(store), schemas), Unfold(old(store), schema);
        && (r.Err? ==> Needs(trees, j, r.error) && r.error !in schemas && old(store) <= store)
        && (r.Ok? ==> forall n :: n in defs <==> Needs(trees, j, n))
        && (r.Ok? ==> Bundled(old(store), mid, base, store, schema, j, schemas, trees, r.value, defs))
    {
      ghost var j := Unfold(store, schema);
      ghost var trees := Trees(store, schemas);
      var body := Clone(schema);
      TreesKept(old(store), store, schemas);
      base := |store|;
      ghost var cloned := store;
      var unknown := CollectDefs(body);
      mid := store;
      if unknown.Some? {
        return Err(unknown.value), mid, base;
      }
      CloneKept(cloned, mid, |old(store)|, base, schema, j, body);
      RewriteRefs(body);
      ghost var first := Visited(mid, body);
      DefsKeepVisited(mid, first, defs);
      RewriteDefs();
      RewriteAllTwice(mid, first, VisitedBy(mid, defs));
      RewriteAllIsLive(mid, first + VisitedBy(mid, defs));
      r := Ok(body);
    }
  }

  ghost function VisitedBy(store: Store, defs: map<string, Value>): set<nat>
    requires WellFormed(store) && forall n :: n in defs ==> In(defs[n], |store|)
  {
    set n, x | n in defs && x in Visited(store, defs[n]) :: x
  }

  lemma DefsKeepVisited(store: Store, at: set<nat>, defs: map<string, Value>)
    requires WellFormed(store) && forall n :: n in defs ==> In(defs[n], |store|)
    ensures WellFormed(RewriteAll(store, at)) && VisitedBy(RewriteAll(store, at), defs) == VisitedBy(store, defs)
  {
    RewriteAllIsLive(store, at);
    forall n | n in defs ensures Visited(RewriteAll(store, at), defs[n]) == Visited(store, defs[n]) {
      RewriteKeepsVisited(store, at, defs[n]);
    }
  }

  lemma CloneKept(store: Store, store': Store, lo: nat, hi: nat, source: Value, j: Json, clone: Value)
    requires CloneOf(store, lo, hi, source, j, clone)
    requires WellFormed(store') && store <= store'
    ensures CloneOf(store', lo, hi, source, j, clone)
  {
    GrowthKeeps(store, store', clone);
  }

  /** What a run of the bundler leaves: clones, and the visited cells of all of them rewritten. */
  ghost predicate Bundled(before: Store, mid: Store, base: nat, after: Store, schema: Value, j: Json,
                          schemas: map<string, Value>, trees: map<string, Json>, body: Value, defs: map<string, Value>)
  {
    && before <= mid && |before| <= base <= |mid|
    && CloneOf(mid, |before|, base, schema, j, body)
    && Collected(mid, base, schemas, trees, defs)
    && after == RewriteAll(mid, Visited(mid, body) + VisitedBy(mid, defs))
  }

  // ----- what the bundle promises -----

  /** Whatever document is bundled: its references are the rewritten references of its source. */
  lemma BundledRefs(mid: Store, at: set<nat>, v: Value, ref: string) returns (source: string)
    requires Live(mid, v) && Visited(mid, v) <= at
    requires Live(RewriteAll(mid, at), v) && ref in RefsIn(Unfold(RewriteAll(mid, at), v))
    ensures source in RefsIn(Unfold(mid, v)) && ref == RewriteRef(source)
  {
    RewriteKeepsVisited(mid, at, v);
    var a := RefInIsVisited(RewriteAll(mid, at), v, ref);
    source := OwnRef(mid[a]).value;
    VisitedRefIsIn(mid, v, a, source);
  }

  /** The reference stands for one of the source: a name that has its definition, or no component at all. */
  ghost predicate StandsFor(ref: string, r: string, defs: map<string, Value>) {
    if "#/components/schemas/" <= r
    then exists n :: n in defs && r == "#/components/schemas/" + n && ref == "#/$defs/" + n
    else ref == r
  }

  ghost predicate SelfContained(j: Json, defs: map<string, Value>, source: Json) {
    forall ref :: ref in RefsIn(j) ==>
      && !("#/components/schemas/" <= ref)
      && exists r :: r in RefsIn(source) && StandsFor(ref, r, defs)
  }

  /**
   The output is self-contained: in the body and in every definition no reference points back
   at the components, and every rewritten one names a definition that is there.
   */
  lemma BundleIsSelfContained(before: Store, mid: Store, base: nat, after: Store, schema: Value, j: Json,
                              schemas: map<string, Value>, trees: map<string, Json>, body: Value,
                              defs: map<string, Value>)
    requires Bundled(before, mid, base, after, schema, j, schemas, trees, body, defs)
    requires forall n :: n in defs <==> Needs(trees, j, n)
    ensures Live(after, body) && SelfContained(Unfold(after, body), defs, j)
    ensures forall n :: n in defs ==> Live(after, defs[n]) && SelfContained(Unfold(after, defs[n]), defs, trees[n])
  {
    var at := Visited(mid, body) + VisitedBy(mid, defs);
    forall r | r in RefsIn(j) && SCHEMA_PREFIX <= r ensures r[|SCHEMA_PREFIX|..] in defs {
      RootsAreReached(Names(RefsIn(j)), Succ(trees), r[|SCHEMA_PREFIX|..]);
    }
    RewrittenSelfContained(mid, at, body, j, defs);
    forall n | n in defs
      ensures Live(after, defs[n]) && SelfContained(Unfold(after, defs[n]), defs, trees[n])
    {
      forall r | r in RefsIn(trees[n]) && SCHEMA_PREFIX <= r ensures r[|SCHEMA_PREFIX|..] in defs {
        SuccessorsAreReached(Names(RefsIn(j)), Succ(trees), n, r[|SCHEMA_PREFIX|..]);
      }
      RewrittenSelfContained(mid, at, defs[n], trees[n], defs);
    }
  }

  lemma RefStandsFor(r: string, defs: map<string, Value>)
    requires SCHEMA_PREFIX <= r ==> r[|SCHEMA_PREFIX|..] in defs
    ensures StandsFor(RewriteRef(r), r, defs)
  {
    RewriteRefIsRewritten(r);
    if SCHEMA_PREFIX <= r {
      var n :| r == "#/components/schemas/" + n && RewriteRef(r) == "#/$defs/" + n;
      assert r[|SCHEMA_PREFIX|..] == n;
    }
  }

  lemma RewrittenSelfContained(mid: Store, at: set<nat>, v: Value, source: Json, defs: map<string, Value>)
    requires Live(mid, v) && Visited(mid, v) <= at && Unfold(mid, v) == source
    requires forall r :: r in RefsIn(source) && SCHEMA_PREFIX <= r ==> r[|SCHEMA_PREFIX|..] in defs
    ensures Live(RewriteAll(mid, at), v) && SelfContained(Unfold(RewriteAll(mid, at), v), defs, source)
  {
    RewriteKeepsVisited(mid, at, v);
    forall ref | ref in RefsIn(Unfold(RewriteAll(mid, at), v))
      ensures !("#/components/schemas/" <= ref) && exists r :: r in RefsIn(source) && StandsFor(ref, r, defs)
    {
      var r := BundledRefs(mid, at, v, ref);
      RewriteRefOnce(r);
      RefStandsFor(r, defs);
    }
  }

  /** Where the cells of a bundled document lie: its clone's stretch, or the source if it has none. */
  lemma CellsOfClone(store: Store, before: nat, lo: nat, hi: nat, source: Value, j: Json, clone: Value)
    requires CloneOf(store, lo, hi, source, j, clone) && In(source, before)
    ensures forall c :: c in Cells(store, clone) ==> if Encodable(j) then lo <= c < hi else c < before
    ensures Encodable(j) ==> Tree(store, clone)
    ensures Visited(store, clone) <= Cells(store, clone)
  {
    VisitedAreCells(store, clone);
    CellsBelow(store, clone);
  }

  /**
   Clones share nothing, so each document that was cloned comes out rewritten, with its shape
   kept, whatever other documents are bundled with it.
   */
  lemma BundleRewritesDocuments(before: Store, mid: Store, base: nat, after: Store, schema: Value, j: Json,
                                schemas: map<string, Value>, trees: map<string, Json>, body: Value,
                                defs: map<string, Value>)
    requires Bundled(before, mid, base, after, schema, j, schemas, trees, body, defs)
    requires In(schema, |before|) && forall n :: n in schemas ==> In(schemas[n], |before|)
    ensures Encodable(j) ==> Live(after, body) && Unfold(after, body) == Rewritten(j)
    ensures forall n :: n in defs && Encodable(trees[n]) ==>
        Live(after, defs[n]) && Unfold(after, defs[n]) == Rewritten(trees[n])
  {
    var at := Visited(mid, body) + VisitedBy(mid, defs);
    CellsOfClone(mid, |before|, |before|, base, schema, j, body);
    forall n | n in defs
      ensures forall c :: c in Cells(mid, defs[n]) ==> if Encodable(trees[n]) then base <= c else c < |before|
      ensures Visited(mid, defs[n]) <= Cells(mid, defs[n]) && (Encodable(trees[n]) ==> Tree(mid, defs[n]))
    {
      CellsOfClone(mid, |before|, base, |mid|, schemas[n], trees[n], defs[n]);
    }
    if Encodable(j) {
      assert forall c, n :: c in Cells(mid, body) && n in defs ==> c !in Visited(mid, defs[n]);
      RewriteTree(mid, at, body);
    }
    forall n | n in defs && Encodable(trees[n])
      ensures Live(after, defs[n]) && Unfold(after, defs[n]) == Rewritten(trees[n]) {
      forall c | c in Cells(mid, defs[n]) ensures c in at <==> c in Visited(mid, defs[n]) {
        if m :| m in defs && c in Visited(mid, defs[m]) {
          assert c in Cells(mid, defs[m]);
          assert m == n;
        }
      }
      RewriteTree(mid, at, defs[n]);
    }
  }

  /** A document that the encoder refuses and that still holds schema references. */
  ghost predicate Leaks(j: Json) {
    !Encodable(j) && Names(RefsIn(j)) != {}
  }

  /**
   The source components stay as they were exactly when no bundled document leaks: a
   document that cannot be encoded is not cloned, and its own references are rewritten.
   */
  lemma SourceIsUntouchedIff(before: Store, mid: Store, base: nat, after: Store, schema: Value, j: Json,
                             schemas: map<string, Value>, trees: map<string, Json>, body: Value,
                             defs: map<string, Value>)
    requires Bundled(before, mid, base, after, schema, j, schemas, trees, body, defs)
    requires In(schema, |before|) && forall n :: n in schemas ==> In(schemas[n], |before|)
    ensures before <= after <==> !Leaks(j) && forall n :: n in defs ==> !Leaks(trees[n])
  {
    var at := Visited(mid, body) + VisitedBy(mid, defs);
    if before <= after {
      if Leaks(j) {
        LeakChangesSource(before, mid, at, body, j);
      }
      forall n | n in defs ensures !Leaks(trees[n]) {
        if Leaks(trees[n]) {
          LeakChangesSource(before, mid, at, defs[n], trees[n]);
        }
      }
    }
    if !Leaks(j) && forall n :: n in defs ==> !Leaks(trees[n]) {
      forall a | 0 <= a < |before| ensures after[a] == before[a] {
        if a in Visited(mid, body) {
          SoundDocumentKeepsSource(before, mid, |before|, base, body, j, a);
        } else if n :| n in defs && a in Visited(mid, defs[n]) {
          SoundDocumentKeepsSource(before, mid, base, |mid|, defs[n], trees[n], a);
        }
      }
    }
  }

  /** A document that leaks: its map holds a schema reference and a value that cannot be encoded. */
  function LeakyCell(name: string): Cell {
    MapCell(map[REF_KEY := Plain(Text(SCHEMA_PREFIX + name)), "x" := Plain(Unencodable(0))])
  }

  lemma LeakyDocumentLeaks(name: string)
    ensures var store := [LeakyCell(name)];
      && WellFormed(store) && Leaks(Unfold(store, Ref(0))) && Names(RefsIn(Unfold(store, Ref(0)))) == {name}
  {
    var store := [LeakyCell(name)];
    assert |"x"| == 1 && |REF_KEY| == 4;
    assert CellBelow(store[0], 0);
    var j := Unfold(store, Ref(0));
    assert j.fields["x"] == Scalar(Unencodable(0));
    var ref := SCHEMA_PREFIX + name;
    assert j.fields[REF_KEY] == Scalar(Text(ref));
    assert RefsIn(j) == {ref} by {
      forall k | k in j.fields && k != REF_KEY ensures RefsIn(j.fields[k]) == {} {
      }
    }
    assert SCHEMA_PREFIX <= ref && ref[|SCHEMA_PREFIX|..] == name;
    assert Names({ref}) == {name};
    assert name in Names(RefsIn(j));
  }

  /** Bundling such a document changes it in the source. */
  method BundlingChangesLeakySource(name: string) returns (before: Store, after: Store)
    ensures !(before <= after)
  {
    before := [LeakyCell(name)];
    LeakyDocumentLeaks(name);
    var schemas: map<string, Value> := map[name := Plain(Atom(0))];
    ghost var j, trees := Unfold(before, Ref(0)), Trees(before, schemas);
    var bundler := new Bundler(before, schemas);
    var r, mid, base := bundler.Bundle(Ref(0));
    if r.Err? {
      assert trees[name] == Scalar(Atom(0));
      ClosedHoldsReachable(Names(RefsIn(j)), Succ(trees), {name}, r.error);
    } else {
      SourceIsUntouchedIff(before, mid, base, bundler.store, Ref(0), j, schemas, trees, r.value, bundler.defs);
    }
    after := bundler.store;
  }

  lemma LeakChangesSource(before: Store, mid: Store, at: set<nat>, v: Value, j: Json)
    requires before <= mid && Live(mid, v) && Unfold(mid, v) == j && Visited(mid, v) <= at
    requires In(v, |before|) && Leaks(j)
    ensures !(before <= RewriteAll(mid, at))
  {
    var n :| n in Names(RefsIn(j));
    var r :| r in RefsIn(j) && SCHEMA_PREFIX <= r && n == r[|SCHEMA_PREFIX|..];
    var a := RefInIsVisited(mid, v, r);
    VisitedAreCells(mid, v);
    CellsBelow(mid, v);
    RewriteRefOnce(r);
    assert RewriteCell(mid[a]) != mid[a] by {
      assert OwnRef(RewriteCell(mid[a])) == Some(RewriteRef(r));
    }
    assert RewriteAll(mid, at)[a] != before[a];
  }

  lemma SoundDocumentKeepsSource(before: Store, mid: Store, lo: nat, hi: nat, v: Value, j: Json, a: nat)
    requires before <= mid && Live(mid, v) && Unfold(mid, v) == j && |before| <= lo
    requires Encodable(j) ==> Own(mid, v, lo, hi)
    requires !Leaks(j) && a in Visited(mid, v) && a < |before|
    ensures RewriteCell(mid[a]) == mid[a]
  {
    VisitedAreCells(mid, v);
    if OwnRef(mid[a]).Some? {
      var r := OwnRef(mid[a]).value;
      VisitedRefIsIn(mid, v, a, r);
      assert SCHEMA_PREFIX <= r ==> r[|SCHEMA_PREFIX|..] in Names(RefsIn(j));
    }
  }

  /** Rewriting a second time changes nothing. */
  lemma {:induction false} RewrittenOnce(j: Json)
    ensures Rewritten(Rewritten(j)) == Rewritten(j)
    decreases j
  {
    match j
    case Scalar(_) =>
    case Array(elems) =>
      forall i | 0 <= i < |elems| ensures Rewritten(Rewritten(elems[i])) == Rewritten(elems[i]) {
        RewrittenOnce(elems[i]);
      }
    case Object(fields) =>
      forall k | k in fields ensures RewrittenField(k, RewrittenField(k, fields[k])) == RewrittenField(k, fields[k]) {
        if k != REF_KEY {
          RewrittenOnce(fields[k]);
        } else if fields[k].Scalar? && fields[k].leaf.Text? {
          RewriteRefOnce(fields[k].leaf.text);
        }
      }
      ObjectRewritten(Rewritten(j).fields, Rewritten(j).fields);
  }

  lemma TreesKept(store: Store, store': Store, schemas: map<string, Value>)
    requires WellFormed(store) && WellFormed(store') && store <= store'
    requires forall n :: n in schemas ==> In(schemas[n], |store|)
    ensures forall n :: n in schemas ==> In(schemas[n], |store'|)
    ensures Trees(store', schemas) == Trees(store, schemas)
  {
    forall n | n in schemas ensures Unfold(store', schemas[n]) == Unfold(store, schemas[n]) {
      GrowthKeeps(store, store', schemas[n]);
    }
  }

  lemma HeadAndTail(x: string, rest: seq<string>)
    ensures ToSet([x] + rest) == {x} + ToSet(rest)
  {
    assert ([x] + rest)[0] == x;
    forall y | y in rest ensures y in [x] + rest {
      var i :| 0 <= i < |rest| && rest[i] == y;
      assert ([x] + rest)[i + 1] == y;
    }
  }

  /** Every collected name has its clone, and clones of encodable documents share nothing. */
  ghost predicate Collected(store: Store, lo: nat, schemas: map<string, Value>, trees: map<string, Json>,
                            defs: map<string, Value>)
  {
    && (forall n :: n in defs ==>
          n in schemas && n in trees && CloneOf(store, lo, |store|, schemas[n], trees[n], defs[n]))
    && (forall m, n :: m in defs && n in defs && m != n && Encodable(trees[m]) && Encodable(trees[n]) ==>
         Cells(store, defs[m]) !! Cells(store, defs[n]))
  }

  lemma CollectedGrows(store: Store, lo: nat, schemas: map<string, Value>, trees: map<string, Json>,
                       defs: map<string, Value>, store': Store, name: string, clone: Value)
    requires lo <= |store| && Collected(store, lo, schemas, trees, defs)
    requires WellFormed(store) && store <= store' && WellFormed(store')
    requires name !in defs && name in schemas && name in trees
    requires CloneOf(store', |store|, |store'|, schemas[name], trees[name], clone)
    ensures Collected(store', lo, schemas, trees, defs[name := clone])
  {
    forall n | n in defs
      ensures CloneOf(store', lo, |store|, schemas[n], trees[n], defs[n])
      ensures Cells(store', defs[n]) == Cells(store, defs[n])
    {
      GrowthKeeps(store, store', defs[n]);
    }
  }

  lemma RewriteKeepsKeys(cell: Cell)
    ensures RewriteCell(cell).MapCell? <==> cell.MapCell?
    ensures cell.MapCell? ==> RewriteCell(cell).entries.Keys == cell.entries.Keys
  {
  }

  /** One more cell is rewritten; what it puts on the worklist is what it always did. */
  lemma RewriteOne(start: Store, done: set<nat>, a: nat, names: seq<string>)
    requires a < |start| && VisitOrder(RewriteAll(start, done)[a], names)
    ensures VisitOrder(start[a], names)
    ensures var store := RewriteAll(start, done);
      && store[a := RewriteCell(store[a])] == RewriteAll(start, done + {a})
      && (store[a].MapCell? ==> forall k :: k in names ==> k in store[a].entries && k in start[a].entries)
      && Kids(store[a], names) == Kids(start[a], names)
  {
    RewriteKeepsKeys(start[a]);
    RewriteKeepsKids(start[a], names);
    RewriteCellOnce(start[a]);
  }

  /** What the rewriting loop keeps: every visited cell is done or still ahead. */
  ghost predicate Rewriting(start: Store, root: Value, done: set<nat>, work: seq<Value>) {
    && Live(start, root) && AllLive(start, work)
    && forall x :: x in Visited(start, root) <==> x in done || Ahead(start, work, x)
  }

  lemma RewriteVisit(start: Store, root: Value, done: set<nat>, rest: seq<Value>, a: nat, names: seq<string>)
    requires Rewriting(start, root, done, rest + [Ref(a)]) && a < |start|
    requires VisitOrder(RewriteAll(start, done)[a], names)
    ensures var store := RewriteAll(start, done);
      && store[a := RewriteCell(store[a])] == RewriteAll(start, done + {a})
      && (store[a].MapCell? ==> forall k :: k in names ==> k in store[a].entries)
      && Rewriting(start, root, done + {a}, rest + Kids(store[a], names))
      && AllLive(start, rest + [Ref(a)])
      && Total(VisitSizes(start, rest + Kids(store[a], names))) < Total(VisitSizes(start, rest + [Ref(a)]))
  {
    assert forall i :: 0 <= i < |rest| ==> (rest + [Ref(a)])[i] == rest[i];
    RewriteOne(start, done, a, names);
    VisitIsStep(start, rest, Ref(a), names);
  }

  lemma RewriteKeepsKids(cell: Cell, names: seq<string>)
    requires VisitOrder(cell, names)
    ensures cell.MapCell? ==> forall k :: k in names ==> k in cell.entries && k in RewriteCell(cell).entries
    ensures Kids(RewriteCell(cell), names) == Kids(cell, names)
  {
    if cell.MapCell? {
      VisitOrderNames(cell, names);
      forall i | 0 <= i < |names| ensures Kids(RewriteCell(cell), names)[i] == Kids(cell, names)[i] {
        assert names[i] in names;
      }
    }
  }
}