/**
 The example builder of tools/upstreamspec: it turns one OpenAPI schema, whose
 references may form cycles, into one JSON value. The source keeps an explicit stack of
 jobs; every job owns a slot of a half-built value and fills it later. The model keeps
 that stack and an explicit store of object and list cells, and proves that every
 order of the work ends in the value of a recursive definition.
 */
module ExampleBuilder {
  import opened Prelude
  import opened Sums

  datatype Json =
    | JNull
    | JBool(b: bool)
    | JNumber(n: int)
    | JString(s: string)
    | JArray(elems: seq<Json>)
    | JObject(fields: map<string, Json>)

  /** $ref: absent, with the prefix of the document's schemas cut off, or anything else. */
  datatype Reference = NoRef | SchemaRef(name: string) | OtherRef(text: string)

  datatype TypeName = NoType | BooleanType | IntegerType | NumberType | StringType | ObjectType | ArrayType
                    | OtherType(name: string)

  datatype Format = DateTime | Date | DateSpan | Uuid | OtherFormat(name: string)

  /** A decoded schema object; a missing pointer is None. */
  datatype Schema = Schema(
    ref: Reference,
    typ: TypeName,
    format: Format,
    enum: seq<Json>,
    properties: map<string, Option<Schema>>,
    items: Option<Schema>,
    anyOf: seq<Option<Schema>>,
    oneOf: seq<Option<Schema>>,
    unsupported: seq<string>)

  /** The named schemas of a document, and the two bounds of the builder. */
  datatype Document = Document(schemas: map<string, Option<Schema>>, maxHops: nat, maxNodes: nat)

  datatype Error =
    | MissingSchema
    | BadReference(ref: Reference)
    | TooManyHops
    | UnsupportedKeyword(keyword: string)
    | UnsupportedType(typ: TypeName)

  const MAX_NODES: nat := 200_000
  const MAX_HOPS: nat := 32

  // ----- resolve: follow references and first alternatives -----

  datatype Resolution =
    | Failed(error: Error)
    | CutOff(name: string, open: seq<string>)
    | Found(schema: Schema, open: seq<string>)

  /** The named schemas that are not open yet: the outer part of the termination measure. */
  function Unopened(doc: Document, open: seq<string>): set<string> {
    doc.schemas.Keys - ToSet(open)
  }

  predicate Names(doc: Document, ref: Reference) {
    ref.SchemaRef? && ref.name in doc.schemas && doc.schemas[ref.name].Some?
  }

  lemma OpeningShrinks(doc: Document, open: seq<string>, name: string)
    requires name in doc.schemas && name !in open
    ensures Unopened(doc, open + [name]) < Unopened(doc, open)
  {
    ToSetAppend(open, name);
    assert name in Unopened(doc, open);
  }

  /**
   One hop is a reference, a first anyOf or a first oneOf. A name that is open above is
   cut off.
   */
  function Resolve(doc: Document, s: Option<Schema>, open: seq<string>, hops: nat): Resolution
    decreases hops
  {
    if hops == 0 then Failed(TooManyHops)
    else if s.None? then Failed(MissingSchema)
    else if s.value.ref != NoRef then
      if !Names(doc, s.value.ref) then Failed(BadReference(s.value.ref))
      else
        var name := s.value.ref.name;
        if name in open then CutOff(name, open)
        else Resolve(doc, doc.schemas[name], open + [name], hops - 1)
    else if s.value.anyOf != [] then Resolve(doc, s.value.anyOf[0], open, hops - 1)
    else if s.value.oneOf != [] then Resolve(doc, s.value.oneOf[0], open, hops - 1)
    else Found(s.value, open)
  }

  /** Following references and first alternatives to the end, without any bound. */
  function Chase(doc: Document, s: Option<Schema>, open: seq<string>): (r: Resolution)
    ensures r != Failed(TooManyHops)
    decreases Unopened(doc, open), s
  {
    if s.None? then Failed(MissingSchema)
    else if s.value.ref != NoRef then
      if !Names(doc, s.value.ref) then Failed(BadReference(s.value.ref))
      else
        var name := s.value.ref.name;
        if name in open then CutOff(name, open)
        else
          OpeningShrinks(doc, open, name);
          Chase(doc, doc.schemas[name], open + [name])
    else if s.value.anyOf != [] then Chase(doc, s.value.anyOf[0], open)
    else if s.value.oneOf != [] then Chase(doc, s.value.oneOf[0], open)
    else Found(s.value, open)
  }

  /** How many schemas are looked at on the way, the last one included. */
  function Hops(doc: Document, s: Option<Schema>, open: seq<string>): (n: nat)
    ensures n >= 1
    decreases Unopened(doc, open), s
  {
    if s.None? then 1
    else if s.value.ref != NoRef then
      if !Names(doc, s.value.ref) || s.value.ref.name in open then 1
      else
        OpeningShrinks(doc, open, s.value.ref.name);
        1 + Hops(doc, doc.schemas[s.value.ref.name], open + [s.value.ref.name])
    else if s.value.anyOf != [] then 1 + Hops(doc, s.value.anyOf[0], open)
    else if s.value.oneOf != [] then 1 + Hops(doc, s.value.oneOf[0], open)
    else 1
  }

  /** The bound cuts off exactly what takes more hops, and changes nothing else. */
  lemma {:induction false} ResolveIsChase(doc: Document, s: Option<Schema>, open: seq<string>, hops: nat)
    ensures Resolve(doc, s, open, hops) ==
            if Hops(doc, s, open) <= hops then Chase(doc, s, open) else Failed(TooManyHops)
    decreases hops
  {
    if hops > 0 && s.Some? {
      if s.value.ref != NoRef {
        if Names(doc, s.value.ref) && s.value.ref.name !in open {
          ResolveIsChase(doc, doc.schemas[s.value.ref.name], open + [s.value.ref.name], hops - 1);
        }
      } else if s.value.anyOf != [] {
        ResolveIsChase(doc, s.value.anyOf[0], open, hops - 1);
      } else if s.value.oneOf != [] {
        ResolveIsChase(doc, s.value.oneOf[0], open, hops - 1);
      }
    }
  }

  /** The open names of a path: names of the document, none of them twice. */
  ghost predicate OpenPath(doc: Document, open: seq<string>) {
    Distinct(open) && forall n :: n in open ==> n in doc.schemas
  }

  lemma OpenPathExtends(doc: Document, open: seq<string>, name: string)
    requires OpenPath(doc, open) && name in doc.schemas && name !in open
    ensures OpenPath(doc, open + [name])
  {
  }

  /** No name is opened twice on a path, and only a name open above is cut off. */
  lemma {:induction false} ResolveOpens(doc: Document, s: Option<Schema>, open: seq<string>, hops: nat)
    requires OpenPath(doc, open)
    ensures var r := Resolve(doc, s, open, hops);
      && (!r.Failed? ==> open <= r.open && OpenPath(doc, r.open))
      && (r.CutOff? ==> r.name in r.open)
    decreases hops
  {
    if hops > 0 && s.Some? {
      if s.value.ref != NoRef {
        if Names(doc, s.value.ref) {
          var name := s.value.ref.name;
          if name !in open {
            OpenPathExtends(doc, open, name);
            ResolveOpens(doc, doc.schemas[name], open + [name], hops - 1);
            assert open <= open + [name];
          }
        }
      } else if s.value.anyOf != [] {
        ResolveOpens(doc, s.value.anyOf[0], open, hops - 1);
      } else if s.value.oneOf != [] {
        ResolveOpens(doc, s.value.oneOf[0], open, hops - 1);
      }
    }
  }

  /** The bounded loop of the source computes Resolve. */
  method ResolveLoop(doc: Document, start: Option<Schema>, startOpen: seq<string>) returns (r: Resolution)
    ensures r == Resolve(doc, start, startOpen, doc.maxHops)
  {
    var s, open := start, startOpen;
    for hop := 0 to doc.maxHops
      invariant Resolve(doc, s, open, doc.maxHops - hop) == Resolve(doc, start, startOpen, doc.maxHops)
    {
      if s.None? {
        return Failed(MissingSchema);
      } else if s.value.ref != NoRef {
        if !Names(doc, s.value.ref) {
          return Failed(BadReference(s.value.ref));
        }
        var name := s.value.ref.name;
        if name in open {
          return CutOff(name, open);
        }
        s, open := doc.schemas[name], open + [name];
      } else if s.value.anyOf != [] {
        s := s.value.anyOf[0];
      } else if s.value.oneOf != [] {
        s := s.value.oneOf[0];
      } else {
        return Found(s.value, open);
      }
    }
    return Failed(TooManyHops);
  }

  function FormatExample(f: Format): string {
    match f
    case DateTime => "2020-01-02T03:04:05Z"
    case Date => "2020-01-02"
    case DateSpan => "00:00:00"
    case Uuid => "00000000-0000-4000-8000-000000000000"
    case OtherFormat(_) => "string"
  }

  /** The example of a schema that is neither object nor array. */
  function Scalar(s: Schema): Result<Json, Error> {
    match s.typ
    case NoType => Ok(JNull)
    case BooleanType => Ok(JBool(true))
    case IntegerType => Ok(JNumber(1))
    case NumberType => Ok(JNumber(1))
    case StringType => Ok(JString(FormatExample(s.format)))
    case _ => Err(UnsupportedType(s.typ))
  }

  // ----- the recursive definition -----

  /** What one schema contributes: nothing, a finished value, or a container and its open parts. */
  datatype Shape =
    | Refused(error: Error)
    | Finished(value: Json)
    | Object(properties: map<string, Option<Schema>>, open: seq<string>)
    | List(items: Option<Schema>, open: seq<string>)

  /** A schema too many hops away is refused; any other contributes what the end of the chase does. */
  function ShapeOf(doc: Document, s: Option<Schema>, open: seq<string>): (r: Shape)
    ensures r == ShapeFrom(Resolve(doc, s, open, doc.maxHops))
  {
    ResolveIsChase(doc, s, open, doc.maxHops);
    if Hops(doc, s, open) <= doc.maxHops then FreeShapeOf(doc, s, open) else Refused(TooManyHops)
  }

  function FreeShapeOf(doc: Document, s: Option<Schema>, open: seq<string>): Shape {
    ShapeFrom(Chase(doc, s, open))
  }

  function ShapeFrom(r: Resolution): Shape {
    match r
    case Failed(e) => Refused(e)
    case CutOff(_, _) => Finished(JNull)
    case Found(t, open') =>
      if t.unsupported != [] then Refused(UnsupportedKeyword(t.unsupported[0]))
      else if t.enum != [] then Finished(t.enum[0])
      else if t.typ == ObjectType || t.properties != map[] then Object(t.properties, open')
      else if t.typ == ArrayType then List(t.items, open')
      else
        match Scalar(t)
        case Ok(v) => Finished(v)
        case Err(e) => Refused(e)
  }

  /** Following references descends: a name was opened, or the schema got smaller. */
  lemma {:induction false} ChaseDescends(doc: Document, s: Option<Schema>, open: seq<string>)
    requires Chase(doc, s, open).Found?
    ensures var r := Chase(doc, s, open);
      Unopened(doc, r.open) < Unopened(doc, open) || (r.open == open && (s decreases to r.schema))
    decreases Unopened(doc, open), s
  {
    if s.value.ref != NoRef {
      var name := s.value.ref.name;
      OpeningShrinks(doc, open, name);
      ChaseDescends(doc, doc.schemas[name], open + [name]);
    } else if s.value.anyOf != [] {
      ChaseDescends(doc, s.value.anyOf[0], open);
    } else if s.value.oneOf != [] {
      ChaseDescends(doc, s.value.oneOf[0], open);
    }
  }

  /** The parts of a container are smaller by (names not open yet, schema). No bound is needed for it. */
  lemma ShapeDescends(doc: Document, s: Option<Schema>, open: seq<string>)
    ensures var r := FreeShapeOf(doc, s, open);
      && (r.Object? ==> forall k :: k in r.properties ==>
           (Unopened(doc, open), s decreases to Unopened(doc, r.open), r.properties[k]))
      && (r.List? ==> (Unopened(doc, open), s decreases to Unopened(doc, r.open), r.items))
  {
    if Chase(doc, s, open).Found? {
      ChaseDescends(doc, s, open);
    }
  }

  /** The finite unfolding of a schema. */
  datatype Plan =
    | Fault(error: Error)
    | Done(value: Json)
    | ObjectOf(parts: map<string, Plan>)
    | ListOf(item: Plan)

  /** The recursive definition. It stops by itself; the bound only turns the schemas too far away into faults. */
  function PlanOf(doc: Document, s: Option<Schema>, open: seq<string>): Plan
    decreases Unopened(doc, open), s
  {
    ShapeDescends(doc, s, open);
    match ShapeOf(doc, s, open)
    case Refused(e) => Fault(e)
    case Finished(v) => Done(v)
    case Object(ps, open') => ObjectOf(map k | k in ps :: PlanOf(doc, ps[k], open'))
    case List(t, open') => ListOf(PlanOf(doc, t, open'))
  }

  /** The same definition without any bound. */
  function FreePlanOf(doc: Document, s: Option<Schema>, open: seq<string>): Plan
    decreases Unopened(doc, open), s
  {
    ShapeDescends(doc, s, open);
    match FreeShapeOf(doc, s, open)
    case Refused(e) => Fault(e)
    case Finished(v) => Done(v)
    case Object(ps, open') => ObjectOf(map k | k in ps :: FreePlanOf(doc, ps[k], open'))
    case List(t, open') => ListOf(FreePlanOf(doc, t, open'))
  }

  /** Some schema that the unfolding comes to is more hops away than the bound. */
  ghost predicate TooFar(doc: Document, s: Option<Schema>, open: seq<string>)
    decreases Unopened(doc, open), s
  {
    ShapeDescends(doc, s, open);
    || Hops(doc, s, open) > doc.maxHops
    || match FreeShapeOf(doc, s, open)
       case Object(ps, open') => exists k :: k in ps && TooFar(doc, ps[k], open')
       case List(t, open') => TooFar(doc, t, open')
       case _ => false
  }

  /** The bounded plan is the free one exactly when no schema of the unfolding is too far away. */
  lemma {:induction false} PlanIsFreeIff(doc: Document, s: Option<Schema>, open: seq<string>)
    ensures PlanOf(doc, s, open) == FreePlanOf(doc, s, open) <==> !TooFar(doc, s, open)
    decreases Unopened(doc, open), s
  {
    ShapeDescends(doc, s, open);
    if Hops(doc, s, open) <= doc.maxHops {
      match FreeShapeOf(doc, s, open)
      case Object(ps, open') =>
        forall k | k in ps
          ensures PlanOf(doc, ps[k], open') == FreePlanOf(doc, ps[k], open') <==> !TooFar(doc, ps[k], open') {
          PlanIsFreeIff(doc, ps[k], open');
        }
        var p, free := PlanOf(doc, s, open).parts, FreePlanOf(doc, s, open).parts;
        assert forall k :: k in ps ==> p[k] == PlanOf(doc, ps[k], open') && free[k] == FreePlanOf(doc, ps[k], open');
        assert p == free <==> forall k :: k in ps ==> p[k] == free[k];
      case List(t, open') => PlanIsFreeIff(doc, t, open');
      case _ =>
    }
  }

  /** The value of a plan; a fault stands for null. */
  function ValueOf(p: Plan): Json {
    match p
    case Fault(_) => JNull
    case Done(v) => v
    case ObjectOf(parts) => JObject(map k | k in parts :: ValueOf(parts[k]))
    case ListOf(item) => JArray([ValueOf(item)])
  }

  /** How many values a plan needs, itself included. */
  ghost function SizeOf(p: Plan): (n: nat)
    ensures n >= 1
  {
    match p
    case Fault(_) => 1
    case Done(_) => 1
    case ObjectOf(parts) => 1 + Sum(map k | k in parts :: SizeOf(parts[k]))
    case ListOf(item) => 1 + SizeOf(item)
  }

  datatype Problem = Problem(at: string, error: Error)

  /** Every part of a plan that no example can be built for, with its path. */
  ghost function ProblemsOf(p: Plan, at: string): set<Problem>
    decreases p
  {
    match p
    case Fault(e) => {Problem(at, e)}
    case Done(_) => {}
    case ObjectOf(parts) => set k, f | k in parts && f in ProblemsOf(parts[k], at + "." + k) :: f
    case ListOf(item) => ProblemsOf(item, at + "[]")
  }

  // ----- what the definition promises -----

  /** A larger hop bound never changes an answer that a smaller one gave. */
  lemma {:induction false} HopBoundOnlyRefuses(doc: Document, s: Option<Schema>, open: seq<string>, hops: nat,
                                               more: nat)
    requires hops <= more && Resolve(doc, s, open, hops) != Failed(TooManyHops)
    ensures Resolve(doc, s, open, more) == Resolve(doc, s, open, hops)
    decreases hops
  {
    if hops > 0 && s.Some? {
      if s.value.ref != NoRef {
        if Names(doc, s.value.ref) && s.value.ref.name !in open {
          HopBoundOnlyRefuses(doc, doc.schemas[s.value.ref.name], open + [s.value.ref.name], hops - 1, more - 1);
        }
      } else if s.value.anyOf != [] {
        HopBoundOnlyRefuses(doc, s.value.anyOf[0], open, hops - 1, more - 1);
      } else if s.value.oneOf != [] {
        HopBoundOnlyRefuses(doc, s.value.oneOf[0], open, hops - 1, more - 1);
      }
    }
  }

  /** A schema too far away is a problem of the bounded plan. */
  lemma {:induction false} TooFarIsRefused(doc: Document, s: Option<Schema>, open: seq<string>, at: string)
    requires TooFar(doc, s, open)
    ensures exists p :: p in ProblemsOf(PlanOf(doc, s, open), at) && p.error == TooManyHops
    decreases Unopened(doc, open), s
  {
    ShapeDescends(doc, s, open);
    if Hops(doc, s, open) > doc.maxHops {
      assert Problem(at, TooManyHops) in ProblemsOf(PlanOf(doc, s, open), at);
    } else {
      match FreeShapeOf(doc, s, open)
      case Object(ps, open') =>
        var k :| k in ps && TooFar(doc, ps[k], open');
        TooFarIsRefused(doc, ps[k], open', at + "." + k);
        var p :| p in ProblemsOf(PlanOf(doc, ps[k], open'), at + "." + k) && p.error == TooManyHops;
        assert PlanOf(doc, s, open).parts[k] == PlanOf(doc, ps[k], open');
        assert p in ProblemsOf(PlanOf(doc, s, open), at);
      case List(t, open') => TooFarIsRefused(doc, t, open', at + "[]");
    }
  }

  /** Nothing is refused exactly when no schema is too far away and the definition without bounds refuses nothing. */
  lemma BuildableIff(doc: Document, s: Option<Schema>)
    ensures ProblemsOf(PlanOf(doc, s, []), "") == {} <==>
        !TooFar(doc, s, []) && ProblemsOf(FreePlanOf(doc, s, []), "") == {}
    ensures !TooFar(doc, s, []) ==> PlanOf(doc, s, []) == FreePlanOf(doc, s, [])
  {
    PlanIsFreeIff(doc, s, []);
    if TooFar(doc, s, []) {
      TooFarIsRefused(doc, s, [], "");
    }
  }

  // ----- what an example has to do with its schema -----

  /** A text has the form of a pattern: d stands for a digit, h for a hexadecimal digit, the rest for itself. */
  predicate HasForm(pattern: string, text: string) {
    |pattern| == |text| && forall i :: 0 <= i < |text| ==> FormChar(pattern[i], text[i])
  }

  predicate FormChar(p: char, c: char) {
    if p == 'd' then '0' <= c <= '9' else if p == 'h' then '0' <= c <= '9' || 'a' <= c <= 'f' else c == p
  }

  /** A text is one of its format. */
  predicate FitsFormat(f: Format, text: string) {
    match f
    case DateTime => HasForm("dddd-dd-ddTdd:dd:ddZ", text)
    case Date => HasForm("dddd-dd-dd", text)
    case DateSpan => HasForm("dd:dd:dd", text)
    case Uuid => HasForm("hhhhhhhh-hhhh-4hhh-8hhh-hhhhhhhhhhhh", text)
    case OtherFormat(_) => text == "string"
  }

  /** A value is the example of a type that is neither object nor array. Only an untyped schema has null. */
  predicate FitsType(t: Schema, v: Json) {
    match t.typ
    case NoType => v == JNull
    case BooleanType => v == JBool(true)
    case IntegerType => v == JNumber(1)
    case NumberType => v == JNumber(1)
    case StringType => v.JString? && FitsFormat(t.format, v.s)
    case _ => false
  }

  /**
   A value is an example of a schema, said of the schema itself: the first value of an enumeration, an
   object with exactly the documented properties, an array of one element, a value of the type. A
   reference or alternative has the examples of what it leads to; a name already open has null.
   */
  ghost predicate Fits(doc: Document, s: Option<Schema>, open: seq<string>, v: Json)
    decreases Unopened(doc, open), s
  {
    s.Some? &&
    var t := s.value;
    if t.ref != NoRef then
      && t.ref.SchemaRef? && t.ref.name in doc.schemas && doc.schemas[t.ref.name].Some?
      && if t.ref.name in open then v == JNull else
         OpeningShrinks(doc, open, t.ref.name);
         Fits(doc, doc.schemas[t.ref.name], open + [t.ref.name], v)
    else if t.anyOf != [] then Fits(doc, t.anyOf[0], open, v)
    else if t.oneOf != [] then Fits(doc, t.oneOf[0], open, v)
    else
      && t.unsupported == []
      && if t.enum != [] then v == t.enum[0]
         else if t.typ == ObjectType || t.properties != map[] then
           && v.JObject? && v.fields.Keys == t.properties.Keys
           && forall k :: k in t.properties ==> Fits(doc, t.properties[k], open, v.fields[k])
         else if t.typ == ArrayType then
           v.JArray? && |v.elems| == 1 && Fits(doc, t.items, open, v.elems[0])
         else FitsType(t, v)
  }

  /** A schema admits no example because of a problem, found at a path below the given one. */
  ghost predicate Refuses(doc: Document, s: Option<Schema>, open: seq<string>, at: string, p: Problem)
    decreases Unopened(doc, open), s
  {
    if s.None? then p == Problem(at, MissingSchema)
    else
      var t := s.value;
      if t.ref != NoRef then
        if !(t.ref.SchemaRef? && t.ref.name in doc.schemas && doc.schemas[t.ref.name].Some?) then
          p == Problem(at, BadReference(t.ref))
        else if t.ref.name in open then false
        else
          OpeningShrinks(doc, open, t.ref.name);
          Refuses(doc, doc.schemas[t.ref.name], open + [t.ref.name], at, p)
      else if t.anyOf != [] then Refuses(doc, t.anyOf[0], open, at, p)
      else if t.oneOf != [] then Refuses(doc, t.oneOf[0], open, at, p)
      else if t.unsupported != [] then p == Problem(at, UnsupportedKeyword(t.unsupported[0]))
      else if t.enum != [] then false
      else if t.typ == ObjectType || t.properties != map[] then
        exists k :: k in t.properties && Refuses(doc, t.properties[k], open, at + "." + k, p)
      else if t.typ == ArrayType then Refuses(doc, t.items, open, at + "[]", p)
      else t.typ.OtherType? && p == Problem(at, UnsupportedType(t.typ))
  }

  lemma DateTimeHasForm()
    ensures HasForm("dddd-dd-ddTdd:dd:ddZ", "2020-01-02T03:04:05Z")
  {
  }

  lemma DateHasForm()
    ensures HasForm("dddd-dd-dd", "2020-01-02") && HasForm("dd:dd:dd", "00:00:00")
  {
  }

  lemma UuidHasForm()
    ensures HasForm("hhhhhhhh-hhhh-4hhh-8hhh-hhhhhhhhhhhh", "00000000-0000-4000-8000-000000000000")
  {
  }

  lemma FormatExampleFits(f: Format)
    ensures FitsFormat(f, FormatExample(f))
  {
    DateTimeHasForm();
    DateHasForm();
    UuidHasForm();
  }

  lemma ScalarFits(t: Schema)
    requires t.typ != ObjectType && t.typ != ArrayType
    ensures Scalar(t).Ok? ==> FitsType(t, Scalar(t).value)
    ensures Scalar(t).Err? ==> Scalar(t).error == UnsupportedType(t.typ) && t.typ.OtherType?
    ensures Scalar(t).Ok? <==> !t.typ.OtherType?
  {
    FormatExampleFits(t.format);
  }

  /** Plans that start from the same shape are the same. */
  lemma SameShape(doc: Document, s: Option<Schema>, open: seq<string>, s': Option<Schema>, open': seq<string>)
    requires FreeShapeOf(doc, s, open) == FreeShapeOf(doc, s', open')
    ensures FreePlanOf(doc, s, open) == FreePlanOf(doc, s', open')
  {
    ShapeDescends(doc, s, open);
    ShapeDescends(doc, s', open');
  }

  /** What the definition without bounds builds is an example of the schema, unless it refuses something. */
  lemma {:induction false} PlanFits(doc: Document, s: Option<Schema>, open: seq<string>, at: string)
    requires ProblemsOf(FreePlanOf(doc, s, open), at) == {}
    ensures Fits(doc, s, open, ValueOf(FreePlanOf(doc, s, open)))
    decreases Unopened(doc, open), s
  {
    var p := FreePlanOf(doc, s, open);
    assert !p.Fault?;
    var t := s.value;
    if t.ref != NoRef {
      if t.ref.name !in open {
        OpeningShrinks(doc, open, t.ref.name);
        SameShape(doc, s, open, doc.schemas[t.ref.name], open + [t.ref.name]);
        PlanFits(doc, doc.schemas[t.ref.name], open + [t.ref.name], at);
      }
    } else if t.anyOf != [] {
      SameShape(doc, s, open, t.anyOf[0], open);
      PlanFits(doc, t.anyOf[0], open, at);
    } else if t.oneOf != [] {
      SameShape(doc, s, open, t.oneOf[0], open);
      PlanFits(doc, t.oneOf[0], open, at);
    } else if t.enum == [] {
      if t.typ == ObjectType || t.properties != map[] {
        forall k | k in t.properties
          ensures Fits(doc, t.properties[k], open, ValueOf(FreePlanOf(doc, t.properties[k], open))) {
          assert p.parts[k] == FreePlanOf(doc, t.properties[k], open);
          assert ProblemsOf(p.parts[k], at + "." + k) <= ProblemsOf(p, at);
          PlanFits(doc, t.properties[k], open, at + "." + k);
        }
      } else if t.typ == ArrayType {
        PlanFits(doc, t.items, open, at + "[]");
      } else {
        ScalarFits(t);
      }
    }
  }

  /** The definition without bounds refuses exactly what the schema itself gives no example for, at that path. */
  lemma {:induction false} RefusedIff(doc: Document, s: Option<Schema>, open: seq<string>, at: string, q: Problem)
    ensures q in ProblemsOf(FreePlanOf(doc, s, open), at) <==> Refuses(doc, s, open, at, q)
    decreases Unopened(doc, open), s
  {
    if s.None? {
      return;
    }
    var p, t := FreePlanOf(doc, s, open), s.value;
    if t.ref != NoRef {
      if Names(doc, t.ref) && t.ref.name !in open {
        OpeningShrinks(doc, open, t.ref.name);
        SameShape(doc, s, open, doc.schemas[t.ref.name], open + [t.ref.name]);
        RefusedIff(doc, doc.schemas[t.ref.name], open + [t.ref.name], at, q);
      }
    } else if t.anyOf != [] {
      SameShape(doc, s, open, t.anyOf[0], open);
      RefusedIff(doc, t.anyOf[0], open, at, q);
    } else if t.oneOf != [] {
      SameShape(doc, s, open, t.oneOf[0], open);
      RefusedIff(doc, t.oneOf[0], open, at, q);
    } else if t.unsupported == [] && t.enum == [] {
      if t.typ == ObjectType || t.properties != map[] {
        forall k | k in t.properties
          ensures q in ProblemsOf(p.parts[k], at + "." + k) <==> Refuses(doc, t.properties[k], open, at + "." + k, q) {
          assert p.parts[k] == FreePlanOf(doc, t.properties[k], open);
          RefusedIff(doc, t.properties[k], open, at + "." + k, q);
        }
      } else if t.typ == ArrayType {
        RefusedIff(doc, t.items, open, at + "[]", q);
      } else {
        ScalarFits(t);
      }
    }
  }

  /** A schema with an example refuses nothing. */
  lemma {:induction false} FittedIsNotRefused(doc: Document, s: Option<Schema>, open: seq<string>, at: string, v: Json,
                                              q: Problem)
    requires Fits(doc, s, open, v)
    ensures !Refuses(doc, s, open, at, q)
    decreases Unopened(doc, open), s
  {
    var t := s.value;
    if t.ref != NoRef {
      if t.ref.name !in open {
        OpeningShrinks(doc, open, t.ref.name);
        FittedIsNotRefused(doc, doc.schemas[t.ref.name], open + [t.ref.name], at, v, q);
      }
    } else if t.anyOf != [] {
      FittedIsNotRefused(doc, t.anyOf[0], open, at, v, q);
    } else if t.oneOf != [] {
      FittedIsNotRefused(doc, t.oneOf[0], open, at, v, q);
    } else if t.enum == [] {
      if t.typ == ObjectType || t.properties != map[] {
        forall k | k in t.properties ensures !Refuses(doc, t.properties[k], open, at + "." + k, q) {
          FittedIsNotRefused(doc, t.properties[k], open, at + "." + k, v.fields[k], q);
        }
      } else if t.typ == ArrayType {
        FittedIsNotRefused(doc, t.items, open, at + "[]", v.elems[0], q);
      }
    }
  }

  /** Every problem under the bound is one of the schema itself, or comes from a schema too many hops away. */
  lemma {:induction false} ProblemIsReal(doc: Document, s: Option<Schema>, open: seq<string>, at: string, q: Problem)
    requires q in ProblemsOf(PlanOf(doc, s, open), at)
    ensures (q.error == TooManyHops && TooFar(doc, s, open)) || Refuses(doc, s, open, at, q)
    decreases Unopened(doc, open), s
  {
    RefusedIff(doc, s, open, at, q);
    ShapeDescends(doc, s, open);
    if Hops(doc, s, open) <= doc.maxHops {
      var p, r := PlanOf(doc, s, open), FreeShapeOf(doc, s, open);
      if r.Object? {
        var k :| k in r.properties && q in ProblemsOf(p.parts[k], at + "." + k);
        ProblemIsReal(doc, r.properties[k], r.open, at + "." + k, q);
        RefusedIff(doc, r.properties[k], r.open, at + "." + k, q);
        assert FreePlanOf(doc, s, open).parts[k] == FreePlanOf(doc, r.properties[k], r.open);
      } else if r.List? {
        ProblemIsReal(doc, r.items, r.open, at + "[]", q);
        RefusedIff(doc, r.items, r.open, at + "[]", q);
      }
    }
  }

  /** Under the bound nothing is refused exactly when no schema is too far away and there is an example at all. */
  lemma ExampleExistsIff(doc: Document, s: Option<Schema>)
    ensures ProblemsOf(PlanOf(doc, s, []), "") == {} <==> !TooFar(doc, s, []) && exists v :: Fits(doc, s, [], v)
    ensures ProblemsOf(PlanOf(doc, s, []), "") == {} ==> Fits(doc, s, [], ValueOf(PlanOf(doc, s, [])))
  {
    BuildableIff(doc, s);
    if ProblemsOf(FreePlanOf(doc, s, []), "") == {} {
      PlanFits(doc, s, [], "");
      assert Fits(doc, s, [], ValueOf(FreePlanOf(doc, s, [])));
    } else {
      var q :| q in ProblemsOf(FreePlanOf(doc, s, []), "");
      RefusedIff(doc, s, [], "", q);
      forall v ensures !Fits(doc, s, [], v) {
        if Fits(doc, s, [], v) {
          FittedIsNotRefused(doc, s, [], "", v, q);
        }
      }
    }
  }

  datatype Failure = TooManyValues | Refusal(problem: Problem)

  /** Why there is no value: too many are needed, a schema is too far away, or the schema itself has no example. */
  ghost predicate Explains(doc: Document, s: Option<Schema>, failure: Failure) {
    match failure
    case TooManyValues => SizeOf(PlanOf(doc, s, [])) > doc.maxNodes
    case Refusal(q) => (q.error == TooManyHops && TooFar(doc, s, [])) || Refuses(doc, s, [], "", q)
  }

  lemma FailureIsExplained(doc: Document, s: Option<Schema>, failure: Failure)
    requires failure.TooManyValues? ==> SizeOf(PlanOf(doc, s, [])) > doc.maxNodes
    requires failure.Refusal? ==> failure.problem in ProblemsOf(PlanOf(doc, s, []), "")
    ensures Explains(doc, s, failure)
  {
    if failure.Refusal? {
      ProblemIsReal(doc, s, [], "", failure.problem);
    }
  }

  datatype Step = Property(name: string) | Element

  datatype Place = Place(schema: Option<Schema>, open: seq<string>)

  /** The place one step below a place, if the document describes one. */
  ghost function Below(doc: Document, at: Place, step: Step): Option<Place> {
    match ShapeOf(doc, at.schema, at.open)
    case Object(ps, open) =>
      if step.Property? && step.name in ps then Some(Place(ps[step.name], open)) else None
    case List(t, open) =>
      if step.Element? then Some(Place(t, open)) else None
    case _ => None
  }

  /** Following a path of property names and array elements through the schemas. */
  ghost function Follow(doc: Document, at: Place, path: seq<Step>): Option<Place>
    decreases |path|
  {
    if path == [] then Some(at) else
    match Below(doc, at, path[0])
    case None => None
    case Some(next) => Follow(doc, next, path[1..])
  }

  /** Following the same path through a value; an array on it has exactly one element. */
  ghost function Lookup(v: Json, path: seq<Step>): Option<Json>
    decreases |path|
  {
    if path == [] then Some(v)
    else if path[0].Property? && v.JObject? && path[0].name in v.fields then Lookup(v.fields[path[0].name], path[1..])
    else if path[0].Element? && v.JArray? && |v.elems| == 1 then Lookup(v.elems[0], path[1..])
    else None
  }

  /** Every documented path is present in the example, with the example of the schema found there. */
  lemma {:induction false} DocumentedPathsArePresent(doc: Document, at: Place, path: seq<Step>)
    requires Follow(doc, at, path).Some?
    ensures var end := Follow(doc, at, path).value;
      Lookup(ValueOf(PlanOf(doc, at.schema, at.open)), path) == Some(ValueOf(PlanOf(doc, end.schema, end.open)))
    decreases |path|
  {
    if path != [] {
      DocumentedPathsArePresent(doc, Below(doc, at, path[0]).value, path[1..]);
    }
  }

  /** On a path no name is opened twice, and a null that cuts a recursion off is for a name open above. */
  lemma {:induction false} PathsOpenNamesOnce(doc: Document, at: Place, path: seq<Step>)
    requires OpenPath(doc, at.open) && Follow(doc, at, path).Some?
    ensures var end := Follow(doc, at, path).value;
      && at.open <= end.open && OpenPath(doc, end.open) && |end.open| <= |doc.schemas|
      && var r := Resolve(doc, end.schema, end.open, doc.maxHops);
         r.CutOff? ==> end.open <= r.open && OpenPath(doc, r.open) && r.name in r.open
    decreases |path|
  {
    if path == [] {
      DistinctCardinality(at.open);
      SubsetIsNotLarger(ToSet(at.open), doc.schemas.Keys);
    } else {
      ResolveOpens(doc, at.schema, at.open, doc.maxHops);
      PathsOpenNamesOnce(doc, Below(doc, at, path[0]).value, path[1..]);
    }
    var end := Follow(doc, at, path).value;
    ResolveOpens(doc, end.schema, end.open, doc.maxHops);
  }

  ghost predicate JsonWithin(v: Json, depth: int)
    decreases v
  {
    && depth >= 1
    && (v.JArray? ==> forall i :: 0 <= i < |v.elems| ==> JsonWithin(v.elems[i], depth - 1))
    && (v.JObject? ==> forall k :: k in v.fields ==> JsonWithin(v.fields[k], depth - 1))
  }

  /** A schema nests at most this deep without following a reference. */
  ghost predicate SchemaWithin(s: Option<Schema>, depth: int)
    decreases s
  {
    && depth >= 1
    && (s.Some? ==>
      && (forall k :: k in s.value.properties ==> SchemaWithin(s.value.properties[k], depth - 1))
      && (s.value.typ == ArrayType ==> SchemaWithin(s.value.items, depth - 1))
      && (forall i :: 0 <= i < |s.value.anyOf| ==> SchemaWithin(s.value.anyOf[i], depth))
      && (forall i :: 0 <= i < |s.value.oneOf| ==> SchemaWithin(s.value.oneOf[i], depth))
      && (forall i :: 0 <= i < |s.value.enum| ==> JsonWithin(s.value.enum[i], depth)))
  }

  ghost predicate NamedWithin(doc: Document, depth: int) {
    forall n :: n in doc.schemas ==> SchemaWithin(doc.schemas[n], depth)
  }

  lemma {:induction false} ResolveWithin(doc: Document, s: Option<Schema>, open: seq<string>, hops: nat, deepest: nat,
                                         depth: nat)
    requires NamedWithin(doc, deepest) && SchemaWithin(s, depth)
    requires Resolve(doc, s, open, hops).Found?
    ensures var r := Resolve(doc, s, open, hops);
      || (r.open == open && SchemaWithin(Some(r.schema), depth))
      || (|open| < |r.open| && SchemaWithin(Some(r.schema), deepest))
    decreases hops
  {
    if s.value.ref != NoRef {
      var name := s.value.ref.name;
      ResolveWithin(doc, doc.schemas[name], open + [name], hops - 1, deepest, deepest);
    } else if s.value.anyOf != [] {
      ResolveWithin(doc, s.value.anyOf[0], open, hops - 1, deepest, depth);
    } else if s.value.oneOf != [] {
      ResolveWithin(doc, s.value.oneOf[0], open, hops - 1, deepest, depth);
    }
  }

  /** Room for the names not open yet, times the deepest schema, plus the depth left. */
  ghost predicate Roomy(names: nat, open: seq<string>, deepest: nat, depth: nat, bound: int) {
    |open| <= names && Times(names - |open|, deepest) + depth <= bound
  }

  /** Repeated addition; the solver never sees a product. */
  ghost function Times(n: nat, d: nat): nat {
    if n == 0 then 0 else Times(n - 1, d) + d
  }

  lemma {:induction false} TimesGrows(m: nat, n: nat, d: nat)
    requires m < n
    ensures Times(m, d) + d <= Times(n, d)
    decreases n
  {
    if m < n - 1 {
      TimesGrows(m, n - 1, d);
    }
  }

  lemma {:induction false} TimesIsProduct(n: nat, d: nat)
    ensures Times(n, d) == n * d
  {
    if n > 0 {
      TimesIsProduct(n - 1, d);
      assert (n - 1) * d + d == n * d;
    }
  }

  /** The room left after resolving is still enough for the parts, one level lower. */
  lemma ResolvedBound(doc: Document, s: Option<Schema>, open: seq<string>, names: nat, deepest: nat, depth: nat,
                      bound: int)
    returns (depth': nat)
    requires NamedWithin(doc, deepest) && SchemaWithin(s, depth) && OpenPath(doc, open)
    requires Resolve(doc, s, open, doc.maxHops).Found?
    requires names == |doc.schemas| && Roomy(names, open, deepest, depth, bound)
    ensures var r := Resolve(doc, s, open, doc.maxHops);
      && SchemaWithin(Some(r.schema), depth') && 1 <= depth' <= bound && OpenPath(doc, r.open)
      && Roomy(names, r.open, deepest, depth' - 1, bound - 1)
  {
    ResolveWithin(doc, s, open, doc.maxHops, deepest, depth);
    ResolveOpens(doc, s, open, doc.maxHops);
    var r := Resolve(doc, s, open, doc.maxHops);
    DistinctCardinality(r.open);
    SubsetIsNotLarger(ToSet(r.open), doc.schemas.Keys);
    if r.open == open && SchemaWithin(Some(r.schema), depth) {
      depth' := depth;
    } else {
      depth' := deepest;
      TimesGrows(names - |r.open|, names - |open|, deepest);
    }
  }

  ghost predicate PlanWithin(p: Plan, depth: int)
    decreases p
  {
    && depth >= 1
    && (p.Done? ==> JsonWithin(p.value, depth))
    && (p.ObjectOf? ==> forall k :: k in p.parts ==> PlanWithin(p.parts[k], depth - 1))
    && (p.ListOf? ==> PlanWithin(p.item, depth - 1))
  }

  lemma {:induction false} ValueWithin(p: Plan, depth: int)
    requires PlanWithin(p, depth)
    ensures JsonWithin(ValueOf(p), depth)
    decreases p
  {
    match p
    case Fault(_) =>
    case Done(_) =>
    case ObjectOf(parts) =>
      forall k | k in parts ensures JsonWithin(ValueOf(parts[k]), depth - 1) {
        ValueWithin(parts[k], depth - 1);
      }
    case ListOf(item) =>
      ValueWithin(item, depth - 1);
  }

  /** What resolving leaves of a schema keeps its parts one level lower. */
  lemma ShapeWithin(doc: Document, s: Option<Schema>, open: seq<string>, depth: int)
    requires Resolve(doc, s, open, doc.maxHops).Found?
    requires SchemaWithin(Some(Resolve(doc, s, open, doc.maxHops).schema), depth)
    ensures var r := ShapeOf(doc, s, open);
      && (r.Object? ==> forall k :: k in r.properties ==> SchemaWithin(r.properties[k], depth - 1))
      && (r.List? ==> SchemaWithin(r.items, depth - 1))
      && (r.Finished? ==> JsonWithin(r.value, depth))
  {
  }

  ghost predicate IsPart(r: Shape, part: Option<Schema>) {
    (r.Object? && exists k :: k in r.properties && r.properties[k] == part) || (r.List? && r.items == part)
  }

  /** A plan has room when its parts have it one level lower. */
  lemma PlanIsWithin(doc: Document, s: Option<Schema>, open: seq<string>, r: Shape, depth: int)
    requires r == ShapeOf(doc, s, open) && depth >= 1
    requires r.Finished? ==> JsonWithin(r.value, depth)
    requires r.Object? || r.List? ==>
      forall part :: IsPart(r, part) ==> PlanWithin(PlanOf(doc, part, r.open), depth - 1)
    ensures PlanWithin(PlanOf(doc, s, open), depth)
  {
    assert r.Object? ==> forall k :: k in r.properties ==> IsPart(r, r.properties[k]);
    assert r.List? ==> IsPart(r, r.items);
  }

  /** The parts of a schema have the same room, one level lower. */
  lemma PartsBound(doc: Document, s: Option<Schema>, open: seq<string>, names: nat, deepest: nat, depth: nat,
                   bound: int, r: Shape)
    returns (below: nat)
    requires NamedWithin(doc, deepest) && SchemaWithin(s, depth) && OpenPath(doc, open)
    requires names == |doc.schemas| && Roomy(names, open, deepest, depth, bound) && r == ShapeOf(doc, s, open)
    ensures bound >= 1 && (r.Finished? ==> JsonWithin(r.value, bound))
    ensures r.Object? || r.List? ==>
      && OpenPath(doc, r.open) && Roomy(names, r.open, deepest, below, bound - 1)
      && forall part :: IsPart(r, part) ==> SchemaWithin(part, below)
  {
    below := 0;
    if Resolve(doc, s, open, doc.maxHops).Found? {
      var depth' := ResolvedBound(doc, s, open, names, deepest, depth, bound);
      ShapeWithin(doc, s, open, depth');
      below := depth' - 1;
      if r.Finished? {
        JsonWithinMore(r.value, depth', bound);
      }
    }
  }

  lemma PartDescends(doc: Document, s: Option<Schema>, open: seq<string>, r: Shape, part: Option<Schema>)
    requires r == ShapeOf(doc, s, open) && (r.Object? || r.List?) && IsPart(r, part)
    ensures (Unopened(doc, open), s decreases to Unopened(doc, r.open), part)
  {
    ShapeDescends(doc, s, open);
  }

  lemma PartBound(doc: Document, s: Option<Schema>, open: seq<string>, names: nat, deepest: nat, depth: nat, bound: int,
                  r: Shape, part: Option<Schema>)
    returns (below: nat)
    requires NamedWithin(doc, deepest) && SchemaWithin(s, depth) && OpenPath(doc, open)
    requires names == |doc.schemas| && Roomy(names, open, deepest, depth, bound)
    requires r == ShapeOf(doc, s, open) && (r.Object? || r.List?) && IsPart(r, part)
    ensures OpenPath(doc, r.open) && Roomy(names, r.open, deepest, below, bound - 1) && SchemaWithin(part, below)
  {
    below := PartsBound(doc, s, open, names, deepest, depth, bound, r);
  }

  lemma {:induction false} PlanDepth(doc: Document, s: Option<Schema>, open: seq<string>, names: nat, deepest: nat,
                                     depth: nat, bound: int, p: Plan)
    requires NamedWithin(doc, deepest) && SchemaWithin(s, depth) && OpenPath(doc, open)
    requires names == |doc.schemas| && Roomy(names, open, deepest, depth, bound)
    requires p == PlanOf(doc, s, open)
    ensures PlanWithin(p, bound)
    decreases Unopened(doc, open), s, 1
  {
    var r := ShapeOf(doc, s, open);
    var _ := PartsBound(doc, s, open, names, deepest, depth, bound, r);
    forall part | (r.Object? || r.List?) && IsPart(r, part) ensures PlanWithin(PlanOf(doc, part, r.open), bound - 1) {
      PartDepth(doc, s, open, names, deepest, depth, bound, r, part, PlanOf(doc, part, r.open));
    }
    PlanIsWithin(doc, s, open, r, bound);
  }

  lemma {:induction false} PartDepth(doc: Document, s: Option<Schema>, open: seq<string>, names: nat, deepest: nat,
                                     depth: nat, bound: int, r: Shape, part: Option<Schema>, p: Plan)
    requires NamedWithin(doc, deepest) && SchemaWithin(s, depth) && OpenPath(doc, open)
    requires names == |doc.schemas| && Roomy(names, open, deepest, depth, bound)
    requires r == ShapeOf(doc, s, open) && (r.Object? || r.List?) && IsPart(r, part)
    requires p == PlanOf(doc, part, r.open)
    ensures PlanWithin(p, bound - 1)
    decreases Unopened(doc, open), s, 0
  {
    PartDescends(doc, s, open, r, part);
    var below := PartBound(doc, s, open, names, deepest, depth, bound, r, part);
    PlanDepth(doc, part, r.open, names, deepest, below, bound - 1, p);
  }

  /** Recursion is cut off in time: the number of names times the deepest schema bounds the depth. */
  lemma DepthIsBounded(doc: Document, s: Option<Schema>, deepest: nat, depth: nat, bound: int)
    requires NamedWithin(doc, deepest) && SchemaWithin(s, depth)
    requires bound == |doc.schemas| * deepest + depth
    ensures JsonWithin(ValueOf(PlanOf(doc, s, [])), bound)
  {
    TimesIsProduct(|doc.schemas|, deepest);
    assert Roomy(|doc.schemas|, [], deepest, depth, bound);
    PlanDepth(doc, s, [], |doc.schemas|, deepest, depth, bound, PlanOf(doc, s, []));
    ValueWithin(PlanOf(doc, s, []), bound);
  }

  lemma {:induction false} JsonWithinMore(v: Json, depth: int, more: int)
    requires JsonWithin(v, depth) && depth <= more
    ensures JsonWithin(v, more)
    decreases v
  {
    if v.JArray? {
      forall i | 0 <= i < |v.elems| ensures JsonWithin(v.elems[i], more - 1) {
        JsonWithinMore(v.elems[i], depth - 1, more - 1);
      }
    } else if v.JObject? {
      forall k | k in v.fields ensures JsonWithin(v.fields[k], more - 1) {
        JsonWithinMore(v.fields[k], depth - 1, more - 1);
      }
    }
  }

  // ----- the store of half-built values -----

  datatype Val = Lit(json: Json) | Ref(cell: nat)

  datatype Cell = ObjectCell(fields: map<string, Val>) | ListCell(elem: Val)

  datatype Slot = RootSlot | FieldSlot(cell: nat, name: string) | ElemSlot(cell: nat)

  datatype Job = Job(schema: Option<Schema>, slot: Slot, open: seq<string>, at: string)

  /** A reference always points at a cell made later, so a value unfolds in finitely many steps. */
  ghost predicate Points(cells: seq<Cell>, from: int, v: Val) {
    v.Ref? ==> from < v.cell < |cells|
  }

  ghost predicate WellFormed(cells: seq<Cell>) {
    forall c :: 0 <= c < |cells| ==> WellFormedCell(cells, c)
  }

  ghost predicate WellFormedCell(cells: seq<Cell>, c: nat)
    requires c < |cells|
  {
    && (cells[c].ObjectCell? ==> forall k :: k in cells[c].fields ==> Points(cells, c, cells[c].fields[k]))
    && (cells[c].ListCell? ==> Points(cells, c, cells[c].elem))
  }

  predicate SlotExists(cells: seq<Cell>, slot: Slot) {
    match slot
    case RootSlot => true
    case FieldSlot(c, _) => c < |cells| && cells[c].ObjectCell?
    case ElemSlot(c) => c < |cells| && cells[c].ListCell?
  }

  /** The cell a slot belongs to; the root slot belongs to none. */
  function Owner(slot: Slot): int {
    if slot.RootSlot? then -1 else slot.cell
  }

  ghost function WaitingNames(waiting: map<Slot, Json>, c: nat): set<string> {
    set slot | slot in waiting.Keys && slot.FieldSlot? && slot.cell == c :: slot.name
  }

  /**
   The value a store stands for once every waiting slot has received its value. With
   nothing waiting it is the plain unfolding, which is what the JSON encoder writes.
   */
  ghost function Unfold(cells: seq<Cell>, waiting: map<Slot, Json>, v: Val): Json
    requires WellFormed(cells) && Points(cells, -1, v)
    decreases if v.Ref? then |cells| - v.cell else 0
  {
    match v
    case Lit(j) => j
    case Ref(c) =>
      assert WellFormedCell(cells, c);
      match cells[c]
      case ObjectCell(fields) =>
        JObject(map k | k in fields.Keys + WaitingNames(waiting, c) ::
          if FieldSlot(c, k) in waiting then waiting[FieldSlot(c, k)] else Unfold(cells, waiting, fields[k]))
      case ListCell(elem) =>
        JArray([if ElemSlot(c) in waiting then waiting[ElemSlot(c)] else Unfold(cells, waiting, elem)])
  }

  function WriteCell(cells: seq<Cell>, slot: Slot, v: Val): seq<Cell>
    requires SlotExists(cells, slot)
  {
    match slot
    case RootSlot => cells
    case FieldSlot(c, k) => cells[c := ObjectCell(cells[c].fields[k := v])]
    case ElemSlot(c) => cells[c := ListCell(v)]
  }

  /** What one step of the builder does to the store: fill one waiting slot, add cells above. */
  ghost predicate Filled(cells: seq<Cell>, waiting: map<Slot, Json>, cells': seq<Cell>, waiting': map<Slot, Json>,
                         slot: Slot, v: Val)
  {
    && WellFormed(cells) && WellFormed(cells')
    && SlotExists(cells, slot) && WriteCell(cells, slot, v) <= cells'
    && Points(cells', Owner(slot), v)
    && slot in waiting && slot !in waiting'
    && Unfold(cells', waiting', v) == waiting[slot]
    && (forall t :: t != slot && Owner(t) < |cells| ==> (t in waiting <==> t in waiting'))
    && (forall t :: t != slot && t in waiting && Owner(t) < |cells| ==> waiting[t] == waiting'[t])
  }

  /** What a filled or waiting name of an object cell holds. */
  ghost function Content(cells: seq<Cell>, waiting: map<Slot, Json>, c: nat, k: string): Json
    requires WellFormed(cells) && c < |cells| && cells[c].ObjectCell? && WellFormedCell(cells, c)
    requires k in cells[c].fields.Keys + WaitingNames(waiting, c)
  {
    if FieldSlot(c, k) in waiting then waiting[FieldSlot(c, k)] else Unfold(cells, waiting, cells[c].fields[k])
  }

  /** What an object cell unfolds to, name by name. */
  lemma UnfoldObject(cells: seq<Cell>, waiting: map<Slot, Json>, c: nat, fields: map<string, Json>)
    requires WellFormed(cells) && c < |cells| && cells[c].ObjectCell? && WellFormedCell(cells, c)
    requires fields.Keys == cells[c].fields.Keys + WaitingNames(waiting, c)
    requires forall k :: k in fields ==> fields[k] == Content(cells, waiting, c, k)
    ensures Unfold(cells, waiting, Ref(c)) == JObject(fields)
  {
    assert Unfold(cells, waiting, Ref(c)).fields == fields;
  }

  lemma WaitingNamesAre(waiting: map<Slot, Json>, c: nat, names: set<string>)
    requires forall k :: FieldSlot(c, k) in waiting <==> k in names
    ensures WaitingNames(waiting, c) == names
  {
    forall k ensures k in WaitingNames(waiting, c) <==> FieldSlot(c, k) in waiting {
      assert FieldSlot(c, k).name == k;
    }
  }

  /** Filling a slot with the value it waited for changes the meaning of nothing. */
  lemma {:induction false} FillKeepsMeaning(cells: seq<Cell>, waiting: map<Slot, Json>, cells': seq<Cell>,
                                            waiting': map<Slot, Json>, slot: Slot, v: Val, u: Val)
    requires Filled(cells, waiting, cells', waiting', slot, v)
    requires Points(cells, -1, u)
    ensures Points(cells', -1, u)
    ensures Unfold(cells', waiting', u) == Unfold(cells, waiting, u)
    decreases if u.Ref? then |cells| - u.cell else 0
  {
    if u.Ref? {
      var c := u.cell;
      assert cells'[c] == WriteCell(cells, slot, v)[c];
      assert WellFormedCell(cells, c) && WellFormedCell(cells', c);
      match cells[c]
      case ObjectCell(fields) =>
        forall k | k in fields && FieldSlot(c, k) !in waiting
          ensures Unfold(cells', waiting', fields[k]) == Unfold(cells, waiting, fields[k]) {
          FillKeepsMeaning(cells, waiting, cells', waiting', slot, v, fields[k]);
        }
        FillKeepsObject(cells, waiting, cells', waiting', slot, v, c);
      case ListCell(elem) =>
        if ElemSlot(c) !in waiting {
          FillKeepsMeaning(cells, waiting, cells', waiting', slot, v, elem);
        }
    }
  }

  /** An object whose filled properties keep their meaning keeps its own. */
  lemma FillKeepsObject(cells: seq<Cell>, waiting: map<Slot, Json>, cells': seq<Cell>, waiting': map<Slot, Json>,
                        slot: Slot, v: Val, c: nat)
    requires Filled(cells, waiting, cells', waiting', slot, v)
    requires c < |cells| && cells[c].ObjectCell? && WellFormedCell(cells, c) && WellFormedCell(cells', c)
    requires forall k :: k in cells[c].fields && FieldSlot(c, k) !in waiting ==>
      (&& Points(cells', -1, cells[c].fields[k])
       && Unfold(cells', waiting', cells[c].fields[k]) == Unfold(cells, waiting, cells[c].fields[k]))
    ensures Unfold(cells', waiting', Ref(c)) == Unfold(cells, waiting, Ref(c))
  {
    SameNames(cells, waiting, cells', waiting', slot, v, c);
    assert cells'[c] == WriteCell(cells, slot, v)[c];
    var kept := Unfold(cells, waiting, Ref(c)).fields;
    forall k | k in kept ensures kept[k] == Content(cells', waiting', c, k) {
      assert Owner(FieldSlot(c, k)) == c;
      assert kept[k] == Content(cells, waiting, c, k);
    }
    UnfoldObject(cells', waiting', c, kept);
  }

  /** An object keeps its set of filled or waiting names while one of them is filled. */
  lemma SameNames(cells: seq<Cell>, waiting: map<Slot, Json>, cells': seq<Cell>, waiting': map<Slot, Json>,
                  slot: Slot, v: Val, c: nat)
    requires Filled(cells, waiting, cells', waiting', slot, v)
    requires c < |cells| && cells[c].ObjectCell?
    ensures cells'[c].ObjectCell?
    ensures cells'[c].fields.Keys + WaitingNames(waiting', c) == cells[c].fields.Keys + WaitingNames(waiting, c)
  {
    assert cells'[c] == WriteCell(cells, slot, v)[c];
    forall k ensures k in WaitingNames(waiting, c) <==> FieldSlot(c, k) in waiting {
      assert FieldSlot(c, k).name == k;
    }
    forall k ensures k in WaitingNames(waiting', c) <==> FieldSlot(c, k) in waiting' {
      assert FieldSlot(c, k).name == k;
    }
    forall k ensures k in cells'[c].fields.Keys + WaitingNames(waiting', c)
                <==> k in cells[c].fields.Keys + WaitingNames(waiting, c) {
      assert Owner(FieldSlot(c, k)) == c;
    }
  }

  // ----- tasks: what the jobs of the queue stand for -----

  datatype Task = Task(plan: Plan, slot: Slot, at: string)

  ghost function Sizes(q: seq<Task>): seq<nat> {
    seq(|q|, i requires 0 <= i < |q| => SizeOf(q[i].plan))
  }

  ghost predicate QueueProblem(q: seq<Task>, f: Problem) {
    exists i :: 0 <= i < |q| && f in ProblemsOf(q[i].plan, q[i].at)
  }

  /** One task a waiting slot, and each slot waits for the value of its task. */
  ghost predicate Scheduled(q: seq<Task>, waiting: map<Slot, Json>) {
    && (forall i, j :: 0 <= i < j < |q| ==> q[i].slot != q[j].slot)
    && (forall i :: 0 <= i < |q| ==> q[i].slot in waiting && waiting[q[i].slot] == ValueOf(q[i].plan))
    && (forall slot :: slot in waiting ==> exists i :: 0 <= i < |q| && q[i].slot == slot)
  }

  ghost function PartTask(parts: map<string, Plan>, cell: nat, at: string, k: string): Task
    requires k in parts
  {
    Task(parts[k], FieldSlot(cell, k), at + "." + k)
  }

  /** One entry for each property of an object, in the order they are visited. */
  ghost function PartTasks(parts: map<string, Plan>, cell: nat, at: string, names: seq<string>): seq<Task>
    requires IsOrder(parts.Keys, names)
  {
    seq(|names|, i requires 0 <= i < |names| => assert names[i] in ToSet(names); PartTask(parts, cell, at, names[i]))
  }

  /** What a job leaves to be done. The order only matters for an object. */
  ghost function Children(t: Task, cell: nat, names: seq<string>): seq<Task>
    requires t.plan.ObjectOf? ==> IsOrder(t.plan.parts.Keys, names)
  {
    match t.plan
    case Fault(_) => []
    case Done(_) => []
    case ListOf(item) => [Task(item, ElemSlot(cell), t.at + "[]")]
    case ObjectOf(parts) => PartTasks(parts, cell, t.at, names)
  }

  ghost function FieldSlots(cell: nat, names: set<string>): (slots: set<Slot>)
    ensures forall slot :: slot in slots <==> slot.FieldSlot? && slot.cell == cell && slot.name in names
  {
    set k | k in names :: FieldSlot(cell, k)
  }

  /** The slots a new cell starts with, and what they wait for. */
  ghost function NewWaiting(p: Plan, cell: nat): map<Slot, Json> {
    match p
    case Fault(_) => map[]
    case Done(_) => map[]
    case ListOf(item) => map[ElemSlot(cell) := ValueOf(item)]
    case ObjectOf(parts) =>
      map slot | slot in FieldSlots(cell, parts.Keys) :: ValueOf(parts[slot.name])
  }

  lemma ObjectSize(parts: map<string, Plan>, sizes: map<string, nat>)
    requires sizes.Keys == parts.Keys
    requires forall k :: k in parts ==> sizes[k] == SizeOf(parts[k])
    ensures SizeOf(ObjectOf(parts)) == 1 + Sum(sizes)
  {
    assert sizes == map k | k in parts :: SizeOf(parts[k]);
  }

  lemma ChildrenSize(t: Task, cell: nat, names: seq<string>)
    requires t.plan.ObjectOf? ==> IsOrder(t.plan.parts.Keys, names)
    ensures SizeOf(t.plan) == 1 + Total(Sizes(Children(t, cell, names)))
  {
    var next := Children(t, cell, names);
    match t.plan
    case Fault(_) =>
    case Done(_) =>
    case ListOf(item) =>
      assert Sizes(next) == [SizeOf(item)];
    case ObjectOf(parts) =>
      var sizes: map<string, nat> := map k | k in parts :: SizeOf(parts[k]);
      ObjectSize(parts, sizes);
      SumInOrder(sizes, names);
      assert Sizes(next) == Along(sizes, names);
  }

  lemma ChildrenProblems(t: Task, cell: nat, names: seq<string>, f: Problem)
    requires !t.plan.Fault?
    requires t.plan.ObjectOf? ==> IsOrder(t.plan.parts.Keys, names)
    ensures f in ProblemsOf(t.plan, t.at) <==> QueueProblem(Children(t, cell, names), f)
  {
    var next := Children(t, cell, names);
    match t.plan
    case Done(_) =>
    case ListOf(item) =>
      assert next[0].plan == item;
    case ObjectOf(parts) =>
      if f in ProblemsOf(t.plan, t.at) {
        var k :| k in parts && f in ProblemsOf(parts[k], t.at + "." + k);
        assert k in ToSet(names);
        var i :| 0 <= i < |names| && names[i] == k;
        assert f in ProblemsOf(next[i].plan, next[i].at);
      }
      if QueueProblem(next, f) {
        var i :| 0 <= i < |next| && f in ProblemsOf(next[i].plan, next[i].at);
        assert names[i] in ToSet(names);
      }
  }

  lemma ChildrenScheduled(t: Task, cell: nat, names: seq<string>)
    requires t.plan.ObjectOf? ==> IsOrder(t.plan.parts.Keys, names)
    ensures Scheduled(Children(t, cell, names), NewWaiting(t.plan, cell))
  {
    var next := Children(t, cell, names);
    match t.plan
    case Fault(_) =>
    case Done(_) =>
    case ListOf(item) =>
      assert next[0].slot == ElemSlot(cell);
    case ObjectOf(parts) =>
      forall k | k in parts ensures exists i :: 0 <= i < |next| && next[i].slot == FieldSlot(cell, k) {
        assert k in ToSet(names);
        var i :| 0 <= i < |names| && names[i] == k;
        assert next[i].slot == FieldSlot(cell, k);
      }
      forall i | 0 <= i < |next| ensures names[i] in parts && next[i] == PartTask(parts, cell, t.at, names[i]) {
        assert names[i] in ToSet(names);
      }
  }

  lemma LastLeaves(q: seq<Task>, waiting: map<Slot, Json>, t: Task)
    requires Scheduled(q + [t], waiting)
    ensures Scheduled(q, waiting - {t.slot})
  {
    var all := q + [t];
    assert all[|q|] == t && forall i :: 0 <= i < |q| ==> all[i] == q[i];
    forall slot | slot in waiting - {t.slot} ensures exists i :: 0 <= i < |q| && q[i].slot == slot {
      var i :| 0 <= i < |all| && all[i].slot == slot;
      assert q[i].slot == slot;
    }
  }

  lemma BothScheduled(a: seq<Task>, waiting: map<Slot, Json>, b: seq<Task>, added: map<Slot, Json>)
    requires Scheduled(a, waiting) && Scheduled(b, added) && waiting.Keys !! added.Keys
    ensures Scheduled(a + b, waiting + added)
  {
    forall slot | slot in waiting + added ensures exists i :: 0 <= i < |a + b| && (a + b)[i].slot == slot {
      TaskIsThere(a, b, slot);
    }
  }

  lemma TaskIsThere(a: seq<Task>, b: seq<Task>, slot: Slot)
    requires (exists i :: 0 <= i < |a| && a[i].slot == slot) || (exists i :: 0 <= i < |b| && b[i].slot == slot)
    ensures exists i :: 0 <= i < |a + b| && (a + b)[i].slot == slot
  {
    if i :| 0 <= i < |a| && a[i].slot == slot {
      assert (a + b)[i].slot == slot;
    } else {
      var i :| 0 <= i < |b| && b[i].slot == slot;
      assert (a + b)[|a| + i].slot == slot;
    }
  }

  /** Queue bookkeeping of one step: the last task leaves, its children arrive. */
  lemma ScheduleStep(q: seq<Task>, waiting: map<Slot, Json>, t: Task, next: seq<Task>, added: map<Slot, Json>)
    requires Scheduled(q + [t], waiting) && Scheduled(next, added) && waiting.Keys !! added.Keys
    ensures Scheduled(q + next, waiting - {t.slot} + added)
  {
    LastLeaves(q, waiting, t);
    BothScheduled(q, waiting - {t.slot}, next, added);
  }

  /** A finished value is stored in its slot. */
  lemma LeafFills(cells: seq<Cell>, waiting: map<Slot, Json>, slot: Slot, json: Json)
    requires WellFormed(cells) && SlotExists(cells, slot)
    requires slot in waiting && waiting[slot] == json
    ensures Filled(cells, waiting, WriteCell(cells, slot, Lit(json)), waiting - {slot}, slot, Lit(json))
  {
    var cells' := WriteCell(cells, slot, Lit(json));
    forall c | 0 <= c < |cells'| ensures WellFormedCell(cells', c) {
      assert WellFormedCell(cells, c);
    }
  }

  function EmptyCell(p: Plan): Cell {
    if p.ListOf? then ListCell(Lit(JNull)) else ObjectCell(map[])
  }

  /** A new object whose properties all wait already stands for the whole object. */
  lemma EmptyObjectMeaning(cells: seq<Cell>, waiting: map<Slot, Json>, parts: map<string, Plan>, c: nat)
    requires WellFormed(cells) && c < |cells| && cells[c] == ObjectCell(map[]) && WellFormedCell(cells, c)
    requires forall k :: FieldSlot(c, k) in waiting <==> k in parts
    requires forall k :: k in parts ==> waiting[FieldSlot(c, k)] == ValueOf(parts[k])
    ensures Unfold(cells, waiting, Ref(c)) == ValueOf(ObjectOf(parts))
  {
    WaitingNamesAre(waiting, c, parts.Keys);
    UnfoldObject(cells, waiting, c, ValueOf(ObjectOf(parts)).fields);
  }

  /** A new cell with all its slots waiting already stands for the value of its plan. */
  lemma EmptyCellMeaning(cells: seq<Cell>, before: map<Slot, Json>, p: Plan, cell: nat)
    requires WellFormed(cells) && cell < |cells| && cells[cell] == EmptyCell(p) && WellFormedCell(cells, cell)
    requires p.ObjectOf? || p.ListOf?
    requires forall slot :: slot in before ==> Owner(slot) < cell
    ensures Unfold(cells, before + NewWaiting(p, cell), Ref(cell)) == ValueOf(p)
  {
    var added := NewWaiting(p, cell);
    if p.ObjectOf? {
      forall k ensures FieldSlot(cell, k) in before + added <==> k in p.parts {
        assert Owner(FieldSlot(cell, k)) == cell;
        assert FieldSlot(cell, k) in added <==> k in p.parts;
      }
      forall k | k in p.parts ensures (before + added)[FieldSlot(cell, k)] == ValueOf(p.parts[k]) {
        assert FieldSlot(cell, k) in added;
      }
      EmptyObjectMeaning(cells, before + added, p.parts, cell);
    } else {
      assert ElemSlot(cell) in added;
    }
  }

  /** A container is stored in its slot as a new cell whose parts are still to come. */
  lemma ContainerFills(cells: seq<Cell>, waiting: map<Slot, Json>, slot: Slot, p: Plan)
    requires WellFormed(cells) && SlotExists(cells, slot)
    requires slot in waiting && waiting[slot] == ValueOf(p)
    requires p.ObjectOf? || p.ListOf?
    requires forall t :: t in waiting ==> SlotExists(cells, t)
    ensures Filled(cells, waiting, WriteCell(cells, slot, Ref(|cells|)) + [EmptyCell(p)],
                   waiting - {slot} + NewWaiting(p, |cells|), slot, Ref(|cells|))
  {
    var cells' := WriteCell(cells, slot, Ref(|cells|)) + [EmptyCell(p)];
    var waiting' := waiting - {slot} + NewWaiting(p, |cells|);
    forall c | 0 <= c < |cells'| ensures WellFormedCell(cells', c) {
      if c < |cells| {
        assert WellFormedCell(cells, c);
      }
    }
    forall t ensures t in NewWaiting(p, |cells|) ==> Owner(t) == |cells| { }
    forall t ensures t in waiting ==> Owner(t) < |cells| { }
    EmptyCellMeaning(cells', waiting - {slot}, p, |cells|);
  }

  // ----- the imperative builder -----

  ghost function TaskOf(doc: Document, j: Job): Task {
    Task(PlanOf(doc, j.schema, j.open), j.slot, j.at)
  }

  ghost function TasksOf(doc: Document, q: seq<Job>): seq<Task> {
    seq(|q|, i requires 0 <= i < |q| => TaskOf(doc, q[i]))
  }

  /** The jobs of an object's properties. */
  method PropertyJobs(ps: map<string, Option<Schema>>, open: seq<string>, cell: nat, at: string)
    returns (next: seq<Job>, names: seq<string>)
    ensures IsOrder(ps.Keys, names) && ArePropertyJobs(ps, open, cell, at, names, next)
  {
    names := IterationOrder(ps);
    next := [];
    for i := 0 to |names|
      invariant |next| == i
      invariant forall k :: 0 <= k < i ==>
          names[k] in ToSet(names) && next[k] == PropertyJob(ps, open, cell, at, names[k])
    {
      assert names[i] in ToSet(names);
      next := next + [PropertyJob(ps, open, cell, at, names[i])];
    }
  }

  function PropertyJob(ps: map<string, Option<Schema>>, open: seq<string>, cell: nat, at: string, k: string): Job
    requires k in ps
  {
    Job(ps[k], FieldSlot(cell, k), open, at + "." + k)
  }

  ghost predicate ArePropertyJobs(ps: map<string, Option<Schema>>, open: seq<string>, cell: nat, at: string,
                                  names: seq<string>, next: seq<Job>)
  {
    |next| == |names| && forall k :: 0 <= k < |names| ==>
      names[k] in ps && next[k] == PropertyJob(ps, open, cell, at, names[k])
  }

  lemma PropertyTasks(doc: Document, ps: map<string, Option<Schema>>, open: seq<string>, cell: nat, at: string,
                      names: seq<string>, next: seq<Job>, parts: map<string, Plan>)
    requires IsOrder(ps.Keys, names) && ArePropertyJobs(ps, open, cell, at, names, next)
    requires parts.Keys == ps.Keys && forall k :: k in ps ==> parts[k] == PlanOf(doc, ps[k], open)
    ensures TasksOf(doc, next) == PartTasks(parts, cell, at, names)
  {
    forall i | 0 <= i < |names| ensures TasksOf(doc, next)[i] == PartTasks(parts, cell, at, names)[i] {
      assert names[i] in ToSet(names);
    }
    assert |TasksOf(doc, next)| == |PartTasks(parts, cell, at, names)|;
  }

  lemma {:induction false} TotalPositive(ns: seq<nat>)
    requires ns != [] && ns[|ns| - 1] >= 1
    ensures Total(ns) >= 1
  {
  }

  /** Node accounting of one step. */
  lemma StepSizes(rest: seq<Task>, t: Task, cell: nat, names: seq<string>)
    requires t.plan.ObjectOf? ==> IsOrder(t.plan.parts.Keys, names)
    ensures Total(Sizes(rest + [t])) == 1 + Total(Sizes(rest + Children(t, cell, names)))
  {
    var next := Children(t, cell, names);
    assert Sizes(rest + [t]) == Sizes(rest) + [SizeOf(t.plan)];
    assert Sizes(rest + next) == Sizes(rest) + Sizes(next);
    TotalAppend(Sizes(rest), [SizeOf(t.plan)]);
    TotalAppend(Sizes(rest), Sizes(next));
    assert Total([SizeOf(t.plan)]) == SizeOf(t.plan);
    ChildrenSize(t, cell, names);
  }

  /** Problem accounting of one step: a problem is still ahead if it was, and nothing new appears. */
  lemma StepProblems(rest: seq<Task>, t: Task, cell: nat, names: seq<string>, all: set<Problem>)
    requires !t.plan.Fault?
    requires t.plan.ObjectOf? ==> IsOrder(t.plan.parts.Keys, names)
    requires forall f :: f in all <==> QueueProblem(rest + [t], f)
    ensures forall f :: f in all <==> QueueProblem(rest + Children(t, cell, names), f)
  {
    var next := Children(t, cell, names);
    forall f ensures f in all <==> QueueProblem(rest + next, f) {
      ChildrenProblems(t, cell, names, f);
      QueueProblemAppend(rest, [t], f);
      QueueProblemAppend(rest, next, f);
      assert QueueProblem([t], f) <==> f in ProblemsOf([t][0].plan, [t][0].at);
    }
  }

  lemma QueueProblemAppend(a: seq<Task>, b: seq<Task>, f: Problem)
    ensures QueueProblem(a + b, f) <==> QueueProblem(a, f) || QueueProblem(b, f)
  {
    if QueueProblem(a, f) {
      var i :| 0 <= i < |a| && f in ProblemsOf(a[i].plan, a[i].at);
      assert (a + b)[i] == a[i];
    }
    if QueueProblem(b, f) {
      var i :| 0 <= i < |b| && f in ProblemsOf(b[i].plan, b[i].at);
      assert (a + b)[|a| + i] == b[i];
    }
  }

  /** What the queue promises about the whole plan p after some nodes are done. */
  ghost predicate Ledger(p: Plan, nodes: nat, q: seq<Task>, waiting: map<Slot, Json>) {
    && Scheduled(q, waiting)
    && nodes + Total(Sizes(q)) == SizeOf(p)
    && forall f :: f in ProblemsOf(p, "") <==> QueueProblem(q, f)
  }

  /** Replacing the last task by its children keeps every promise, one node further on. */
  lemma LedgerStep(p: Plan, nodes: nat, rest: seq<Task>, t: Task, waiting: map<Slot, Json>, cell: nat,
                   names: seq<string>)
    requires Ledger(p, nodes, rest + [t], waiting)
    requires !t.plan.Fault?
    requires t.plan.ObjectOf? ==> IsOrder(t.plan.parts.Keys, names)
    requires forall slot :: slot in waiting ==> Owner(slot) < cell
    ensures Ledger(p, nodes + 1, rest + Children(t, cell, names), waiting - {t.slot} + NewWaiting(t.plan, cell))
  {
    StepSizes(rest, t, cell, names);
    StepProblems(rest, t, cell, names, ProblemsOf(p, ""));
    ChildrenScheduled(t, cell, names);
    var added := NewWaiting(t.plan, cell);
    forall slot ensures slot in added ==> Owner(slot) == cell { }
    ScheduleStep(rest, waiting, t, Children(t, cell, names), added);
  }

  /** The last task is waited for, and its refusal is a problem of the whole plan. */
  lemma LedgerLast(p: Plan, nodes: nat, rest: seq<Task>, t: Task, waiting: map<Slot, Json>)
    requires Ledger(p, nodes, rest + [t], waiting)
    ensures t.slot in waiting && waiting[t.slot] == ValueOf(t.plan)
    ensures t.plan.Fault? ==> Problem(t.at, t.plan.error) in ProblemsOf(p, "")
  {
    assert (rest + [t])[|rest|] == t;
    if t.plan.Fault? {
      assert Problem(t.at, t.plan.error) in ProblemsOf((rest + [t])[|rest|].plan, t.at);
      assert QueueProblem(rest + [t], Problem(t.at, t.plan.error));
    }
  }

  lemma TasksOfAppend(doc: Document, a: seq<Job>, b: seq<Job>)
    ensures TasksOf(doc, a + b) == TasksOf(doc, a) + TasksOf(doc, b)
  {
    forall i | 0 <= i < |a + b| ensures TasksOf(doc, a + b)[i] == (TasksOf(doc, a) + TasksOf(doc, b))[i] {
    }
  }


  lemma TasksOfPush(doc: Document, q: seq<Job>, j: Job)
    ensures TasksOf(doc, q + [j]) == TasksOf(doc, q) + [TaskOf(doc, j)]
  {
    TasksOfAppend(doc, q, [j]);
  }

  /** What the last job of a queue is about. */
  lemma QueueLast(doc: Document, p: Plan, nodes: nat, queue: seq<Job>, waiting: map<Slot, Json>)
    requires queue != [] && Ledger(p, nodes, TasksOf(doc, queue), waiting)
    ensures var t := TaskOf(doc, queue[|queue| - 1]);
      && t.slot in waiting && waiting[t.slot] == ValueOf(t.plan)
      && (t.plan.Fault? ==> Problem(t.at, t.plan.error) in ProblemsOf(p, ""))
  {
    var init, j := queue[..|queue| - 1], queue[|queue| - 1];
    assert queue == init + [j];
    TasksOfPush(doc, init, j);
    LedgerLast(p, nodes, TasksOf(doc, init), TaskOf(doc, j), waiting);
  }

  /** The last job of a queue gives way to the jobs of its parts. */
  lemma QueueStep(doc: Document, p: Plan, nodes: nat, queue: seq<Job>, next: seq<Job>,
                  waiting: map<Slot, Json>, waiting': map<Slot, Json>, cell: nat, names: seq<string>)
    requires queue != [] && Ledger(p, nodes, TasksOf(doc, queue), waiting)
    requires var t := TaskOf(doc, queue[|queue| - 1]);
      && !t.plan.Fault?
      && (t.plan.ObjectOf? ==> IsOrder(t.plan.parts.Keys, names))
      && TasksOf(doc, next) == Children(t, cell, names)
      && waiting' == waiting - {t.slot} + NewWaiting(t.plan, cell)
    requires forall slot :: slot in waiting ==> Owner(slot) < cell
    ensures Ledger(p, nodes + 1, TasksOf(doc, queue[..|queue| - 1] + next), waiting')
  {
    var init, j := queue[..|queue| - 1], queue[|queue| - 1];
    assert queue == init + [j];
    TasksOfPush(doc, init, j);
    TasksOfAppend(doc, init, next);
    LedgerStep(p, nodes, TasksOf(doc, init), TaskOf(doc, j), waiting, cell, names);
  }

  /** The value a root stands for once every waiting slot is filled. */
  ghost function MeaningOf(cells: seq<Cell>, waiting: map<Slot, Json>, root: Val): Json
    requires WellFormed(cells) && Points(cells, -1, root)
  {
    if RootSlot in waiting then waiting[RootSlot] else Unfold(cells, waiting, root)
  }

  lemma FillKeepsRoot(cells: seq<Cell>, waiting: map<Slot, Json>, cells': seq<Cell>, waiting': map<Slot, Json>,
                      slot: Slot, v: Val, root: Val, root': Val)
    requires Filled(cells, waiting, cells', waiting', slot, v)
    requires Points(cells, -1, root)
    requires root' == if slot.RootSlot? then v else root
    ensures Points(cells', -1, root') && MeaningOf(cells', waiting', root') == MeaningOf(cells, waiting, root)
  {
    if slot != RootSlot {
      FillKeepsMeaning(cells, waiting, cells', waiting', slot, v, root);
    }
  }

  class Builder {
    const doc: Document
    var result: Val
    var cells: seq<Cell>
    var queue: seq<Job>
    /** What the unfilled slots will hold in the end. */
    ghost var waiting: map<Slot, Json>

    ghost predicate Valid()
      reads this
    {
      && WellFormed(cells)
      && Points(cells, -1, result)
      && forall slot :: slot in waiting ==> SlotExists(cells, slot)
    }

    /** The value the result will be once every slot is filled. */
    ghost function Meaning(): Json
      requires Valid()
      reads this
    {
      MeaningOf(cells, waiting, result)
    }

    constructor (doc: Document)
      ensures this.doc == doc && fresh(this)
    {
      this.doc := doc;
      result, cells, queue, waiting := Lit(JNull), [], [], map[];
    }

    /** The write a put closure of the source does. */
    method Put(slot: Slot, v: Val)
      requires SlotExists(cells, slot)
      modifies this`result, this`cells
      ensures cells == WriteCell(old(cells), slot, v)
      ensures result == if slot.RootSlot? then v else old(result)
    {
      if slot.RootSlot? {
        result := v;
      } else {
        cells := WriteCell(cells, slot, v);
      }
    }

    /** Stores the value of one job and returns the jobs for the values inside it. */
    method Expand(j: Job) returns (r: Result<seq<Job>, Error>, ghost names: seq<string>)
      requires Valid()
      requires j.slot in waiting && waiting[j.slot] == ValueOf(TaskOf(doc, j).plan)
      modifies this`result, this`cells, this`waiting
      ensures var p := TaskOf(doc, j).plan;
        && (r.Err? <==> p.Fault?)
        && (r.Err? ==> p == Fault(r.error))
        && (p.ObjectOf? ==> IsOrder(p.parts.Keys, names))
        && (r.Ok? ==> TasksOf(doc, r.value) == Children(TaskOf(doc, j), |old(cells)|, names))
        && (r.Ok? ==> waiting == old(waiting) - {j.slot} + NewWaiting(p, |old(cells)|))
      ensures r.Ok? ==> Valid() && Meaning() == old(Meaning())
    {
      ghost var p := TaskOf(doc, j).plan;
      var cell := |cells|;
      names := [];
      var found := ResolveLoop(doc, j.schema, j.open);
      ShapeDescends(doc, j.schema, j.open);
      match ShapeFrom(found)
      case Refused(e) =>
        r := Err(e);
      case Finished(v) =>
        Finish(j.slot, v);
        r := Ok([]);
      case Object(ps, open) =>
        Attach(j.slot, ObjectCell(map[]), p);
        var next, order := PropertyJobs(ps, open, cell, j.at);
        names := order;
        PropertyTasks(doc, ps, open, cell, j.at, order, next, p.parts);
        r := Ok(next);
      case List(t, open) =>
        Attach(j.slot, ListCell(Lit(JNull)), p);
        r := Ok([Job(t, ElemSlot(cell), open, j.at + "[]")]);
    }

    /** Stores a finished value in a slot. */
    method Finish(slot: Slot, v: Json)
      requires Valid()
      requires slot in waiting && waiting[slot] == v
      modifies this`result, this`cells, this`waiting
      ensures Valid() && Meaning() == old(Meaning())
      ensures waiting == old(waiting) - {slot}
    {
      LeafFills(cells, waiting, slot, v);
      Put(slot, Lit(v));
      waiting := waiting - {slot};
      FillKeepsRoot(old(cells), old(waiting), cells, waiting, slot, Lit(v), old(result), result);
    }

    /** Stores an empty container in a slot; its own slots now wait. */
    method Attach(slot: Slot, cell: Cell, ghost p: Plan)
      requires Valid()
      requires slot in waiting && waiting[slot] == ValueOf(p)
      requires p.ObjectOf? || p.ListOf?
      requires cell == EmptyCell(p)
      modifies this`result, this`cells, this`waiting
      ensures Valid() && Meaning() == old(Meaning())
      ensures waiting == old(waiting) - {slot} + NewWaiting(p, |old(cells)|)
    {
      var address := |cells|;
      ContainerFills(cells, waiting, slot, p);
      Put(slot, Ref(address));
      cells := cells + [cell];
      waiting := waiting - {slot} + NewWaiting(p, address);
      FillKeepsRoot(old(cells), old(waiting), cells, waiting, slot, Ref(address), old(result), result);
    }

    /** What every turn of the main loop keeps, for the plan of the root schema. */
    ghost predicate Running(p: Plan, nodes: nat)
      reads this
    {
      && Valid() && Meaning() == ValueOf(p)
      && Ledger(p, nodes, TasksOf(doc, queue), waiting)
    }

    /** One turn of the main loop: the last job is expanded and its children are pushed. */
    method Step(ghost p: Plan, ghost nodes: nat) returns (refused: Option<Problem>)
      requires Running(p, nodes) && queue != []
      modifies this
      ensures refused.Some? ==> refused.value in ProblemsOf(p, "")
      ensures refused.None? ==> Running(p, nodes + 1)
    {
      ghost var was, before, cell := queue, waiting, |cells|;
      QueueLast(doc, p, nodes, queue, waiting);
      var current := queue[|queue| - 1];
      queue := queue[..|queue| - 1];
      assert forall slot :: slot in before ==> Owner(slot) < cell;
      var expanded, names := Expand(current);
      if expanded.Err? {
        return Some(Problem(current.at, expanded.error));
      }
      QueueStep(doc, p, nodes, was, expanded.value, before, waiting, cell, names);
      queue := queue + expanded.value;
      refused := None;
    }

    /** With nothing queued, the store holds the whole value. */
    lemma NothingQueued(p: Plan, nodes: nat)
      requires Running(p, nodes) && queue == []
      ensures nodes == SizeOf(p) && ProblemsOf(p, "") == {}
      ensures Unfold(cells, map[], result) == ValueOf(p)
    {
      assert TasksOf(doc, queue) == [];
      assert Sizes([]) == [];
      assert waiting == map[];
    }

    lemma Ahead(p: Plan, nodes: nat)
      requires Running(p, nodes) && queue != []
      ensures SizeOf(p) > nodes
    {
      TotalPositive(Sizes(TasksOf(doc, queue)));
    }

    /** The main loop, until nothing is queued, something is refused or the bound is met. */
    method Work(ghost p: Plan) returns (r: Result<Val, Failure>)
      requires Running(p, 0)
      modifies this
      ensures r.Ok? <==> ProblemsOf(p, "") == {} && SizeOf(p) <= doc.maxNodes
      ensures r.Ok? ==> WellFormed(cells) && Points(cells, -1, r.value) && Unfold(cells, map[], r.value) == ValueOf(p)
      ensures r.Err? ==>
          if r.error.TooManyValues? then SizeOf(p) > doc.maxNodes else r.error.problem in ProblemsOf(p, "")
    {
      var nodes := 0;
      while queue != []
        invariant Running(p, nodes)
        invariant nodes <= doc.maxNodes
        decreases doc.maxNodes - nodes
      {
        if nodes == doc.maxNodes {
          Ahead(p, nodes);
          return Err(TooManyValues);
        }
        var refused := Step(p, nodes);
        if refused.Some? {
          return Err(Refusal(refused.value));
        }
        nodes := nodes + 1;
      }
      NothingQueued(p, nodes);
      r := Ok(result);
    }

    /**
     The value of a schema, or why there is none. Whatever the order of the properties:
     it succeeds exactly when no schema is too far away, there is an example, and it needs
     at most maxNodes values; then the result unfolds to the recursive definition, which is
     an example of the schema. A failure names a problem of the schema.
     */
    method Example(root: Option<Schema>) returns (r: Result<Val, Failure>)
      modifies this
      ensures var p := PlanOf(doc, root, []);
        && (r.Ok? <==> ProblemsOf(p, "") == {} && SizeOf(p) <= doc.maxNodes)
        && (r.Ok? ==> WellFormed(cells) && Points(cells, -1, r.value) && Unfold(cells, map[], r.value) == ValueOf(p))
      ensures r.Ok? ==> Fits(doc, root, [], Unfold(cells, map[], r.value))
      ensures r.Err? ==> Explains(doc, root, r.error)
    {
      ghost var p := PlanOf(doc, root, []);
      result, cells := Lit(JNull), [];
      queue := [Job(root, RootSlot, [], "")];
      waiting := map[RootSlot := ValueOf(p)];
      Start(root);
      r := Work(p);
      ExampleExistsIff(doc, root);
      if r.Err? {
        FailureIsExplained(doc, root, r.error);
      }
    }

    lemma Start(root: Option<Schema>)
      requires result == Lit(JNull) && cells == [] && queue == [Job(root, RootSlot, [], "")]
      requires waiting == map[RootSlot := ValueOf(PlanOf(doc, root, []))]
      ensures Running(PlanOf(doc, root, []), 0)
    {
      var p := PlanOf(doc, root, []);
      var tasks := TasksOf(doc, queue);
      assert tasks == [Task(p, RootSlot, "")];
      assert tasks[0].slot == RootSlot;
      assert Sizes(tasks) == [SizeOf(p)];
      assert Total([SizeOf(p)]) == SizeOf(p);
      forall f ensures f in ProblemsOf(p, "") <==> QueueProblem(tasks, f) {
        assert tasks[0].plan == p;
      }
    }
  }

  /** The tool's own call: the schemas of one document under the bounds of the source. */
  method ExampleOf(schemas: map<string, Option<Schema>>, root: Option<Schema>)
    returns (builder: Builder, r: Result<Val, Failure>)
    ensures fresh(builder) && builder.doc == Document(schemas, 32, 200_000)
    ensures r.Ok? <==>
        && !TooFar(builder.doc, root, []) && (exists v :: Fits(builder.doc, root, [], v))
        && SizeOf(PlanOf(builder.doc, root, [])) <= 200_000
    ensures r.Ok? ==> WellFormed(builder.cells) && Points(builder.cells, -1, r.value)
    ensures r.Ok? ==> Fits(builder.doc, root, [], Unfold(builder.cells, map[], r.value))
    ensures r.Err? ==> Explains(builder.doc, root, r.error)
  {
    builder := new Builder(Document(schemas, MAX_HOPS, MAX_NODES));
    r := builder.Example(root);
    ExampleExistsIff(builder.doc, root);
  }
}
