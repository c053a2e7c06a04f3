/** The CRD upgrade check: when does every stored object of the old schema stay valid under the new one? */
module SchemaUpgrade {
  import opened Wrappers

  datatype Value =
    | Scalar(text: string)
    | Object(fields: map<string, Value>)
    | Array(elements: seq<Value>)

  /** The keywords that must not change at all. */
  datatype Facet = Type | Format | Default | Pattern | Minimum | Maximum | MinLength | MaxLength | Validations

  /** What becomes of fields that are not declared: `additionalProperties` is absent, false, true or a schema. */
  datatype Rest = Dropped | Refused | Open | Typed(schema: Schema)

  /** The part of an OpenAPI schema the check reads; an empty enum is no enum. */
  datatype Schema = Schema(
    facets: map<Facet, Value>,
    enum: set<Value>,
    required: set<string>,
    properties: map<string, Schema>,
    items: Option<Schema>,
    rest: Rest)

  /** What the check demands of two schemas at the same place. */
  predicate LocallyCompatible(base: Schema, next: Schema) {
    && base.facets == next.facets
    && (base.enum == {} ==> next.enum == {})
    && base.enum <= next.enum
    && next.required <= base.required
    && base.properties.Keys <= next.properties.Keys
    && (base.items.Some? ==> next.items.Some?)
    && (base.rest.Typed? ==> next.rest.Typed?)
  }

  /** The recursive comparison: true exactly when it raises nothing. */
  predicate Compatible(base: Schema, next: Schema)
    decreases base
  {
    && LocallyCompatible(base, next)
    && (forall name <- base.properties :: Compatible(base.properties[name], next.properties[name]))
    && (base.items.Some? ==> Compatible(base.items.value, next.items.value))
    && (base.rest.Typed? ==> Compatible(base.rest.schema, next.rest.schema))
  }

  // ---------- an independent reading: every place of the old schema ----------

  datatype Step = Property(name: string) | Items | Additional

  function Child(s: Schema, step: Step): Option<Schema> {
    match step
    case Property(name) => if name in s.properties then Some(s.properties[name]) else None
    case Items => s.items
    case Additional => if s.rest.Typed? then Some(s.rest.schema) else None
  }

  function At(s: Schema, path: seq<Step>): Option<Schema>
    decreases |path|
  {
    if path == [] then Some(s)
    else
      var child := Child(s, path[0]);
      if child.None? then None else At(child.value, path[1..])
  }

  ghost predicate KeptAt(base: Schema, next: Schema, path: seq<Step>) {
    At(base, path).Some? ==> At(next, path).Some? && LocallyCompatible(At(base, path).value, At(next, path).value)
  }

  /** The comparison passes exactly when every place of the old schema is still there and compatible. */
  lemma CompatibleEverywhere(base: Schema, next: Schema)
    ensures Compatible(base, next) <==> forall path :: KeptAt(base, next, path)
  {
    if Compatible(base, next) {
      forall path ensures KeptAt(base, next, path) {
        CompatibleAt(base, next, path);
      }
    } else {
      var path, cause := BreakingPath(base, next);
    }
  }

  lemma {:induction false} CompatibleAt(base: Schema, next: Schema, path: seq<Step>)
    requires Compatible(base, next)
    ensures KeptAt(base, next, path)
    decreases |path|
  {
    if path != [] && Child(base, path[0]).Some? {
      CompatibleAt(Child(base, path[0]).value, Child(next, path[0]).value, path[1..]);
    }
  }

  // ---------- why an upgrade is rejected ----------

  datatype Cause =
    | FacetChanged(facet: Facet)
    | EnumAdded(value: Value)
    | ValueRemoved(value: Value)
    | FieldRequired(name: string)
    | PropertyGone(name: string)
    | ItemsGone
    | MapSchemaGone

  /** The cause holds of the two schemas at one place. */
  predicate Holds(base: Schema, next: Schema, cause: Cause) {
    match cause
    case FacetChanged(f) =>
      || (f in base.facets <==> f !in next.facets)
      || (f in base.facets && f in next.facets && base.facets[f] != next.facets[f])
    case EnumAdded(v) => base.enum == {} && v in next.enum
    case ValueRemoved(v) => v in base.enum && v !in next.enum
    case FieldRequired(name) => name in next.required && name !in base.required
    case PropertyGone(name) => name in base.properties && name !in next.properties
    case ItemsGone => base.items != None && next.items == None
    case MapSchemaGone => base.rest.Typed? && !next.rest.Typed?
  }

  /** The cause holds at a place that both schemas have. */
  ghost predicate HoldsAt(base: Schema, next: Schema, path: seq<Step>, cause: Cause) {
    At(base, path).Some? && At(next, path).Some? && Holds(At(base, path).value, At(next, path).value, cause)
  }

  /** Two schemas at one place are compatible unless one of these causes holds of them. */
  lemma LocalCause(base: Schema, next: Schema) returns (cause: Cause)
    ensures LocallyCompatible(base, next) || Holds(base, next, cause)
  {
    cause := ItemsGone;
    if f: Facet :| Holds(base, next, FacetChanged(f)) {
      cause := FacetChanged(f);
    } else if v :| v in next.enum && base.enum == {} {
      cause := EnumAdded(v);
    } else if v :| v in base.enum && v !in next.enum {
      cause := ValueRemoved(v);
    } else if name :| name in next.required && name !in base.required {
      cause := FieldRequired(name);
    } else if name :| name in base.properties && name !in next.properties {
      cause := PropertyGone(name);
    } else if base.rest.Typed? && !next.rest.Typed? {
      cause := MapSchemaGone;
    } else {
      SameFacets(base, next);
    }
  }

  lemma SameFacets(base: Schema, next: Schema)
    requires forall f: Facet :: !Holds(base, next, FacetChanged(f))
    ensures base.facets == next.facets
  {
    forall f: Facet
      ensures (f in base.facets <==> f in next.facets) && (f in base.facets ==> base.facets[f] == next.facets[f])
    {
      assert !Holds(base, next, FacetChanged(f));
    }
  }

  /** A rejected upgrade has a place and a cause. */
  lemma {:induction false} BreakingPath(base: Schema, next: Schema) returns (path: seq<Step>, cause: Cause)
    requires !Compatible(base, next)
    ensures !KeptAt(base, next, path) && HoldsAt(base, next, path, cause)
    decreases base
  {
    if !LocallyCompatible(base, next) {
      cause := LocalCause(base, next);
      return [], cause;
    }
    var step: Step;
    var rest: seq<Step>;
    if name :| name in base.properties && !Compatible(base.properties[name], next.properties[name]) {
      step := Property(name);
      rest, cause := BreakingPath(base.properties[name], next.properties[name]);
    } else if base.items.Some? && !Compatible(base.items.value, next.items.value) {
      step := Items;
      rest, cause := BreakingPath(base.items.value, next.items.value);
    } else {
      step := Additional;
      rest, cause := BreakingPath(base.rest.schema, next.rest.schema);
    }
    path := [step] + rest;
    assert path[1..] == rest;
  }

  /** An upgrade is rejected if and only if at some place of both schemas a keyword changed, an enum appeared
      or lost a value, a field became required, or a property, an item schema or a map schema is gone. */
  lemma RejectedExactlyWhen(base: Schema, next: Schema)
    ensures !Compatible(base, next) <==> exists path, cause :: HoldsAt(base, next, path, cause)
  {
    if !Compatible(base, next) {
      var path, cause := BreakingPath(base, next);
    } else {
      forall path, cause ensures !HoldsAt(base, next, path, cause) {
        CompatibleAt(base, next, path);
      }
    }
  }

  lemma CompatibleReflexive(s: Schema)
    ensures Compatible(s, s)
  {
    CompatibleEverywhere(s, s);
  }

  /** Upgrades that each pass also pass in one go. */
  lemma CompatibleTransitive(a: Schema, b: Schema, c: Schema)
    requires Compatible(a, b) && Compatible(b, c)
    ensures Compatible(a, c)
  {
    CompatibleEverywhere(a, b);
    CompatibleEverywhere(b, c);
    forall path ensures KeptAt(a, c, path) {
      assert KeptAt(a, b, path) && KeptAt(b, c, path);
    }
    CompatibleEverywhere(a, c);
  }

  // ---------- what the schemas mean ----------

  /** What the unchanged keywords say of a value: any function of the two. */
  type Meaning = (map<Facet, Value>, Value) -> bool

  predicate Valid(meaning: Meaning, s: Schema, v: Value)
    decreases v
  {
    && meaning(s.facets, v)
    && (s.enum != {} ==> v in s.enum)
    && match v
       case Scalar(_) => true
       case Object(fields) =>
         && s.required <= fields.Keys
         && (forall k <- fields ::
               if k in s.properties then Valid(meaning, s.properties[k], fields[k])
               else !s.rest.Refused? && (s.rest.Typed? ==> Valid(meaning, s.rest.schema, fields[k])))
       case Array(elements) => s.items.Some? ==> forall x <- elements :: Valid(meaning, s.items.value, x)
  }

  /** What the API server stores: only fields and elements that the schema describes. */
  predicate Pruned(s: Schema, v: Value)
    decreases v
  {
    match v
    case Scalar(_) => true
    case Object(fields) => forall k <- fields ::
      if k in s.properties then Pruned(s.properties[k], fields[k])
      else s.rest.Open? || (s.rest.Typed? && Pruned(s.rest.schema, fields[k]))
    case Array(elements) => s.items.Some? && forall x <- elements :: Pruned(s.items.value, x)
  }

  // ---------- exactly what an accepted upgrade keeps valid ----------

  /** The new schema accepts those parts of v that lie where the comparison never looked: fields the old
      schema did not declare, and elements of arrays it said nothing about. */
  predicate UnseenValid(meaning: Meaning, base: Schema, next: Schema, v: Value)
    decreases v
  {
    match v
    case Scalar(_) => true
    case Object(fields) => forall k <- fields ::
      if k in next.properties then
        if k in base.properties then UnseenValid(meaning, base.properties[k], next.properties[k], fields[k])
        else Valid(meaning, next.properties[k], fields[k])
      else if base.rest.Typed? && next.rest.Typed?
      then UnseenValid(meaning, base.rest.schema, next.rest.schema, fields[k])
      else !next.rest.Refused? && (next.rest.Typed? ==> Valid(meaning, next.rest.schema, fields[k]))
    case Array(elements) =>
      if base.items.Some? && next.items.Some?
      then forall x <- elements :: UnseenValid(meaning, base.items.value, next.items.value, x)
      else next.items.Some? ==> forall x <- elements :: Valid(meaning, next.items.value, x)
  }

  /** For all schemas and values: what was valid stays valid under an accepted upgrade if and only if its
      unseen parts are. */
  lemma {:induction false} StaysValidExactlyWhen(meaning: Meaning, base: Schema, next: Schema, v: Value)
    requires Compatible(base, next) && Valid(meaning, base, v)
    ensures Valid(meaning, next, v) <==> UnseenValid(meaning, base, next, v)
    decreases v
  {
    match v
    case Scalar(_) =>
    case Object(fields) =>
      forall k <- fields
        ensures k in base.properties ==>
          (Valid(meaning, next.properties[k], fields[k])
           <==> UnseenValid(meaning, base.properties[k], next.properties[k], fields[k]))
        ensures k !in next.properties && base.rest.Typed? ==>
          (Valid(meaning, next.rest.schema, fields[k])
           <==> UnseenValid(meaning, base.rest.schema, next.rest.schema, fields[k]))
      {
        if k in base.properties {
          StaysValidExactlyWhen(meaning, base.properties[k], next.properties[k], fields[k]);
        } else if k !in next.properties && base.rest.Typed? {
          StaysValidExactlyWhen(meaning, base.rest.schema, next.rest.schema, fields[k]);
        }
      }
    case Array(elements) =>
      if base.items.Some? {
        forall x <- elements
          ensures Valid(meaning, next.items.value, x) <==> UnseenValid(meaning, base.items.value, next.items.value, x)
        {
          StaysValidExactlyWhen(meaning, base.items.value, next.items.value, x);
        }
      }
  }

  // ---------- schemas under which nothing stored goes unseen ----------

  /** Nothing is declared where the old schema stored undeclared fields, and maps of anything are not
      restricted. */
  predicate CoveredHere(base: Schema, next: Schema) {
    && (base.rest.Open? || base.rest.Typed? ==> next.properties.Keys <= base.properties.Keys)
    && (base.rest.Open? ==> next.rest.Open? || next.rest.Dropped?)
  }

  predicate Covered(base: Schema, next: Schema)
    decreases base
  {
    && CoveredHere(base, next)
    && (forall k <- base.properties | k in next.properties :: Covered(base.properties[k], next.properties[k]))
    && (base.items.Some? && next.items.Some? ==> Covered(base.items.value, next.items.value))
    && (base.rest.Typed? && next.rest.Typed? ==> Covered(base.rest.schema, next.rest.schema))
  }

  /** An accepted upgrade that covers the old schema keeps every stored object valid, whatever the
      unchanged keywords mean. */
  lemma {:induction false} CoveredUpgradesAreSound(meaning: Meaning, base: Schema, next: Schema, v: Value)
    requires Compatible(base, next) && Covered(base, next)
    requires Pruned(base, v) && Valid(meaning, base, v)
    ensures Valid(meaning, next, v)
  {
    NothingUnseen(meaning, base, next, v);
    StaysValidExactlyWhen(meaning, base, next, v);
  }

  lemma {:induction false} NothingUnseen(meaning: Meaning, base: Schema, next: Schema, v: Value)
    requires Compatible(base, next) && Covered(base, next) && Pruned(base, v) && Valid(meaning, base, v)
    ensures UnseenValid(meaning, base, next, v)
    decreases v
  {
    match v
    case Scalar(_) =>
    case Object(fields) =>
      forall k <- fields
        ensures k in base.properties ==> UnseenValid(meaning, base.properties[k], next.properties[k], fields[k])
        ensures k !in base.properties && base.rest.Typed? ==>
          UnseenValid(meaning, base.rest.schema, next.rest.schema, fields[k])
      {
        if k in base.properties {
          NothingUnseen(meaning, base.properties[k], next.properties[k], fields[k]);
        } else if base.rest.Typed? {
          NothingUnseen(meaning, base.rest.schema, next.rest.schema, fields[k]);
        }
      }
    case Array(elements) =>
      forall x <- elements ensures UnseenValid(meaning, base.items.value, next.items.value, x) {
        NothingUnseen(meaning, base.items.value, next.items.value, x);
      }
  }

  /** Structural schemas: declared fields or a map, never both at one place. */
  predicate Structural(s: Schema) {
    && (s.properties == map[] || s.rest.Dropped?) && !s.rest.Refused?
    && (forall name <- s.properties :: Structural(s.properties[name]))
    && (s.items.Some? ==> Structural(s.items.value))
    && (s.rest.Typed? ==> Structural(s.rest.schema))
  }

  /** Maps of anything stay maps of anything. */
  predicate MapsStayOpen(base: Schema, next: Schema)
    decreases base
  {
    && (base.rest.Open? ==> next.rest.Open?)
    && (forall k <- base.properties | k in next.properties :: MapsStayOpen(base.properties[k], next.properties[k]))
    && (base.items.Some? && next.items.Some? ==> MapsStayOpen(base.items.value, next.items.value))
    && (base.rest.Typed? && next.rest.Typed? ==> MapsStayOpen(base.rest.schema, next.rest.schema))
  }

  lemma {:induction false} StructuralIsCovered(base: Schema, next: Schema)
    requires Compatible(base, next) && Structural(base) && Structural(next) && MapsStayOpen(base, next)
    ensures Covered(base, next)
    decreases base
  {
    forall k <- base.properties ensures Covered(base.properties[k], next.properties[k]) {
      StructuralIsCovered(base.properties[k], next.properties[k]);
    }
    if base.items.Some? {
      StructuralIsCovered(base.items.value, next.items.value);
    }
    if base.rest.Typed? {
      StructuralIsCovered(base.rest.schema, next.rest.schema);
    }
  }

  /** Between structural schemas an accepted upgrade that closes no map keeps every stored object valid
      and stored as it is. */
  lemma AcceptedUpgradesAreSound(meaning: Meaning, base: Schema, next: Schema, v: Value)
    requires Compatible(base, next) && Structural(base) && Structural(next) && MapsStayOpen(base, next)
    requires Pruned(base, v) && Valid(meaning, base, v)
    ensures Valid(meaning, next, v) && Pruned(next, v)
  {
    StructuralIsCovered(base, next);
    CoveredUpgradesAreSound(meaning, base, next, v);
    StaysPruned(base, next, v);
  }

  lemma {:induction false} StaysPruned(base: Schema, next: Schema, v: Value)
    requires Compatible(base, next) && Structural(base) && Structural(next) && MapsStayOpen(base, next)
    requires Pruned(base, v)
    ensures Pruned(next, v)
    decreases v
  {
    match v
    case Scalar(_) =>
    case Object(fields) =>
      forall k <- fields
        ensures k in next.properties ==> Pruned(next.properties[k], fields[k])
        ensures k !in next.properties ==> next.rest.Open? || (next.rest.Typed? && Pruned(next.rest.schema, fields[k]))
      {
        if k in base.properties {
          StaysPruned(base.properties[k], next.properties[k], fields[k]);
        } else if base.rest.Typed? {
          StaysPruned(base.rest.schema, next.rest.schema, fields[k]);
        }
      }
    case Array(elements) =>
      forall x <- elements ensures Pruned(next.items.value, x) {
        StaysPruned(base.items.value, next.items.value, x);
      }
  }

  // ---------- accepted upgrades that invalidate a stored object ----------

  const Anything := Schema(map[], {}, {}, map[], None, Dropped)
  const OnlyX := Anything.(enum := {Scalar("x")})

  /** The upgrade is accepted although a stored object becomes invalid. */
  ghost predicate Breaks(base: Schema, next: Schema) {
    var v := Object(map["a" := Scalar("y")]);
    var meaning := (f: map<Facet, Value>, x: Value) => true;
    Compatible(base, next) && Pruned(base, v) && Valid(meaning, base, v) && !Valid(meaning, next, v)
  }

  /** A property that narrows a map, outside structural schemas. */
  lemma NarrowedMapIsAccepted()
    ensures var base := Anything.(rest := Typed(Anything));
      var next := base.(properties := map["a" := OnlyX]);
      Breaks(base, next) && !Structural(next) && !Covered(base, next)
  {
    DeclaresA(map["a" := OnlyX], map["a" := Scalar("y")]);
  }

  const AnyMap := Anything.(rest := Open)

  /** A map of anything that becomes a map of something, between structural schemas. */
  lemma TypedMapIsAccepted()
    ensures var next := Anything.(rest := Typed(OnlyX));
      Breaks(AnyMap, next) && Structural(AnyMap) && Structural(next) && !Covered(AnyMap, next)
  {
    DeclaresA(map["a" := OnlyX], map["a" := Scalar("y")]);
  }

  /** A map of anything that becomes a list of declared fields, between structural schemas. */
  lemma DeclaredMapIsAccepted()
    ensures var next := Anything.(properties := map["a" := OnlyX]);
      Breaks(AnyMap, next) && Structural(AnyMap) && Structural(next) && !Covered(AnyMap, next)
  {
    DeclaresA(map["a" := OnlyX], map["a" := Scalar("y")]);
  }

  /** A map of anything that is closed. */
  lemma ClosedMapIsAccepted()
    ensures var next := Anything.(rest := Refused);
      Breaks(AnyMap, next) && !Covered(AnyMap, next)
  {
    DeclaresA(map["a" := OnlyX], map["a" := Scalar("y")]);
  }

  lemma DeclaresA(properties: map<string, Schema>, fields: map<string, Value>)
    requires properties == map["a" := OnlyX] && fields == map["a" := Scalar("y")]
    ensures "a" in properties && properties["a"] == OnlyX && "a" in fields && fields["a"] == Scalar("y")
  {}
}
