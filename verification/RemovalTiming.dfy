/** When the REST breakage check lets an operation or a property go, over the versions at which
    it may run, and how that fits the deadline check of check_deprecations.py. */
module RemovalTiming {
  import opened Wrappers
  import opened Text
  import opened Json
  import opened Versions
  import opened ChangePipeline
  import PropertyName
  import Lifecycle

  function At(context: Context, current: Version): Context { context.(current := current) }

  // ----- operations -----

  /** The dict of the removed operation in the baseline schema. */
  predicate InBaseline(previous: Json, op: Details, operation: Json) {
    operation.Obj? && operation == Get(Get(Get(previous, "paths"), op.path), Lower(op.verb))
  }

  predicate MarkedDeprecated(op: Details) {
    op.deprecated !in {Null, Bool(false), Num(0.0), Str(""), Arr([]), Obj(map[])}
  }

  /** The operation was deprecated, and its description in the baseline schedules its removal for v. */
  predicate Schedules(context: Context, op: Details, v: Version) {
    var operation := Get(Get(Get(context.previous, "paths"), op.path), Lower(op.verb));
    MarkedDeprecated(op) && InBaseline(context.previous, op, operation)
    && context.removedIn(Get(operation, "description")) == Some(v)
  }

  lemma OneChangeFails(r: Rules, context: Context, c: Change)
    ensures Failed(r, context, [c]) <==> Fails(r, context, c)
  {
    FailsByOne(r, context, [c]);
    assert [c][0] == c;
  }

  lemma OperationMayGoWhen(context: Context, op: Details, current: Version)
    ensures forall v | Schedules(context, op, v) :: OperationMayGo(At(context, current), op) <==> !Lt(current, v)
    ensures (forall v :: !Schedules(context, op, v)) ==> !OperationMayGo(At(context, current), op)
  {
    TruthyMeans(op.deprecated);
    var removedIn := context.removedIn(Get(BaselineOperation(context, op), "description"));
    if removedIn.Some? {
      Trichotomy(current, removedIn.value);
      assert Schedules(context, op, removedIn.value) <==>
        MarkedDeprecated(op) && BaselineOperation(context, op).Obj?;
    }
  }

  /** The removal of an operation passes at exactly the versions from the scheduled one on, and at
      none if the baseline schedules no removal. */
  lemma OperationRemovalTiming(r: Rules, context: Context, c: Change, current: Version)
    requires BucketOf(r, c) == CheckedOperation
    ensures forall v | Schedules(context, c.details, v) :: Failed(r, At(context, current), [c]) <==> Lt(current, v)
    ensures (forall v :: !Schedules(context, c.details, v)) ==> Failed(r, At(context, current), [c])
  {
    OneChangeFails(r, At(context, current), c);
    OperationMayGoWhen(context, c.details, current);
  }

  lemma TruthyMeans(value: Json)
    ensures Truthy(value) <==> value !in {Null, Bool(false), Num(0.0), Str(""), Arr([]), Obj(map[])}
  {}

  /** The two scripts agree on a scheduled route: at every version exactly one of them passes, the
      deadline check with the route kept or the breakage check with the route removed. */
  lemma KeepXorRemoveRoute(r: Rules, context: Context, c: Change, v: Version, current: Version, today: int,
                           deprecatedIn: Option<Version>)
    requires BucketOf(r, c) == CheckedOperation && Schedules(context, c.details, v)
    ensures var record := Lifecycle.DeprecationRecord(Lifecycle.RestRoute, Lifecycle.AtVersion(v), deprecatedIn);
            !Lifecycle.ShouldFail(current, today, record) <==> Failed(r, At(context, current), [c])
  {
    OperationRemovalTiming(r, context, c, current);
    Trichotomy(current, v);
  }

  // ----- properties -----

  /** One step down a schema: to a dict under a key, or to a dict in a list under a key. */
  datatype Turn = Value(key: string) | Item(key: string, index: nat)

  function Down(schema: Json, turn: Turn): (child: Option<Json>)
    ensures child.Some? ==> child.value.Obj? && child.value < schema
  {
    if !schema.Obj? || turn.key !in schema.fields then None
    else
      var value := schema.fields[turn.key];
      match turn
      case Value(_) => if value.Obj? then Some(value) else None
      case Item(_, index) =>
        if value.Arr? && index < |value.items| && value.items[index].Obj? then Some(value.items[index]) else None
  }

  function DownAll(schema: Json, turns: seq<Turn>): Option<Json>
    decreases |turns|
  {
    if turns == [] then Some(schema)
    else
      var child := Down(schema, turns[0]);
      if child.None? then None else DownAll(child.value, turns[1..])
  }

  predicate Own(schema: Json, name: string, property: Json) {
    && schema.Obj? && "properties" in schema.fields && schema.fields["properties"].Obj?
    && name in schema.fields["properties"].fields && property == schema.fields["properties"].fields[name]
    && property.Obj?
  }

  /** Somewhere in the schema a property of that name is declared as that dict. */
  ghost predicate HasProperty(schema: Json, name: string, property: Json) {
    exists turns :: DownAll(schema, turns).Some? && Own(DownAll(schema, turns).value, name, property)
  }

  lemma OwnIsFound(schema: Json, name: string, property: Json)
    requires Own(schema, name, property)
    ensures (name, property) in Properties(schema)
  {}

  lemma ChildIsFound(schema: Json, turn: Turn, found: (string, Json))
    requires Down(schema, turn).Some? && found in Properties(Down(schema, turn).value)
    ensures found in Properties(schema)
  {
    if turn.Item? {
      assert found in Properties(schema.fields[turn.key].items[turn.index]);
    }
  }

  lemma {:induction false} DeclaredIsFound(schema: Json, turns: seq<Turn>, name: string, property: Json)
    requires DownAll(schema, turns).Some? && Own(DownAll(schema, turns).value, name, property)
    ensures (name, property) in Properties(schema)
    decreases |turns|
  {
    if turns == [] {
      OwnIsFound(schema, name, property);
    } else {
      DeclaredIsFound(Down(schema, turns[0]).value, turns[1..], name, property);
      ChildIsFound(schema, turns[0], (name, property));
    }
  }

  lemma HasThrough(schema: Json, turn: Turn, name: string, property: Json)
    requires Down(schema, turn).Some? && HasProperty(Down(schema, turn).value, name, property)
    ensures HasProperty(schema, name, property)
  {
    var child := Down(schema, turn).value;
    var turns :| DownAll(child, turns).Some? && Own(DownAll(child, turns).value, name, property);
    assert ([turn] + turns)[1..] == turns;
    assert DownAll(schema, [turn] + turns) == DownAll(child, turns);
  }

  /** What is found is the node's own or found in a child. */
  lemma WhereFound(schema: Json, name: string, property: Json) returns (turn: Turn)
    requires (name, property) in Properties(schema) && !Own(schema, name, property)
    ensures Down(schema, turn).Some? && (name, property) in Properties(Down(schema, turn).value)
  {
    var found := (name, property);
    if key :| key in schema.fields && schema.fields[key].Obj? && found in Properties(schema.fields[key]) {
      turn := Value(key);
    } else {
      var key, i :| key in schema.fields && schema.fields[key].Arr? && 0 <= i < |schema.fields[key].items|
                    && found in Properties(schema.fields[key].items[i]);
      turn := Item(key, i);
    }
  }

  lemma {:induction false} FoundIsDeclared(schema: Json, name: string, property: Json)
    requires (name, property) in Properties(schema)
    ensures HasProperty(schema, name, property)
    decreases schema
  {
    if Own(schema, name, property) {
      assert DownAll(schema, []) == Some(schema);
    } else {
      var turn := WhereFound(schema, name, property);
      FoundIsDeclared(Down(schema, turn).value, name, property);
      HasThrough(schema, turn, name, property);
    }
  }

  /** The script finds exactly the properties declared somewhere in the schema. */
  lemma PropertiesIsExact(schema: Json, name: string, property: Json)
    ensures (name, property) in Properties(schema) <==> HasProperty(schema, name, property)
  {
    if (name, property) in Properties(schema) {
      FoundIsDeclared(schema, name, property);
    }
    if turns :| DownAll(schema, turns).Some? && Own(DownAll(schema, turns).value, name, property) {
      DeclaredIsFound(schema, turns, name, property);
    }
  }

  /** A deprecated property of that name in the baseline schedules its removal for v. */
  ghost predicate PropertySchedules(context: Context, name: string, property: Json, v: Version) {
    && HasProperty(context.previous, name, property)
    && property.Obj? && "deprecated" in property.fields && property.fields["deprecated"] == Bool(true)
    && context.removedIn(Get(property, "description")) == Some(v)
  }

  lemma MayGoMeans(context: Context, c: Change, name: string, current: Version)
    requires PropertyName.RemovedPropertyName(c.text) == Some(name)
    ensures PropertyMayGo(At(context, current), c) <==>
            exists property, v :: PropertySchedules(context, name, property, v) && !Lt(current, v)
  {
    if found :| found in Properties(context.previous) && IsCandidate(name, found)
                && ReachedIn(At(context, current), Get(found.1, "description")) {
      PropertiesIsExact(context.previous, name, found.1);
      var v := context.removedIn(Get(found.1, "description")).value;
      Trichotomy(current, v);
      assert PropertySchedules(context, name, found.1, v);
    }
    if property, v :| PropertySchedules(context, name, property, v) && !Lt(current, v) {
      PropertiesIsExact(context.previous, name, property);
      Trichotomy(current, v);
      assert IsCandidate(name, (name, property));
    }
  }

  /** The removal of a property that is checked passes exactly when some deprecated property of its
      name in the baseline schedules a removal that is reached; one without a name never passes. */
  lemma PropertyRemovalTiming(r: Rules, context: Context, c: Change, current: Version)
    requires BucketOf(r, c) == CheckedProperty
    ensures forall name | PropertyName.RemovedPropertyName(c.text) == Some(name) ::
              Failed(r, At(context, current), [c]) <==>
              !exists property, v :: PropertySchedules(context, name, property, v) && !Lt(current, v)
    ensures PropertyName.RemovedPropertyName(c.text) == None ==> Failed(r, At(context, current), [c])
  {
    OneChangeFails(r, At(context, current), c);
    if PropertyName.RemovedPropertyName(c.text).Some? {
      MayGoMeans(context, c, PropertyName.RemovedPropertyName(c.text).value, current);
    }
  }
}
