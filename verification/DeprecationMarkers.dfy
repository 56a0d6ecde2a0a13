/** What counts as a deprecation marker in a syntax tree, and what the visitor knows in the end:
    the names the tree marks, and for each name the metadata of the marker that decides. */
module DeprecationMarkers {
  import opened Wrappers
  import opened Text
  import opened DeprecationVisitor

  // ----- the forms of a marker -----

  /** The value that a call gives for a keyword: that of the first one of this name, if it is a
      string. */
  predicate Gives(names: seq<Option<string>>, values: seq<Node>, name: string, given: Option<string>) {
    if exists i | 0 <= i < |names| && i < |values| :: IsFirst(names, name, i)
    then exists i | 0 <= i < |names| && i < |values| :: IsFirst(names, name, i) && IsText(values[i], given)
    else given == None
  }

  predicate IsFirst(names: seq<Option<string>>, name: string, i: nat) {
    i < |names| && names[i] == Some(name) && forall j | 0 <= j < i :: names[j] != Some(name)
  }

  predicate IsText(node: Node, text: Option<string>) {
    if node.role.Str? then text == Some(node.role.text) else text == None
  }

  lemma {:induction false} KeywordMeans(names: seq<Option<string>>, values: seq<Node>, name: string,
                                        given: Option<string>)
    ensures StringKwarg(names, values, name) == given <==> Gives(names, values, name, given)
    decreases |names|
  {
    if names != [] && values != [] {
      if names[0] == Some(name) {
        assert IsFirst(names, name, 0);
      } else {
        KeywordMeans(names[1..], values[1..], name, given);
        forall i: nat | i < |names|
          ensures IsFirst(names, name, i) <==> i > 0 && IsFirst(names[1..], name, i - 1)
        {
          if i > 0 && IsFirst(names[1..], name, i - 1) {
            forall j | 0 < j < i
              ensures names[j] != Some(name)
            {
              assert names[1..][j - 1] == names[j];
            }
          }
          if IsFirst(names, name, i) {
            assert forall j | 0 <= j < i - 1 :: names[1..][j] == names[j + 1];
          }
        }
        FirstLater(names, values, name, given);
      }
    }
  }

  lemma FirstLater(names: seq<Option<string>>, values: seq<Node>, name: string, given: Option<string>)
    requires names != [] && values != [] && names[0] != Some(name)
    requires forall i: nat | i < |names| :: IsFirst(names, name, i) <==> i > 0 && IsFirst(names[1..], name, i - 1)
    ensures Gives(names, values, name, given) <==> Gives(names[1..], values[1..], name, given)
  {
    if i :| 0 <= i < |names| && i < |values| && IsFirst(names, name, i) {
      assert IsFirst(names[1..], name, i - 1) && values[1..][i - 1] == values[i];
    }
    if i :| 0 <= i < |names[1..]| && i < |values[1..]| && IsFirst(names[1..], name, i) {
      assert IsFirst(names, name, i + 1) && values[1..][i] == values[i + 1];
    }
  }

  /** A call of that name, plain or as an attribute. */
  predicate IsCallOf(node: Node, name: string) {
    node.role.Call? && (node.role.func.role == Name(name) || node.role.func.role == Attribute(name))
  }

  /** The first `@deprecated(...)` among the decorators is that call. */
  predicate DecoratedBy(decorators: seq<Node>, call: Role) {
    exists i | 0 <= i < |decorators| ::
      && IsCallOf(decorators[i], "deprecated") && decorators[i].role == call
      && forall j | 0 <= j < i :: !IsCallOf(decorators[j], "deprecated")
  }

  lemma {:induction false} DecoratorMeans(decorators: seq<Node>, call: Role)
    ensures DeprecatedDecorator(decorators) == Some(call) <==> DecoratedBy(decorators, call)
  {
    if decorators != [] {
      DecoratorMeans(decorators[1..], call);
      assert decorators[0].role.Call? && CalledName(decorators[0].role.func) == Some("deprecated")
        <==> IsCallOf(decorators[0], "deprecated");
      if !IsCallOf(decorators[0], "deprecated") {
        LaterDecorator(decorators, call);
      }
    }
  }

  lemma LaterDecorator(decorators: seq<Node>, call: Role)
    requires decorators != [] && !IsCallOf(decorators[0], "deprecated")
    ensures DecoratedBy(decorators, call) <==> DecoratedBy(decorators[1..], call)
  {
    var rest := decorators[1..];
    if i :| 0 <= i < |decorators| && IsCallOf(decorators[i], "deprecated") && decorators[i].role == call
            && forall j | 0 <= j < i :: !IsCallOf(decorators[j], "deprecated") {
      assert rest[i - 1] == decorators[i] && forall j | 0 <= j < i - 1 :: rest[j] == decorators[j + 1];
    }
    if i :| 0 <= i < |rest| && IsCallOf(rest[i], "deprecated") && rest[i].role == call
            && forall j | 0 <= j < i :: !IsCallOf(rest[j], "deprecated") {
      assert decorators[i + 1] == rest[i] && forall j | 0 < j < i + 1 :: decorators[j] == rest[j - 1];
    }
  }

  /** The metadata a call declares. */
  predicate Declared(call: Role, m: Metadata) {
    && call.Call? && Gives(call.kwNames, call.kwValues, "deprecated_in", m.deprecatedIn)
    && Gives(call.kwNames, call.kwValues, "removed_in", m.removedIn)
  }

  lemma DeclaredMeans(call: Role, m: Metadata)
    requires call.Call?
    ensures CallMetadata(call) == m <==> Declared(call, m)
  {
    KeywordMeans(call.kwNames, call.kwValues, "deprecated_in", m.deprecatedIn);
    KeywordMeans(call.kwNames, call.kwValues, "removed_in", m.removedIn);
  }

  /** Entry i of a dict display has that key and a string for a value. */
  predicate IsEntry(keys: seq<Option<Node>>, values: seq<Node>, key: string, i: nat) {
    && i < |keys| && i < |values| && keys[i].Some? && keys[i].value.role.Str? && keys[i].value.role.text == key
    && values[i].role.Str?
  }

  /** What a dict display holds under a key: the string of the first such entry. */
  predicate Holds(keys: seq<Option<Node>>, values: seq<Node>, key: string, given: Option<string>) {
    match given
    case None => forall i | 0 <= i < |keys| :: !IsEntry(keys, values, key, i)
    case Some(text) =>
      exists i | 0 <= i < |keys| ::
        && IsEntry(keys, values, key, i) && values[i].role.text == text
        && forall j | 0 <= j < i :: !IsEntry(keys, values, key, j)
  }

  lemma {:induction false} HoldsMeans(keys: seq<Option<Node>>, values: seq<Node>, key: string, given: Option<string>)
    ensures DictString(keys, values, key) == given <==> Holds(keys, values, key, given)
    decreases |keys|
  {
    if keys != [] && values != [] {
      if IsEntry(keys, values, key, 0) {
        assert DictString(keys, values, key) == StringOf(values[0]);
      } else {
        HoldsMeans(keys[1..], values[1..], key, given);
        HoldsLater(keys, values, key, given);
      }
    }
  }

  lemma HoldsLater(keys: seq<Option<Node>>, values: seq<Node>, key: string, given: Option<string>)
    requires keys != [] && values != [] && !IsEntry(keys, values, key, 0)
    ensures Holds(keys, values, key, given) <==> Holds(keys[1..], values[1..], key, given)
  {
    var ks, vs := keys[1..], values[1..];
    forall i: nat
      ensures IsEntry(ks, vs, key, i) <==> IsEntry(keys, values, key, i + 1)
    {}
    forall i: nat | 0 < i
      ensures IsEntry(keys, values, key, i) <==> IsEntry(ks, vs, key, i - 1)
    {}
    if given.Some? {
      if i :| 0 <= i < |keys| && IsEntry(keys, values, key, i) && values[i].role.text == given.value
              && forall j | 0 <= j < i :: !IsEntry(keys, values, key, j) {
        assert IsEntry(ks, vs, key, i - 1) && vs[i - 1].role.text == given.value;
      }
      if i :| 0 <= i < |ks| && IsEntry(ks, vs, key, i) && vs[i].role.text == given.value
              && forall j | 0 <= j < i :: !IsEntry(ks, vs, key, j) {
        assert IsEntry(keys, values, key, i + 1) && values[i + 1].role.text == given.value;
      }
    }
  }

  /** A registry dict declares an export deprecated. */
  predicate Registers(keys: seq<Option<Node>>, values: seq<Node>, name: string, m: Metadata) {
    exists i | 0 <= i < |keys| && i < |values| ::
      && keys[i].Some? && keys[i].value.role.Str? && keys[i].value.role.text == name && values[i].role.Dict?
      && Holds(values[i].role.keys, values[i].role.values, "deprecated_in", m.deprecatedIn)
      && Holds(values[i].role.keys, values[i].role.values, "removed_in", m.removedIn)
  }

  lemma EntryMeans(entry: Role, m: Metadata)
    requires entry.Dict?
    ensures Metadata(DictString(entry.keys, entry.values, "deprecated_in"),
                     DictString(entry.keys, entry.values, "removed_in")) == m
       <==> Holds(entry.keys, entry.values, "deprecated_in", m.deprecatedIn)
            && Holds(entry.keys, entry.values, "removed_in", m.removedIn)
  {
    HoldsMeans(entry.keys, entry.values, "deprecated_in", m.deprecatedIn);
    HoldsMeans(entry.keys, entry.values, "removed_in", m.removedIn);
  }

  lemma {:induction false} RegistersMeans(keys: seq<Option<Node>>, values: seq<Node>, marker: Marker)
    ensures marker in RegistryEntries(keys, values) <==>
            marker.top == Some(marker.feature) && Registers(keys, values, marker.feature, marker.metadata)
    decreases |keys|
  {
    if keys != [] && values != [] {
      RegistersMeans(keys[1..], values[1..], marker);
      if values[0].role.Dict? {
        EntryMeans(values[0].role, marker.metadata);
      }
      RegistersLater(keys, values, marker.feature, marker.metadata);
    }
  }

  predicate FirstRegisters(keys: seq<Option<Node>>, values: seq<Node>, name: string, m: Metadata)
    requires keys != [] && values != []
  {
    && keys[0].Some? && keys[0].value.role.Str? && keys[0].value.role.text == name && values[0].role.Dict?
    && Holds(values[0].role.keys, values[0].role.values, "deprecated_in", m.deprecatedIn)
    && Holds(values[0].role.keys, values[0].role.values, "removed_in", m.removedIn)
  }

  lemma RegistersLater(keys: seq<Option<Node>>, values: seq<Node>, name: string, m: Metadata)
    requires keys != [] && values != []
    ensures Registers(keys, values, name, m) <==>
            FirstRegisters(keys, values, name, m) || Registers(keys[1..], values[1..], name, m)
  {
    assert forall i | 0 < i < |keys| && i < |values| :: keys[1..][i - 1] == keys[i] && values[1..][i - 1] == values[i];
    if Registers(keys[1..], values[1..], name, m) {
      var ks, vs := keys[1..], values[1..];
      var i :| 0 <= i < |ks| && i < |vs|
               && ks[i].Some? && ks[i].value.role.Str? && ks[i].value.role.text == name && vs[i].role.Dict?
               && Holds(vs[i].role.keys, vs[i].role.values, "deprecated_in", m.deprecatedIn)
               && Holds(vs[i].role.keys, vs[i].role.values, "removed_in", m.removedIn);
      assert keys[i + 1] == ks[i] && values[i + 1] == vs[i];
    }
  }

  lemma {:induction false} TargetsMean(targets: seq<Node>, source: Node, marker: Marker)
    ensures marker in TargetMarkers(targets, source) <==>
            exists i | 0 <= i < |targets| :: marker in RegistryMarkers(targets[i], Some(source))
  {
    if targets != [] {
      TargetsMean(targets[1..], source, marker);
      assert forall i | 0 < i < |targets| :: targets[1..][i - 1] == targets[i];
      if i :| 0 <= i < |targets[1..]| && marker in RegistryMarkers(targets[1..][i], Some(source)) {
        assert targets[i + 1] == targets[1..][i];
      }
    }
  }

  /** The registry's name stands on the left. */
  predicate AssignsRegistry(target: Node, given: Option<Node>, name: string, m: Metadata) {
    && target.role == Name("_DEPRECATED_SDK_EXPORTS") && given.Some? && given.value.role.Dict?
    && Registers(given.value.role.keys, given.value.role.values, name, m)
  }

  lemma RegistryMeans(target: Node, given: Option<Node>, marker: Marker)
    ensures marker in RegistryMarkers(target, given) <==>
            marker.top == Some(marker.feature) && AssignsRegistry(target, given, marker.feature, marker.metadata)
  {
    if given.Some? && given.value.role.Dict? {
      RegistersMeans(given.value.role.keys, given.value.role.values, marker);
    }
  }

  /** The node, inside those classes, marks a feature with that metadata: a decorated class under its
      own name, a decorated function under its class path, a warning call under the text it names, and
      a registry under its keys. `top` is the top-level name it marks along with it. */
  ghost predicate Marks(node: Node, classes: seq<string>, feature: string, top: Option<string>, m: Metadata) {
    match node.role
    case ClassDef(name, decorators) =>
      && feature == name && top == Some(name)
      && exists call :: DecoratedBy(decorators, call) && Declared(call, m)
    case FunctionDef(name, decorators) =>
      && feature == Joined(classes + [name]) && top == (if classes == [] then Some(name) else None)
      && exists call :: DecoratedBy(decorators, call) && Declared(call, m)
    case Call(_, args, _, _) =>
      && IsCallOf(node, "warn_deprecated") && args != [] && args[0].role == Str(feature)
      && top == Some(Split(feature, '.')[0]) && Declared(node.role, m)
    case Assign(targets, source) =>
      top == Some(feature) && exists i | 0 <= i < |targets| :: AssignsRegistry(targets[i], Some(source), feature, m)
    case AnnAssign(target, given) => top == Some(feature) && AssignsRegistry(target, given, feature, m)
    case _ => false
  }

  lemma DecoratedMeans(decorators: seq<Node>, m: Metadata)
    ensures DeprecatedDecorator(decorators).Some? && CallMetadata(DeprecatedDecorator(decorators).value) == m
       <==> exists call :: DecoratedBy(decorators, call) && Declared(call, m)
  {
    if DeprecatedDecorator(decorators).Some? {
      DecoratorMeans(decorators, DeprecatedDecorator(decorators).value);
      DeclaredMeans(DeprecatedDecorator(decorators).value, m);
    }
    if call :| DecoratedBy(decorators, call) && Declared(call, m) {
      DecoratorMeans(decorators, call);
      DeclaredMeans(call, m);
    }
  }

  /** Visiting a node records exactly what it marks. */
  lemma MarkersMean(node: Node, classes: seq<string>, marker: Marker)
    ensures marker in Markers(node, classes) <==>
            Marks(node, classes, marker.feature, marker.top, marker.metadata)
  {
    match node.role
    case ClassDef(name, decorators) => DecoratedMeans(decorators, marker.metadata);
    case FunctionDef(name, decorators) => DecoratedMeans(decorators, marker.metadata);
    case Call(func, args, _, _) => DeclaredMeans(node.role, marker.metadata);
    case Assign(targets, source) =>
      TargetsMean(targets, source, marker);
      forall i | 0 <= i < |targets|
        ensures marker in RegistryMarkers(targets[i], Some(source)) <==>
                marker.top == Some(marker.feature)
                && AssignsRegistry(targets[i], Some(source), marker.feature, marker.metadata)
      {
        RegistryMeans(targets[i], Some(source), marker);
      }
    case AnnAssign(target, given) => RegistryMeans(target, given, marker);
    case _ =>
  }

  // ----- all markers of a tree, in the order of the visit -----

  function AllMarkers(node: Node, stack: seq<string>): seq<Marker>
    decreases node, 1, 0
  {
    Markers(node, stack) + MarkersFrom(node, 0, Inside(node, stack))
  }

  function MarkersFrom(node: Node, i: nat, stack: seq<string>): seq<Marker>
    requires i <= |node.children|
    decreases node, 0, |node.children| - i
  {
    if i == |node.children| then []
    else AllMarkers(node.children[i], stack) + MarkersFrom(node, i + 1, stack)
  }

  lemma {:induction false} NoteAllConcat(found: Symbols, a: seq<Marker>, b: seq<Marker>)
    ensures NoteAll(found, a + b) == NoteAll(NoteAll(found, a), b)
    decreases |a|
  {
    if a == [] {
      assert a + b == b;
    } else {
      assert (a + b)[1..] == a[1..] + b;
      NoteAllConcat(Note(found, a[0]), a[1..], b);
    }
  }

  /** The visit notes the markers of the tree one after another. */
  lemma {:induction false} VisitNotesAll(node: Node, stack: seq<string>, found: Symbols)
    ensures Visit(node, stack, found) == NoteAll(found, AllMarkers(node, stack))
    decreases node, 1, 0
  {
    VisitFromNotesAll(node, 0, Inside(node, stack), NoteAll(found, Markers(node, stack)));
    NoteAllConcat(found, Markers(node, stack), MarkersFrom(node, 0, Inside(node, stack)));
  }

  lemma {:induction false} VisitFromNotesAll(node: Node, i: nat, stack: seq<string>, found: Symbols)
    requires i <= |node.children|
    ensures VisitFrom(node, i, stack, found) == NoteAll(found, MarkersFrom(node, i, stack))
    decreases node, 0, |node.children| - i
  {
    if i < |node.children| {
      var child := node.children[i];
      VisitNotesAll(child, stack, found);
      VisitFromNotesAll(node, i + 1, stack, Visit(child, stack, found));
      NoteAllConcat(found, AllMarkers(child, stack), MarkersFrom(node, i + 1, stack));
    }
  }

  /** A node of the tree marks the feature, inside the classes around it. */
  ghost predicate MarksAt(node: Node, stack: seq<string>, path: seq<nat>, marker: Marker) {
    NodeAt(node, path).Some? &&
    Marks(NodeAt(node, path).value, stack + EnclosingClasses(node, path), marker.feature, marker.top, marker.metadata)
  }

  lemma MarksBelow(node: Node, stack: seq<string>, k: nat, path: seq<nat>, marker: Marker)
    requires k < |node.children|
    ensures MarksAt(node.children[k], Inside(node, stack), path, marker) <==> MarksAt(node, stack, [k] + path, marker)
  {
    var longer := [k] + path;
    assert longer[1..] == path;
    if NodeAt(node, longer).Some? {
      assert stack + EnclosingClasses(node, longer) == Inside(node, stack) + EnclosingClasses(node.children[k], path);
    }
  }

  /** Every marker of the visit stands somewhere in the tree ... */
  lemma {:induction false} WhereMarked(node: Node, stack: seq<string>, marker: Marker) returns (path: seq<nat>)
    requires marker in AllMarkers(node, stack)
    ensures MarksAt(node, stack, path, marker)
    decreases node, 1, 0
  {
    if marker in Markers(node, stack) {
      path := [];
      MarkersMean(node, stack, marker);
      assert stack + EnclosingClasses(node, []) == stack;
    } else {
      var k, rest := WhereMarkedFrom(node, 0, Inside(node, stack), marker);
      path := [k] + rest;
      MarksBelow(node, stack, k, rest, marker);
    }
  }

  lemma {:induction false} WhereMarkedFrom(node: Node, i: nat, stack: seq<string>, marker: Marker)
    returns (k: nat, path: seq<nat>)
    requires i <= |node.children| && marker in MarkersFrom(node, i, stack)
    ensures k < |node.children| && MarksAt(node.children[k], stack, path, marker)
    decreases node, 0, |node.children| - i
  {
    if marker in AllMarkers(node.children[i], stack) {
      k := i;
      path := WhereMarked(node.children[i], stack, marker);
    } else {
      k, path := WhereMarkedFrom(node, i + 1, stack, marker);
    }
  }

  lemma MarkersFromStep(node: Node, i: nat, stack: seq<string>)
    requires i < |node.children|
    ensures MarkersFrom(node, i, stack) == AllMarkers(node.children[i], stack) + MarkersFrom(node, i + 1, stack)
  {}

  /** What a part has, all from an earlier part on have. */
  lemma {:induction false} InLater(from: nat -> seq<Marker>, part: nat -> seq<Marker>, i: nat, k: nat, marker: Marker)
    requires i <= k && marker in part(k) && forall j | i <= j <= k :: from(j) == part(j) + from(j + 1)
    ensures marker in from(i)
    decreases k - i
  {
    if i < k {
      InLater(from, part, i + 1, k, marker);
    }
    assert from(i) == part(i) + from(i + 1);
  }

  lemma ChildMarkers(node: Node, i: nat, k: nat, stack: seq<string>, marker: Marker)
    requires i <= k < |node.children| && marker in AllMarkers(node.children[k], stack)
    ensures marker in MarkersFrom(node, i, stack)
  {
    var n := |node.children|;
    var from := (j: nat) => if j <= n then MarkersFrom(node, j, stack) else [];
    var part := (j: nat) => if j < n then AllMarkers(node.children[j], stack) else [];
    forall j: nat | i <= j <= k
      ensures from(j) == part(j) + from(j + 1)
    {
      MarkersFromStep(node, j, stack);
    }
    InLater(from, part, i, k, marker);
  }

  /** ... and every marker in the tree is visited. */
  lemma {:induction false} MarkedIsVisited(node: Node, stack: seq<string>, path: seq<nat>, marker: Marker)
    requires MarksAt(node, stack, path, marker)
    ensures marker in AllMarkers(node, stack)
    decreases |path|
  {
    if path == [] {
      assert stack + EnclosingClasses(node, []) == stack;
      MarkersMean(node, stack, marker);
    } else {
      assert [path[0]] + path[1..] == path;
      MarksBelow(node, stack, path[0], path[1..], marker);
      MarkedIsVisited(node.children[path[0]], Inside(node, stack), path[1..], marker);
      ChildMarkers(node, 0, path[0], Inside(node, stack), marker);
    }
  }

  // ----- what is known in the end -----

  /** The last marker of a feature. */
  predicate LastOf(markers: seq<Marker>, feature: string, i: nat) {
    i < |markers| && markers[i].feature == feature && forall j | i < j < |markers| :: markers[j].feature != feature
  }

  /** The first marker that marks a name along with its feature. */
  predicate FirstTop(markers: seq<Marker>, name: string, i: nat) {
    && i < |markers| && markers[i].top == Some(name)
    && (forall j | 0 <= j < i :: markers[j].top != Some(name))
  }

  /** What is known of a name: the metadata of its last own marker, or else that of the first marker
      that marks it along with something else. */
  predicate Known(markers: seq<Marker>, name: string, m: Option<Metadata>) {
    if exists i | 0 <= i < |markers| :: markers[i].feature == name
    then exists i | 0 <= i < |markers| :: LastOf(markers, name, i) && m == Some(markers[i].metadata)
    else if exists i | 0 <= i < |markers| :: markers[i].top == Some(name)
    then exists i | 0 <= i < |markers| :: FirstTop(markers, name, i) && m == Some(markers[i].metadata)
    else m == None
  }

  function MetadataOf(found: Symbols, name: string): Option<Metadata> {
    if name in found.metadata then Some(found.metadata[name]) else None
  }

  predicate MarksFeature(markers: seq<Marker>, name: string) {
    exists i | 0 <= i < |markers| :: markers[i].feature == name
  }

  predicate MarksTop(markers: seq<Marker>, name: string) {
    exists i | 0 <= i < |markers| :: markers[i].top == Some(name)
  }

  lemma KnownSnoc(rest: seq<Marker>, m: Marker, name: string, before: Option<Metadata>, after: Option<Metadata>)
    requires Known(rest, name, before)
    requires after == if m.feature == name || (m.top == Some(name) && before.None?) then Some(m.metadata) else before
    ensures Known(rest + [m], name, after)
  {
    var markers := rest + [m];
    assert markers[|rest|] == m && forall i | 0 <= i < |rest| :: markers[i] == rest[i];
    if m.feature == name {
      assert LastOf(markers, name, |rest|);
    } else if MarksFeature(rest, name) {
      var i :| 0 <= i < |rest| && LastOf(rest, name, i) && before == Some(rest[i].metadata);
      assert LastOf(markers, name, i);
    } else if MarksTop(rest, name) {
      var i :| 0 <= i < |rest| && FirstTop(rest, name, i) && before == Some(rest[i].metadata);
      assert FirstTop(markers, name, i);
    } else if m.top == Some(name) {
      assert FirstTop(markers, name, |rest|);
    }
  }

  lemma {:induction false} KnownAfter(markers: seq<Marker>, name: string)
    ensures Known(markers, name, MetadataOf(NoteAll(NOTHING, markers), name))
    ensures name in NoteAll(NOTHING, markers).qualified <==> MarksFeature(markers, name)
    ensures name in NoteAll(NOTHING, markers).topLevel <==> MarksTop(markers, name)
  {
    if markers != [] {
      var rest, m := markers[..|markers| - 1], markers[|markers| - 1];
      assert markers == rest + [m];
      KnownAfter(rest, name);
      var before := NoteAll(NOTHING, rest);
      NoteAllConcat(NOTHING, rest, [m]);
      assert NoteAll(before, [m]) == Note(before, m) by {
        assert [m][1..] == [];
      }
      KnownSnoc(rest, m, name, MetadataOf(before, name), MetadataOf(Note(before, m), name));
      MarksSnoc(rest, m, name);
    }
  }

  lemma MarksSnoc(rest: seq<Marker>, m: Marker, name: string)
    ensures MarksFeature(rest + [m], name) <==> MarksFeature(rest, name) || m.feature == name
    ensures MarksTop(rest + [m], name) <==> MarksTop(rest, name) || m.top == Some(name)
  {
    var markers := rest + [m];
    assert markers[|rest|] == m && forall i | 0 <= i < |rest| :: markers[i] == rest[i];
  }

  /** What the visitor knows of a file: the names it marks, the top-level names marked along with
      them, and for each name the metadata that decides. */
  lemma VisitKnows(root: Node, name: string)
    ensures var found := Visit(root, [], NOTHING);
            && (name in found.qualified <==> exists path, top, m :: MarksAt(root, [], path, Marker(name, top, m)))
            && (name in found.topLevel <==>
                exists path, feature, m :: MarksAt(root, [], path, Marker(feature, Some(name), m)))
            && Known(AllMarkers(root, []), name, MetadataOf(found, name))
  {
    var markers := AllMarkers(root, []);
    VisitNotesAll(root, [], NOTHING);
    KnownAfter(markers, name);
    if i :| 0 <= i < |markers| && markers[i].feature == name {
      var path := WhereMarked(root, [], markers[i]);
      assert MarksAt(root, [], path, Marker(name, markers[i].top, markers[i].metadata));
    }
    if i :| 0 <= i < |markers| && markers[i].top == Some(name) {
      var path := WhereMarked(root, [], markers[i]);
      assert MarksAt(root, [], path, Marker(markers[i].feature, Some(name), markers[i].metadata));
    }
    forall path, top, m | MarksAt(root, [], path, Marker(name, top, m))
      ensures MarksFeature(markers, name)
    {
      MarkedIsVisited(root, [], path, Marker(name, top, m));
    }
    forall path, feature, m | MarksAt(root, [], path, Marker(feature, Some(name), m))
      ensures MarksTop(markers, name)
    {
      MarkedIsVisited(root, [], path, Marker(feature, Some(name), m));
    }
  }

  /** A feature marked somewhere, and nowhere with other metadata, is known with that metadata: for a
      decorated function, the two strings its `@deprecated` gives for deprecated_in and removed_in. */
  lemma MarkedMetadata(root: Node, path: seq<nat>, top: Option<string>, name: string, m: Metadata)
    requires MarksAt(root, [], path, Marker(name, top, m))
    requires forall p, t, d | MarksAt(root, [], p, Marker(name, t, d)) :: d == m
    ensures name in Visit(root, [], NOTHING).metadata && Visit(root, [], NOTHING).metadata[name] == m
  {
    var markers := AllMarkers(root, []);
    VisitNotesAll(root, [], NOTHING);
    KnownAfter(markers, name);
    MarkedIsVisited(root, [], path, Marker(name, top, m));
    assert MarksFeature(markers, name);
    var i :| 0 <= i < |markers| && LastOf(markers, name, i)
             && MetadataOf(NoteAll(NOTHING, markers), name) == Some(markers[i].metadata);
    var p := WhereMarked(root, [], markers[i]);
    assert MarksAt(root, [], p, Marker(name, markers[i].top, markers[i].metadata));
  }

  // ----- over all files -----

  function KnownIn(file: Node, name: string): Option<Metadata> { MetadataOf(Visit(file, [], NOTHING), name) }

  /** The last of the files that knows the name. */
  predicate LastKnows(files: seq<Node>, name: string, i: nat) {
    i < |files| && KnownIn(files[i], name).Some? && forall j | i < j < |files| :: KnownIn(files[j], name).None?
  }

  predicate AnyKnows(files: seq<Node>, name: string) {
    exists i | 0 <= i < |files| :: KnownIn(files[i], name).Some?
  }

  /** What the last file that knows the name says. */
  predicate SaidLast(files: seq<Node>, name: string, m: Option<Metadata>) {
    if AnyKnows(files, name)
    then exists i | 0 <= i < |files| :: LastKnows(files, name, i) && m == KnownIn(files[i], name)
    else m == None
  }

  lemma SaidLastSnoc(rest: seq<Node>, file: Node, name: string, m: Option<Metadata>)
    requires SaidLast(rest, name, m)
    ensures SaidLast(rest + [file], name, if KnownIn(file, name).Some? then KnownIn(file, name) else m)
  {
    var files := rest + [file];
    assert files[|rest|] == file && forall i | 0 <= i < |rest| :: files[i] == rest[i];
    if KnownIn(file, name).Some? {
      assert LastKnows(files, name, |rest|);
    } else if AnyKnows(rest, name) {
      var i :| 0 <= i < |rest| && LastKnows(rest, name, i) && m == KnownIn(rest[i], name);
      assert LastKnows(files, name, i);
    }
  }

  /** Over all files, what is known of a name is what the last file that knows it says. */
  lemma {:induction false} CollectKnows(files: seq<Node>, name: string)
    ensures SaidLast(files, name, MetadataOf(Collect(files), name))
  {
    if files != [] {
      var rest, file := files[..|files| - 1], files[|files| - 1];
      assert files == rest + [file];
      CollectKnows(rest, name);
      SaidLastSnoc(rest, file, name, MetadataOf(Collect(rest), name));
    }
  }

  predicate MarkedIn(file: Node, name: string) { name in Visit(file, [], NOTHING).qualified }

  predicate TopIn(file: Node, name: string) { name in Visit(file, [], NOTHING).topLevel }

  lemma CollectSnoc(rest: seq<Node>, file: Node, name: string)
    ensures name in Collect(rest + [file]).qualified <==> name in Collect(rest).qualified || MarkedIn(file, name)
    ensures name in Collect(rest + [file]).topLevel <==> name in Collect(rest).topLevel || TopIn(file, name)
  {
    assert (rest + [file])[..|rest|] == rest;
  }

  predicate AnyMarks(files: seq<Node>, name: string) { exists i | 0 <= i < |files| :: MarkedIn(files[i], name) }

  predicate AnyTop(files: seq<Node>, name: string) { exists i | 0 <= i < |files| :: TopIn(files[i], name) }

  lemma AnySnoc(rest: seq<Node>, file: Node, name: string)
    ensures AnyMarks(rest + [file], name) <==> AnyMarks(rest, name) || MarkedIn(file, name)
    ensures AnyTop(rest + [file], name) <==> AnyTop(rest, name) || TopIn(file, name)
  {
    var files := rest + [file];
    assert files[|rest|] == file && forall i | 0 <= i < |rest| :: files[i] == rest[i];
  }

  /** ... and a name is marked if one of them marks it. */
  lemma {:induction false} CollectMarks(files: seq<Node>, name: string)
    ensures name in Collect(files).qualified <==> AnyMarks(files, name)
    ensures name in Collect(files).topLevel <==> AnyTop(files, name)
  {
    if files != [] {
      var rest, file := files[..|files| - 1], files[|files| - 1];
      assert files == rest + [file];
      CollectMarks(rest, name);
      CollectSnoc(rest, file, name);
      AnySnoc(rest, file, name);
    }
  }
}
