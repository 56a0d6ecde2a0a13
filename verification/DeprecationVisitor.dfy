/** The AST visitor of check_sdk_api_breakage.py that collects deprecation markers, with its
    class stack. */
module DeprecationVisitor {
  import opened Wrappers
  import opened Text

  /** A syntax tree node: the fields this visitor reads, and all child nodes in the order
      `generic_visit` takes them, decorators and call arguments included. */
  datatype Node = Node(role: Role, children: seq<Node>)

  datatype Role =
    | ClassDef(name: string, decorators: seq<Node>)
    | FunctionDef(name: string, decorators: seq<Node>)
    | Call(func: Node, args: seq<Node>, kwNames: seq<Option<string>>, kwValues: seq<Node>)
    | Name(id: string)
    | Attribute(attr: string)
    | Str(text: string)
    | Dict(keys: seq<Option<Node>>, values: seq<Node>)
    | Assign(targets: seq<Node>, source: Node)
    | AnnAssign(target: Node, given: Option<Node>)
    | Other

  datatype Metadata = Metadata(deprecatedIn: Option<string>, removedIn: Option<string>)

  const REGISTRY_NAMES: set<string> := {"_DEPRECATED_SDK_EXPORTS"}

  function StringOf(node: Node): Option<string> {
    if node.role.Str? then Some(node.role.text) else None
  }

  /** `_parse_string_kwarg`: the first keyword of that name decides. */
  function StringKwarg(names: seq<Option<string>>, values: seq<Node>, name: string): Option<string> {
    if names == [] || values == [] then None
    else if names[0] == Some(name) then StringOf(values[0])
    else StringKwarg(names[1..], values[1..], name)
  }

  function CallMetadata(call: Role): Metadata
    requires call.Call?
  {
    Metadata(StringKwarg(call.kwNames, call.kwValues, "deprecated_in"),
             StringKwarg(call.kwNames, call.kwValues, "removed_in"))
  }

  function CalledName(func: Node): Option<string> {
    match func.role
    case Name(id) => Some(id)
    case Attribute(attr) => Some(attr)
    case _ => None
  }

  /** The first `@deprecated(...)` of a decorator list. */
  function DeprecatedDecorator(decorators: seq<Node>): (call: Option<Role>)
    ensures call.Some? ==> call.value.Call?
  {
    if decorators == [] then None
    else if decorators[0].role.Call? && CalledName(decorators[0].role.func) == Some("deprecated")
    then Some(decorators[0].role)
    else DeprecatedDecorator(decorators[1..])
  }

  function Joined(names: seq<string>): string {
    if names == [] then "" else if |names| == 1 then names[0] else names[0] + "." + Joined(names[1..])
  }

  /** `_extract_dict_string_value`. */
  function DictString(keys: seq<Option<Node>>, values: seq<Node>, key: string): Option<string> {
    if keys == [] || values == [] then None
    else if keys[0].Some? && StringOf(keys[0].value) == Some(key) && values[0].role.Str? then StringOf(values[0])
    else DictString(keys[1..], values[1..], key)
  }

  // ----- what one node records -----

  /** A feature that a node declares deprecated; `top` is the name it adds to `top_level`. */
  datatype Marker = Marker(feature: string, top: Option<string>, metadata: Metadata)

  /** Registry entries of a `_DEPRECATED_SDK_EXPORTS` dict. */
  function RegistryEntries(keys: seq<Option<Node>>, values: seq<Node>): seq<Marker> {
    if keys == [] || values == [] then []
    else
      (if keys[0].Some? && keys[0].value.role.Str? && values[0].role.Dict? then
         var export_, entry := keys[0].value.role.text, values[0].role;
         [Marker(export_, Some(export_), Metadata(DictString(entry.keys, entry.values, "deprecated_in"),
                                                  DictString(entry.keys, entry.values, "removed_in")))]
       else []) + RegistryEntries(keys[1..], values[1..])
  }

  function RegistryMarkers(target: Node, value: Option<Node>): seq<Marker> {
    if target.role.Name? && target.role.id in REGISTRY_NAMES && value.Some? && value.value.role.Dict?
    then RegistryEntries(value.value.role.keys, value.value.role.values) else []
  }

  function TargetMarkers(targets: seq<Node>, value: Node): seq<Marker> {
    if targets == [] then [] else RegistryMarkers(targets[0], Some(value)) + TargetMarkers(targets[1..], value)
  }

  /** What visiting a node records before its children are visited. */
  function Markers(node: Node, stack: seq<string>): seq<Marker> {
    match node.role
    case ClassDef(name, decorators) =>
      (match DeprecatedDecorator(decorators)
       case Some(call) => [Marker(name, Some(name), CallMetadata(call))]
       case None => [])
    case FunctionDef(name, decorators) =>
      (match DeprecatedDecorator(decorators)
       case Some(call) =>
         [Marker(Joined(stack + [name]), if stack == [] then Some(name) else None, CallMetadata(call))]
       case None => [])
    case Call(func, args, _, _) =>
      if CalledName(func) == Some("warn_deprecated") && args != [] && args[0].role.Str? then
        [Marker(args[0].role.text, Some(Split(args[0].role.text, '.')[0]), CallMetadata(node.role))]
      else []
    case Assign(targets, source) => TargetMarkers(targets, source)
    case AnnAssign(target, given) => RegistryMarkers(target, given)
    case _ => []
  }

  /** The collected sets and the metadata dict. */
  datatype Symbols = Symbols(topLevel: set<string>, qualified: set<string>, metadata: map<string, Metadata>)

  const NOTHING := Symbols({}, {}, map[])

  function Note(found: Symbols, marker: Marker): Symbols {
    var noted := found.metadata[marker.feature := marker.metadata];
    match marker.top
    case None => Symbols(found.topLevel, found.qualified + {marker.feature}, noted)
    case Some(top) =>
      Symbols(found.topLevel + {top}, found.qualified + {marker.feature},
              if top in noted then noted else noted[top := marker.metadata])
  }

  function NoteAll(found: Symbols, markers: seq<Marker>): Symbols
    decreases |markers|
  {
    if markers == [] then found else NoteAll(Note(found, markers[0]), markers[1..])
  }

  function Inside(node: Node, stack: seq<string>): seq<string> {
    if node.role.ClassDef? then stack + [node.role.name] else stack
  }

  /** `visit`: record, then visit the children, inside the class if it is one. */
  function Visit(node: Node, stack: seq<string>, found: Symbols): Symbols
    decreases node, 1, 0
  {
    VisitFrom(node, 0, Inside(node, stack), NoteAll(found, Markers(node, stack)))
  }

  function VisitFrom(node: Node, i: nat, stack: seq<string>, found: Symbols): Symbols
    requires i <= |node.children|
    decreases node, 0, |node.children| - i
  {
    if i == |node.children| then found
    else VisitFrom(node, i + 1, stack, Visit(node.children[i], stack, found))
  }

  /** The visitor object, updated in place. */
  class Visitor {
    var classStack: seq<string>
    var topLevel: set<string>
    var qualified: set<string>
    var metadata: map<string, Metadata>

    function Found(): Symbols
      reads this
    {
      Symbols(topLevel, qualified, metadata)
    }

    constructor ()
      ensures classStack == [] && Found() == NOTHING
    {
      classStack, topLevel, qualified, metadata := [], {}, {}, map[];
    }

    method Record(marker: Marker)
      modifies this
      ensures classStack == old(classStack) && Found() == Note(old(Found()), marker)
    {
      if marker.top.Some? {
        topLevel := topLevel + {marker.top.value};
      }
      qualified := qualified + {marker.feature};
      metadata := metadata[marker.feature := marker.metadata];
      if marker.top.Some? && marker.top.value !in metadata {
        metadata := metadata[marker.top.value := marker.metadata];
      }
    }

    method RecordAll(markers: seq<Marker>)
      modifies this
      ensures classStack == old(classStack) && Found() == NoteAll(old(Found()), markers)
    {
      for i := 0 to |markers|
        invariant classStack == old(classStack)
        invariant NoteAll(Found(), markers[i..]) == NoteAll(old(Found()), markers)
      {
        Record(markers[i]);
        assert markers[i..][1..] == markers[i + 1..];
      }
    }

    /** The visit restores the class stack and collects what the specification says. */
    method VisitNode(node: Node)
      modifies this
      ensures classStack == old(classStack) && Found() == Visit(node, old(classStack), old(Found()))
      decreases node, 1
    {
      RecordAll(Markers(node, classStack));
      if node.role.ClassDef? {
        classStack := classStack + [node.role.name];
        GenericVisit(node);
        classStack := classStack[..|classStack| - 1];
      } else {
        GenericVisit(node);
      }
    }

    method GenericVisit(node: Node)
      modifies this
      ensures classStack == old(classStack) && Found() == VisitFrom(node, 0, old(classStack), old(Found()))
      decreases node, 0
    {
      for i := 0 to |node.children|
        invariant classStack == old(classStack)
        invariant VisitFrom(node, i, classStack, Found()) == VisitFrom(node, 0, classStack, old(Found()))
      {
        VisitNode(node.children[i]);
      }
    }
  }

  // ----- every name has metadata -----

  /** All names in either set are keys of the metadata. */
  predicate Described(found: Symbols) {
    found.topLevel <= found.metadata.Keys && found.qualified <= found.metadata.Keys
  }

  lemma {:induction false} NoteAllDescribed(found: Symbols, markers: seq<Marker>)
    requires Described(found)
    ensures Described(NoteAll(found, markers))
    decreases |markers|
  {
    if markers != [] {
      NoteAllDescribed(Note(found, markers[0]), markers[1..]);
    }
  }

  lemma {:induction false} VisitDescribed(node: Node, stack: seq<string>, found: Symbols)
    requires Described(found)
    ensures Described(Visit(node, stack, found))
    decreases node, 1, 0
  {
    NoteAllDescribed(found, Markers(node, stack));
    VisitFromDescribed(node, 0, Inside(node, stack), NoteAll(found, Markers(node, stack)));
  }

  lemma {:induction false} VisitFromDescribed(node: Node, i: nat, stack: seq<string>, found: Symbols)
    requires i <= |node.children| && Described(found)
    ensures Described(VisitFrom(node, i, stack, found))
    decreases node, 0, |node.children| - i
  {
    if i < |node.children| {
      VisitDescribed(node.children[i], stack, found);
      VisitFromDescribed(node, i + 1, stack, Visit(node.children[i], stack, found));
    }
  }

  /** The loop over the parsed files: a fresh visitor each, merged by union and update. */
  function Collect(files: seq<Node>): Symbols {
    if files == [] then NOTHING
    else
      var before, here := Collect(files[..|files| - 1]), Visit(files[|files| - 1], [], NOTHING);
      Symbols(before.topLevel + here.topLevel, before.qualified + here.qualified, before.metadata + here.metadata)
  }

  method FindDeprecatedSymbols(files: seq<Node>) returns (symbols: Symbols)
    ensures symbols == Collect(files)
  {
    symbols := NOTHING;
    for i := 0 to |files|
      invariant symbols == Collect(files[..i])
    {
      var visitor := new Visitor();
      visitor.VisitNode(files[i]);
      assert files[..i + 1][..i] == files[..i];
      symbols := Symbols(symbols.topLevel + visitor.topLevel, symbols.qualified + visitor.qualified,
                         symbols.metadata + visitor.metadata);
    }
    assert files[..|files|] == files;
  }

  lemma {:induction false} CollectDescribed(files: seq<Node>)
    ensures Described(Collect(files))
  {
    if files != [] {
      CollectDescribed(files[..|files| - 1]);
      VisitDescribed(files[|files| - 1], [], NOTHING);
    }
  }

  /** `metadata.get(name, fallback)`. */
  function MetadataOr(symbols: Symbols, name: string, fallback: Metadata): Metadata {
    if name in symbols.metadata then symbols.metadata[name] else fallback
  }

  /** `_member_deprecation_metadata`: the member itself, its class, then the first base that
      declares the member. */
  function MemberMetadata(symbols: Symbols, cls: string, member: string, bases: seq<string>, fallback: Metadata):
    Option<Metadata>
  {
    if cls + "." + member in symbols.qualified then Some(MetadataOr(symbols, cls + "." + member, fallback))
    else if cls in symbols.topLevel then Some(MetadataOr(symbols, cls, fallback))
    else BaseMetadata(symbols, member, bases, fallback)
  }

  function BaseMetadata(symbols: Symbols, member: string, bases: seq<string>, fallback: Metadata): Option<Metadata> {
    if bases == [] then None
    else if bases[0] + "." + member in symbols.qualified
    then Some(MetadataOr(symbols, bases[0] + "." + member, fallback))
    else BaseMetadata(symbols, member, bases[1..], fallback)
  }

  /** For every sequence of files, the lookups never fall back: no answer depends on the
      fallback value. */
  lemma FallbackNeverUsed(files: seq<Node>, cls: string, member: string, bases: seq<string>, a: Metadata, b: Metadata)
    ensures MemberMetadata(Collect(files), cls, member, bases, a)
         == MemberMetadata(Collect(files), cls, member, bases, b)
    ensures cls in Collect(files).topLevel ==> MetadataOr(Collect(files), cls, a) == MetadataOr(Collect(files), cls, b)
  {
    CollectDescribed(files);
    BaseFallback(Collect(files), member, bases, a, b);
  }

  lemma {:induction false} BaseFallback(symbols: Symbols, member: string, bases: seq<string>, a: Metadata, b: Metadata)
    requires Described(symbols)
    ensures BaseMetadata(symbols, member, bases, a) == BaseMetadata(symbols, member, bases, b)
    decreases |bases|
  {
    if bases != [] {
      BaseFallback(symbols, member, bases[1..], a, b);
    }
  }

  /** The first base that declares the member deprecated. */
  predicate FirstBase(symbols: Symbols, member: string, bases: seq<string>, i: nat) {
    && i < |bases| && bases[i] + "." + member in symbols.qualified
    && forall j | 0 <= j < i :: bases[j] + "." + member !in symbols.qualified
  }

  lemma {:induction false} BaseMeans(symbols: Symbols, member: string, bases: seq<string>, fallback: Metadata)
    requires Described(symbols)
    ensures BaseMetadata(symbols, member, bases, fallback) == None <==>
            forall i | 0 <= i < |bases| :: bases[i] + "." + member !in symbols.qualified
    ensures forall i | 0 <= i < |bases| && FirstBase(symbols, member, bases, i) ::
              BaseMetadata(symbols, member, bases, fallback) == Some(symbols.metadata[bases[i] + "." + member])
    decreases |bases|
  {
    if bases != [] && bases[0] + "." + member !in symbols.qualified {
      BaseMeans(symbols, member, bases[1..], fallback);
      assert forall i | 0 < i < |bases| :: bases[i] == bases[1..][i - 1];
      forall i | 0 <= i < |bases| && FirstBase(symbols, member, bases, i)
        ensures FirstBase(symbols, member, bases[1..], i - 1)
      {
        assert forall j | 0 <= j < i - 1 :: bases[1..][j] == bases[j + 1];
      }
    }
  }

  /** The schedule that holds for a member that was removed: its own, that of its class, or that of the
      first base with one; none of these, and it was not deprecated. */
  lemma MemberScheduled(files: seq<Node>, cls: string, member: string, bases: seq<string>, fallback: Metadata)
    ensures var known, found := Collect(files), MemberMetadata(Collect(files), cls, member, bases, fallback);
            && (cls + "." + member in known.qualified ==>
                  cls + "." + member in known.metadata && found == Some(known.metadata[cls + "." + member]))
            && (cls + "." + member !in known.qualified && cls in known.topLevel ==>
                  cls in known.metadata && found == Some(known.metadata[cls]))
            && (cls + "." + member !in known.qualified && cls !in known.topLevel ==>
                  (found == None <==> forall i | 0 <= i < |bases| :: bases[i] + "." + member !in known.qualified)
                  && forall i | 0 <= i < |bases| && FirstBase(known, member, bases, i) ::
                       bases[i] + "." + member in known.metadata
                       && found == Some(known.metadata[bases[i] + "." + member]))
  {
    CollectDescribed(files);
    BaseMeans(Collect(files), member, bases, fallback);
  }

  // ----- which names are collected -----

  /** The node a list of child positions leads to. */
  function NodeAt(node: Node, path: seq<nat>): Option<Node>
    decreases |path|
  {
    if path == [] then Some(node)
    else if path[0] < |node.children| then NodeAt(node.children[path[0]], path[1..])
    else None
  }

  /** The classes entered on the way there, outermost first. */
  function EnclosingClasses(node: Node, path: seq<nat>): seq<string>
    requires NodeAt(node, path).Some?
    decreases |path|
  {
    if path == [] then []
    else (if node.role.ClassDef? then [node.role.name] else []) + EnclosingClasses(node.children[path[0]], path[1..])
  }

  predicate Declares(markers: seq<Marker>, feature: string) {
    exists i | 0 <= i < |markers| :: markers[i].feature == feature
  }

  /** The node at `path` declares `feature`, seen from inside `stack` and its enclosing classes. */
  ghost predicate DeclaredAt(node: Node, stack: seq<string>, path: seq<nat>, feature: string) {
    NodeAt(node, path).Some? &&
    Declares(Markers(NodeAt(node, path).value, stack + EnclosingClasses(node, path)), feature)
  }

  lemma {:induction false} NoteAllNames(found: Symbols, markers: seq<Marker>, feature: string)
    ensures feature in NoteAll(found, markers).qualified <==> feature in found.qualified || Declares(markers, feature)
    decreases |markers|
  {
    if markers != [] {
      NoteAllNames(Note(found, markers[0]), markers[1..], feature);
      assert forall i | 0 < i < |markers| :: markers[i] == markers[1..][i - 1];
      assert Declares(markers, feature) <==> markers[0].feature == feature || Declares(markers[1..], feature) by {
        if i :| 0 <= i < |markers[1..]| && markers[1..][i].feature == feature {
          assert markers[i + 1].feature == feature;
        }
      }
    }
  }

  /** Some position from child i on declares the feature. */
  ghost predicate DeclaredFrom(node: Node, i: nat, stack: seq<string>, feature: string) {
    exists k: nat, path :: i <= k < |node.children| && DeclaredAt(node.children[k], stack, path, feature)
  }

  lemma DeclaredBelow(node: Node, stack: seq<string>, k: nat, path: seq<nat>, feature: string)
    requires k < |node.children|
    ensures DeclaredAt(node.children[k], Inside(node, stack), path, feature)
       <==> DeclaredAt(node, stack, [k] + path, feature)
  {
    var longer := [k] + path;
    assert longer[1..] == path;
    if NodeAt(node, longer).Some? {
      assert stack + EnclosingClasses(node, longer) == Inside(node, stack) + EnclosingClasses(node.children[k], path);
    }
  }

  /** For every syntax tree, the names collected are exactly those declared somewhere in it,
      each under its full enclosing-class path. */
  lemma {:induction false} CollectedNames(node: Node, stack: seq<string>, found: Symbols, feature: string)
    ensures feature in Visit(node, stack, found).qualified <==>
            feature in found.qualified || exists path :: DeclaredAt(node, stack, path, feature)
    decreases node, 1, 0
  {
    var noted := NoteAll(found, Markers(node, stack));
    NoteAllNames(found, Markers(node, stack), feature);
    CollectedFrom(node, 0, Inside(node, stack), noted, feature);
    assert stack + EnclosingClasses(node, []) == stack;
    assert DeclaredAt(node, stack, [], feature) <==> Declares(Markers(node, stack), feature);
    if k: nat, path :| k < |node.children| && DeclaredAt(node.children[k], Inside(node, stack), path, feature) {
      DeclaredBelow(node, stack, k, path, feature);
    }
    forall path | DeclaredAt(node, stack, path, feature) && path != []
      ensures DeclaredFrom(node, 0, Inside(node, stack), feature)
    {
      assert [path[0]] + path[1..] == path;
      DeclaredBelow(node, stack, path[0], path[1..], feature);
    }
  }

  lemma {:induction false} CollectedFrom(node: Node, i: nat, stack: seq<string>, found: Symbols, feature: string)
    requires i <= |node.children|
    ensures feature in VisitFrom(node, i, stack, found).qualified <==>
            feature in found.qualified || DeclaredFrom(node, i, stack, feature)
    decreases node, 0, |node.children| - i
  {
    if i < |node.children| {
      var child := node.children[i];
      CollectedNames(child, stack, found, feature);
      CollectedFrom(node, i + 1, stack, Visit(child, stack, found), feature);
      assert DeclaredFrom(node, i, stack, feature) <==>
             (exists path :: DeclaredAt(child, stack, path, feature)) || DeclaredFrom(node, i + 1, stack, feature);
    }
  }

  /** A decorated method is recorded under its full enclosing-class path. */
  lemma MethodRecorded(root: Node, path: seq<nat>)
    requires NodeAt(root, path).Some? && NodeAt(root, path).value.role.FunctionDef?
    requires DeprecatedDecorator(NodeAt(root, path).value.role.decorators).Some?
    ensures Joined(EnclosingClasses(root, path) + [NodeAt(root, path).value.role.name])
            in Visit(root, [], NOTHING).qualified
  {
    var node, classes := NodeAt(root, path).value, EnclosingClasses(root, path);
    var feature := Joined(classes + [node.role.name]);
    assert [] + classes == classes;
    assert Markers(node, classes)[0].feature == feature;
    assert DeclaredAt(root, [], path, feature);
    CollectedNames(root, [], NOTHING, feature);
  }
}
