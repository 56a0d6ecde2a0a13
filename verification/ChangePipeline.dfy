/** The classification of oasdiff's findings in check_agent_server_rest_api_breakage.py:
    the split, the filter chain, the removal validators and the verdict. */
module ChangePipeline {
  import opened Wrappers
  import opened Text
  import opened Json
  import opened Versions
  import PropertyName

  /** One oasdiff record; missing strings are empty, as `str(change.get(key, ""))` makes them. */
  datatype Change = Change(id: string, text: string, path: string, operation: string, operationId: string,
                           details: Details)
  datatype Details = Details(path: string, verb: string, deprecated: Json)

  /** The patterns of the script that take a regular expression, as oracles. */
  datatype Patterns = Patterns(extensibleDiscriminator: string -> bool, typeWidening: string -> bool)

  /** Python truth. */
  predicate Truthy(value: Json) {
    match value
    case Null => false
    case Bool(b) => b
    case Num(n) => n != 0.0
    case Str(s) => s != ""
    case Arr(items) => items != []
    case Obj(fields) => fields != map[]
  }

  // ----- the predicates of the script -----

  const ADDITIVE_IDS: set<string> := {"response-body-one-of-added", "response-property-one-of-added",
                                      "response-body-any-of-added", "response-property-any-of-added"}
  const ENUM_IDS: set<string> := {"response-property-enum-value-added",
                                  "response-write-only-property-enum-value-added"}

  predicate IsRemovedOperation(c: Change) { Contains(Lower(c.id), "removed") && Contains(Lower(c.id), "operation") }

  predicate IsRemovedProperty(c: Change) { Contains(Lower(c.id), "removed") && Contains(Lower(c.id), "property") }

  predicate IsAdditive(p: Patterns, c: Change) {
    c.id in ADDITIVE_IDS || (c.id in ENUM_IDS && p.extensibleDiscriminator(c.text))
  }

  /** What counts as an addition: a new alternative of a response, or a new value of an enumeration that
      is known to be open. */
  lemma AdditiveMeans(p: Patterns, c: Change)
    ensures IsAdditive(p, c) <==>
            || c.id == "response-body-one-of-added" || c.id == "response-body-any-of-added"
            || c.id == "response-property-one-of-added" || c.id == "response-property-any-of-added"
            || (p.extensibleDiscriminator(c.text)
                && (c.id == "response-property-enum-value-added"
                    || c.id == "response-write-only-property-enum-value-added"))
  {}

  predicate IsUnionPropertyArtifact(c: Change) {
    && IsRemovedProperty(c)
    && (Contains(Lower(c.text), "from the response") || Contains(Lower(c.text), "request property"))
  }

  predicate IsUnionTypeArtifact(c: Change) {
    Contains(Lower(c.text), "type/format changed from `object`/`` to ``/``")
  }

  predicate IsWidening(p: Patterns, c: Change) { p.typeWidening(c.text) }

  predicate IsMcpRepair(c: Change) {
    || (Contains(c.text, "response's property type/format changed from ``/`` to `object`/``")
        && (Contains(c.text, "/mcp_config/") || Contains(c.text, "/mcp_servers/") || Contains(c.text, "oauth_state/")))
    || ("removed `#/components/schemas/MCPNoneAuthCredential-Input` from the `" <= c.text
        && Contains(c.text, "/auth/") && Contains(c.text, "request property `oneOf` list"))
    || c.text == "removed `subschema #1` from the `agent_settings_diff` request property `anyOf` list"
  }

  predicate IsAcceptedPathRemoval(c: Change) {
    c.id == "api-path-removed-without-deprecation" && c.path == "/api/cloud-proxy"
    && Lower(c.operation) == "post" && c.operationId == "cloud_proxy_api_cloud_proxy_post"
  }

  predicate IsAcceptedDefaultRemoval(c: Change) {
    c.id == "request-parameter-default-value-removed" && c.path == "/api/vscode/url"
    && Lower(c.operation) == "get" && c.operationId == "get_vscode_url_api_vscode_url_get"
    && Contains(c.text, "request parameter `base_url`, default value `http://localhost:8001` was removed")
  }

  predicate IsAcceptedOperation(op: Details) {
    op.path == "/api/cloud-proxy" && Lower(op.verb) == "post" && op.deprecated == Bool(false)
  }

  /** The predicates by the role they play; the results below hold for any choice of them. */
  datatype Rules = Rules(removedOperation: Change -> bool, removedProperty: Change -> bool, additive: Change -> bool,
                         unionProperty: Change -> bool, unionType: Change -> bool, mcpRepair: Change -> bool,
                         widening: Change -> bool, pathRemoval: Change -> bool, defaultRemoval: Change -> bool,
                         acceptedOperation: Details -> bool)

  function ScriptRules(p: Patterns): Rules {
    Rules(c => IsRemovedOperation(c), c => IsRemovedProperty(c), c => IsAdditive(p, c),
          c => IsUnionPropertyArtifact(c), c => IsUnionTypeArtifact(c), c => IsMcpRepair(c),
          c => IsWidening(p, c), c => IsAcceptedPathRemoval(c), c => IsAcceptedDefaultRemoval(c),
          op => IsAcceptedOperation(op))
  }

  // ----- the split and the filters -----

  function Filter<T>(xs: seq<T>, keep: T -> bool): seq<T> {
    if xs == [] then []
    else Filter(xs[..|xs| - 1], keep) + if keep(xs[|xs| - 1]) then [xs[|xs| - 1]] else []
  }

  function Not<T>(p: T -> bool): T -> bool { x => !p(x) }

  function And<T>(p: T -> bool, q: T -> bool): T -> bool { x => p(x) && q(x) }

  function Reject<T>(xs: seq<T>, drop: T -> bool): seq<T> {
    Filter(xs, Not(drop))
  }

  lemma FilterSnoc<T>(xs: seq<T>, x: T, keep: T -> bool)
    ensures Filter(xs + [x], keep) == Filter(xs, keep) + if keep(x) then [x] else []
  {
    assert (xs + [x])[..|xs|] == xs;
  }

  lemma {:induction false} FilterSame<T>(xs: seq<T>, p: T -> bool, q: T -> bool)
    requires forall x :: p(x) <==> q(x)
    ensures Filter(xs, p) == Filter(xs, q)
  {
    if xs != [] {
      FilterSame(xs[..|xs| - 1], p, q);
    }
  }

  lemma {:induction false} FilterTwice<T>(xs: seq<T>, p: T -> bool, q: T -> bool)
    ensures Filter(Filter(xs, p), q) == Filter(xs, And(p, q))
  {
    if xs != [] {
      var rest, last := xs[..|xs| - 1], xs[|xs| - 1];
      FilterTwice(rest, p, q);
      if p(last) {
        FilterSnoc(Filter(rest, p), last, q);
      } else {
        assert Filter(xs, p) == Filter(rest, p);
      }
    }
  }

  /** A filter keeps every occurrence of what it keeps. */
  lemma {:induction false} FilterCounts<T>(xs: seq<T>, keep: T -> bool, x: T)
    ensures multiset(Filter(xs, keep))[x] == if keep(x) then multiset(xs)[x] else 0
  {
    if xs != [] {
      var rest, last := xs[..|xs| - 1], xs[|xs| - 1];
      FilterCounts(rest, keep, x);
      assert xs == rest + [last];
      assert multiset(xs) == multiset(rest) + multiset{last};
      assert Filter(xs, keep) == Filter(rest, keep) + if keep(last) then [last] else [];
    }
  }

  datatype Kind = OperationRemoval | PropertyRemoval | Additive | Remaining

  function KindOf(r: Rules, c: Change): Kind {
    if r.removedOperation(c) then OperationRemoval
    else if r.removedProperty(c) then PropertyRemoval
    else if r.additive(c) then Additive
    else Remaining
  }

  function HasKind(r: Rules, kind: Kind): Change -> bool { c => KindOf(r, c) == kind }

  function OfKind(r: Rules, changes: seq<Change>, kind: Kind): seq<Change> {
    Filter(changes, HasKind(r, kind))
  }

  function DetailsOf(changes: seq<Change>): seq<Details> {
    seq(|changes|, i requires 0 <= i < |changes| => changes[i].details)
  }

  /** `_split_breaking_changes`. Removed operations keep only their details. */
  method SplitBreakingChanges(r: Rules, changes: seq<Change>)
    returns (operations: seq<Details>, properties: seq<Change>, additive: seq<Change>, other: seq<Change>)
    ensures operations == DetailsOf(OfKind(r, changes, OperationRemoval))
    ensures properties == OfKind(r, changes, PropertyRemoval)
    ensures additive == OfKind(r, changes, Additive)
    ensures other == OfKind(r, changes, Remaining)
  {
    operations, properties, additive, other := [], [], [], [];
    for i := 0 to |changes|
      invariant operations == DetailsOf(OfKind(r, changes[..i], OperationRemoval))
      invariant properties == OfKind(r, changes[..i], PropertyRemoval)
      invariant additive == OfKind(r, changes[..i], Additive)
      invariant other == OfKind(r, changes[..i], Remaining)
    {
      var c := changes[i];
      KindSnoc(r, changes[..i], c);
      assert changes[..i + 1] == changes[..i] + [c];
      if r.removedOperation(c) {
        operations := operations + [c.details];
      } else if r.removedProperty(c) {
        properties := properties + [c];
      } else if r.additive(c) {
        additive := additive + [c];
      } else {
        other := other + [c];
      }
    }
    assert changes[..|changes|] == changes;
  }

  lemma KindSnoc(r: Rules, changes: seq<Change>, c: Change)
    ensures forall kind :: OfKind(r, changes + [c], kind)
                        == OfKind(r, changes, kind) + (if KindOf(r, c) == kind then [c] else [])
    ensures DetailsOf(OfKind(r, changes + [c], OperationRemoval))
         == DetailsOf(OfKind(r, changes, OperationRemoval))
            + if KindOf(r, c) == OperationRemoval then [c.details] else []
  {
    forall kind
      ensures OfKind(r, changes + [c], kind) == OfKind(r, changes, kind) + (if KindOf(r, c) == kind then [c] else [])
    {
      FilterSnoc(changes, c, HasKind(r, kind));
    }
  }

  /** Where a change ends up after the split and every filter. */
  datatype Bucket =
    | AcceptedOperation | CheckedOperation | PropertyArtifact | CheckedProperty | AdditiveUnion
    | TypeArtifact | McpRepair | Widening | PathRemoval | DefaultRemoval | Breaking

  function BucketOf(r: Rules, c: Change): Bucket {
    match KindOf(r, c)
    case OperationRemoval => if r.acceptedOperation(c.details) then AcceptedOperation else CheckedOperation
    case PropertyRemoval => if r.unionProperty(c) then PropertyArtifact else CheckedProperty
    case Additive => AdditiveUnion
    case Remaining =>
      if r.unionType(c) then TypeArtifact
      else if r.mcpRepair(c) then McpRepair
      else if r.widening(c) then Widening
      else if r.pathRemoval(c) then PathRemoval
      else if r.defaultRemoval(c) then DefaultRemoval
      else Breaking
  }

  /** The lists of `main` after the filter chain; an operation is known by its details. */
  datatype Lists = Lists(acceptedOperations: seq<Details>, operations: seq<Details>, propertyArtifacts: seq<Change>,
                         properties: seq<Change>, additive: seq<Change>, typeArtifacts: seq<Change>,
                         repairs: seq<Change>, widenings: seq<Change>, pathRemovals: seq<Change>,
                         defaultRemovals: seq<Change>, breaking: seq<Change>)

  function HasBucket(r: Rules, bucket: Bucket): Change -> bool { c => BucketOf(r, c) == bucket }

  function InBucket(r: Rules, changes: seq<Change>, bucket: Bucket): seq<Change> {
    Filter(changes, HasBucket(r, bucket))
  }

  /** Filtering by one more test gives a bucket. */
  lemma Stage(changes: seq<Change>, before: Change -> bool, test: Change -> bool, r: Rules, bucket: Bucket)
    requires forall c :: before(c) && test(c) <==> HasBucket(r, bucket)(c)
    ensures Filter(Filter(changes, before), test) == InBucket(r, changes, bucket)
  {
    FilterTwice(changes, before, test);
    FilterSame(changes, And(before, test), HasBucket(r, bucket));
  }

  /** The five filters in order, and the list of notices each one fills. */
  function FilterTest(r: Rules, n: nat): Change -> bool
    requires n < 5
  {
    if n == 0 then r.unionType else if n == 1 then r.mcpRepair else if n == 2 then r.widening
    else if n == 3 then r.pathRemoval else r.defaultRemoval
  }

  function FilterBucket(n: nat): Bucket
    requires n < 5
  {
    if n == 0 then TypeArtifact else if n == 1 then McpRepair else if n == 2 then Widening
    else if n == 3 then PathRemoval else DefaultRemoval
  }

  /** Left over by the split and passed by the first n filters. */
  function Passed(r: Rules, n: nat): Change -> bool
    requires n <= 5
  {
    if n == 0 then HasKind(r, Remaining) else And(Passed(r, n - 1), Not(FilterTest(r, n - 1)))
  }

  /** The nth filter's bucket is what it takes and no earlier filter did. */
  lemma PassedBucket(r: Rules, n: nat, c: Change)
    requires n < 5
    ensures Passed(r, n)(c) && FilterTest(r, n)(c) <==> HasBucket(r, FilterBucket(n))(c)
  {
    PassedMeans(r, n, c);
  }

  lemma PassedMeans(r: Rules, n: nat, c: Change)
    requires n <= 5
    ensures Passed(r, n)(c) <==>
            KindOf(r, c) == Remaining && (n > 0 ==> !r.unionType(c)) && (n > 1 ==> !r.mcpRepair(c))
            && (n > 2 ==> !r.widening(c)) && (n > 3 ==> !r.pathRemoval(c)) && (n > 4 ==> !r.defaultRemoval(c))
  {
    if n > 0 {
      PassedMeans(r, n - 1, c);
    }
  }

  lemma NoticesAre(r: Rules, changes: seq<Change>, n: nat)
    requires n < 5
    ensures Filter(Filter(changes, Passed(r, n)), FilterTest(r, n)) == InBucket(r, changes, FilterBucket(n))
    ensures Reject(Filter(changes, Passed(r, n)), FilterTest(r, n)) == Filter(changes, Passed(r, n + 1))
  {
    forall c
      ensures Passed(r, n)(c) && FilterTest(r, n)(c) <==> HasBucket(r, FilterBucket(n))(c)
    {
      PassedBucket(r, n, c);
    }
    Stage(changes, Passed(r, n), FilterTest(r, n), r, FilterBucket(n));
    FilterTwice(changes, Passed(r, n), Not(FilterTest(r, n)));
  }

  lemma BreakingAre(r: Rules, changes: seq<Change>)
    ensures Filter(changes, Passed(r, 5)) == InBucket(r, changes, Breaking)
  {
    forall c
      ensures Passed(r, 5)(c) <==> HasBucket(r, Breaking)(c)
    {
      PassedMeans(r, 5, c);
    }
    FilterSame(changes, Passed(r, 5), HasBucket(r, Breaking));
  }

  /** The filters applied to the changes the split left over: each list of notices is taken
      from what the earlier filters passed, and the rest goes on. */
  method FilterRemaining(r: Rules, changes: seq<Change>, remaining: seq<Change>)
    returns (typeArtifacts: seq<Change>, repairs: seq<Change>, widenings: seq<Change>, pathRemovals: seq<Change>,
             defaultRemovals: seq<Change>, breaking: seq<Change>)
    requires remaining == OfKind(r, changes, Remaining)
    ensures typeArtifacts == InBucket(r, changes, TypeArtifact) && repairs == InBucket(r, changes, McpRepair)
    ensures widenings == InBucket(r, changes, Widening) && pathRemovals == InBucket(r, changes, PathRemoval)
    ensures defaultRemovals == InBucket(r, changes, DefaultRemoval) && breaking == InBucket(r, changes, Breaking)
  {
    forall n: nat | n < 5
      ensures Filter(Filter(changes, Passed(r, n)), FilterTest(r, n)) == InBucket(r, changes, FilterBucket(n))
      ensures Reject(Filter(changes, Passed(r, n)), FilterTest(r, n)) == Filter(changes, Passed(r, n + 1))
    {
      NoticesAre(r, changes, n);
    }
    typeArtifacts := Filter(remaining, r.unionType);
    var other := Reject(remaining, r.unionType);
    assert other == Filter(changes, Passed(r, 1));
    repairs := Filter(other, r.mcpRepair);
    other := Reject(other, r.mcpRepair);
    assert other == Filter(changes, Passed(r, 2));
    widenings := Filter(other, r.widening);
    other := Reject(other, r.widening);
    assert other == Filter(changes, Passed(r, 3));
    pathRemovals := Filter(other, r.pathRemoval);
    other := Reject(other, r.pathRemoval);
    assert other == Filter(changes, Passed(r, 4));
    defaultRemovals := Filter(other, r.defaultRemoval);
    breaking := Reject(other, r.defaultRemoval);
    BreakingAre(r, changes);
  }

  /** A test of an operation's details, on the change that carries them. */
  function OnDetails(test: Details -> bool): Change -> bool { (c: Change) => test(c.details) }

  lemma {:induction false} FilterDetails(changes: seq<Change>, keep: Details -> bool)
    ensures Filter(DetailsOf(changes), keep) == DetailsOf(Filter(changes, OnDetails(keep)))
  {
    if changes != [] {
      var n := |changes| - 1;
      FilterDetails(changes[..n], keep);
      assert DetailsOf(changes)[..n] == DetailsOf(changes[..n]);
    }
  }

  lemma OperationsAre(r: Rules, changes: seq<Change>)
    ensures Filter(DetailsOf(OfKind(r, changes, OperationRemoval)), r.acceptedOperation)
         == DetailsOf(InBucket(r, changes, AcceptedOperation))
    ensures Reject(DetailsOf(OfKind(r, changes, OperationRemoval)), r.acceptedOperation)
         == DetailsOf(InBucket(r, changes, CheckedOperation))
  {
    var removed, accepted := HasKind(r, OperationRemoval), r.acceptedOperation;
    FilterDetails(OfKind(r, changes, OperationRemoval), accepted);
    Stage(changes, removed, OnDetails(accepted), r, AcceptedOperation);
    FilterDetails(OfKind(r, changes, OperationRemoval), Not(accepted));
    Stage(changes, removed, OnDetails(Not(accepted)), r, CheckedOperation);
  }

  lemma PropertiesAre(r: Rules, changes: seq<Change>)
    ensures Filter(OfKind(r, changes, PropertyRemoval), r.unionProperty) == InBucket(r, changes, PropertyArtifact)
    ensures Reject(OfKind(r, changes, PropertyRemoval), r.unionProperty) == InBucket(r, changes, CheckedProperty)
  {
    Stage(changes, HasKind(r, PropertyRemoval), r.unionProperty, r, PropertyArtifact);
    Stage(changes, HasKind(r, PropertyRemoval), Not(r.unionProperty), r, CheckedProperty);
  }

  lemma AdditiveAre(r: Rules, changes: seq<Change>)
    ensures OfKind(r, changes, Additive) == InBucket(r, changes, AdditiveUnion)
  {
    FilterSame(changes, HasKind(r, Additive), HasBucket(r, AdditiveUnion));
  }

  /** The split and the whole filter chain: every list is one bucket. */
  method Classify(r: Rules, changes: seq<Change>) returns (lists: Lists)
    ensures lists == ListsOf(r, changes)
  {
    var operations, properties, additive, other := SplitBreakingChanges(r, changes);
    var typeArtifacts, repairs, widenings, pathRemovals, defaultRemovals, breaking :=
      FilterRemaining(r, changes, other);
    PropertiesAre(r, changes);
    OperationsAre(r, changes);
    AdditiveAre(r, changes);
    lists := Lists(Filter(operations, r.acceptedOperation), Reject(operations, r.acceptedOperation),
                   Filter(properties, r.unionProperty), Reject(properties, r.unionProperty), additive,
                   typeArtifacts, repairs, widenings, pathRemovals, defaultRemovals, breaking);
  }

  function ListsOf(r: Rules, changes: seq<Change>): Lists {
    Lists(DetailsOf(InBucket(r, changes, AcceptedOperation)), DetailsOf(InBucket(r, changes, CheckedOperation)),
          InBucket(r, changes, PropertyArtifact), InBucket(r, changes, CheckedProperty),
          InBucket(r, changes, AdditiveUnion), InBucket(r, changes, TypeArtifact), InBucket(r, changes, McpRepair),
          InBucket(r, changes, Widening), InBucket(r, changes, PathRemoval), InBucket(r, changes, DefaultRemoval),
          InBucket(r, changes, Breaking))
  }

  // ----- the order of the filters -----

  /** The filters of a list applied one after another, each passing on what it does not take. */
  function Chain(changes: seq<Change>, stages: seq<Change -> bool>): seq<Change> {
    if stages == [] then changes else Reject(Chain(changes, stages[..|stages| - 1]), stages[|stages| - 1])
  }

  predicate TakenBy(stages: seq<Change -> bool>, c: Change) {
    exists i | 0 <= i < |stages| :: stages[i](c)
  }

  function NotTakenBy(stages: seq<Change -> bool>): Change -> bool { c => !TakenBy(stages, c) }

  lemma {:induction false} ChainIs(changes: seq<Change>, stages: seq<Change -> bool>)
    ensures Chain(changes, stages) == Filter(changes, NotTakenBy(stages))
  {
    if stages == [] {
      KeepAll(changes, NotTakenBy(stages));
    } else {
      var rest, last := stages[..|stages| - 1], stages[|stages| - 1];
      ChainIs(changes, rest);
      FilterTwice(changes, NotTakenBy(rest), Not(last));
      forall c
        ensures And(NotTakenBy(rest), Not(last))(c) <==> NotTakenBy(stages)(c)
      {
        assert stages == rest + [last];
        assert TakenBy(stages, c) <==> TakenBy(rest, c) || last(c);
      }
      FilterSame(changes, And(NotTakenBy(rest), Not(last)), NotTakenBy(stages));
    }
  }

  function Stages(r: Rules): seq<Change -> bool> {
    seq(5, n requires 0 <= n < 5 => FilterTest(r, n))
  }

  /** Any list of filters with the same members, in any order and repeated or not, leaves the
      same breaking changes. */
  lemma StageOrderIsFree(r: Rules, changes: seq<Change>, stages: seq<Change -> bool>)
    requires forall test :: test in stages <==> test in Stages(r)
    ensures Chain(OfKind(r, changes, Remaining), stages) == InBucket(r, changes, Breaking)
  {
    ChainIs(OfKind(r, changes, Remaining), stages);
    FilterTwice(changes, HasKind(r, Remaining), NotTakenBy(stages));
    forall c
      ensures And(HasKind(r, Remaining), NotTakenBy(stages))(c) <==> HasBucket(r, Breaking)(c)
    {
      SameTaken(stages, Stages(r), c);
      TakenByFilters(r, c);
    }
    FilterSame(changes, And(HasKind(r, Remaining), NotTakenBy(stages)), HasBucket(r, Breaking));
  }

  lemma SameTaken(a: seq<Change -> bool>, b: seq<Change -> bool>, c: Change)
    requires forall test :: test in a <==> test in b
    ensures TakenBy(a, c) <==> TakenBy(b, c)
  {
    if i :| 0 <= i < |a| && a[i](c) {
      assert a[i] in b;
    }
    if i :| 0 <= i < |b| && b[i](c) {
      assert b[i] in a;
    }
  }

  lemma TakenByFilters(r: Rules, c: Change)
    ensures KindOf(r, c) == Remaining && !TakenBy(Stages(r), c) <==> BucketOf(r, c) == Breaking
  {
    var s := Stages(r);
    assert s[0] == r.unionType && s[1] == r.mcpRepair && s[2] == r.widening && s[3] == r.pathRemoval
        && s[4] == r.defaultRemoval;
  }

  lemma {:induction false} KeepAll<T>(xs: seq<T>, keep: T -> bool)
    requires forall x :: keep(x)
    ensures Filter(xs, keep) == xs
  {
    if xs != [] {
      KeepAll(xs[..|xs| - 1], keep);
    }
  }

  // ----- conservation -----

  /** The number of changes the lists hold together. */
  function Total(l: Lists): nat {
    |l.acceptedOperations| + |l.operations| + |l.propertyArtifacts| + |l.properties| + |l.additive| + |l.typeArtifacts|
    + |l.repairs| + |l.widenings| + |l.pathRemovals| + |l.defaultRemovals| + |l.breaking|
  }

  function SumOf(size: Bucket -> nat): nat {
    size(AcceptedOperation) + size(CheckedOperation) + size(PropertyArtifact) + size(CheckedProperty)
    + size(AdditiveUnion) + size(TypeArtifact) + size(McpRepair) + size(Widening) + size(PathRemoval)
    + size(DefaultRemoval) + size(Breaking)
  }

  lemma SumBump(before: Bucket -> nat, after: Bucket -> nat, bucket: Bucket)
    requires forall b :: after(b) == before(b) + if b == bucket then 1 else 0
    ensures SumOf(after) == SumOf(before) + 1
  {}

  function Sizes(r: Rules, changes: seq<Change>): Bucket -> nat { bucket => |InBucket(r, changes, bucket)| }

  lemma TotalIsSum(r: Rules, changes: seq<Change>)
    ensures Total(ListsOf(r, changes)) == SumOf(Sizes(r, changes))
  {}

  lemma {:induction false} SizesSum(r: Rules, changes: seq<Change>)
    ensures SumOf(Sizes(r, changes)) == |changes|
  {
    if changes != [] {
      var rest, c := changes[..|changes| - 1], changes[|changes| - 1];
      assert changes == rest + [c];
      SizesSum(r, rest);
      forall b
        ensures Sizes(r, changes)(b) == Sizes(r, rest)(b) + if b == BucketOf(r, c) then 1 else 0
      {
        FilterSnoc(rest, c, HasBucket(r, b));
      }
      SumBump(Sizes(r, rest), Sizes(r, changes), BucketOf(r, c));
    }
  }

  /** The lists of the classification hold as many changes as oasdiff reported. */
  lemma NothingLost(r: Rules, changes: seq<Change>)
    ensures Total(ListsOf(r, changes)) == |changes|
  {
    TotalIsSum(r, changes);
    SizesSum(r, changes);
  }

  /** Every change ends in exactly one bucket, as often as oasdiff reported it; with NothingLost,
      the lists hold those changes and nothing else. */
  lemma ChangesConserved(r: Rules, changes: seq<Change>, c: Change, bucket: Bucket)
    ensures multiset(InBucket(r, changes, bucket))[c] == if BucketOf(r, c) == bucket then multiset(changes)[c] else 0
  {
    FilterCounts(changes, HasBucket(r, bucket), c);
  }

  // ----- the removal validators -----

  /** The baseline schema, the version under test, and how a description states a removal. */
  datatype Context = Context(previous: Json, current: Version, removedIn: Json -> Option<Version>)

  predicate ReachedIn(context: Context, description: Json) {
    var removedIn := context.removedIn(description);
    removedIn.Some? && Le(removedIn.value, context.current)
  }

  /** `_get_openapi_operation` of the baseline. */
  function BaselineOperation(context: Context, op: Details): Json {
    Get(Get(Get(context.previous, "paths"), op.path), Lower(op.verb))
  }

  /** `_validate_removed_operations` finds nothing wrong with one operation. */
  predicate OperationMayGo(context: Context, op: Details) {
    var operation := BaselineOperation(context, op);
    Truthy(op.deprecated) && operation.Obj? && ReachedIn(context, Get(operation, "description"))
  }

  function BadOperation(context: Context): Details -> bool { op => !OperationMayGo(context, op) }

  method ValidateRemovedOperations(context: Context, operations: seq<Details>) returns (errors: seq<Details>)
    ensures errors == Filter(operations, BadOperation(context))
  {
    errors := [];
    for i := 0 to |operations|
      invariant errors == Filter(operations[..i], BadOperation(context))
    {
      var op := operations[i];
      FilterSnoc(operations[..i], op, BadOperation(context));
      assert operations[..i + 1] == operations[..i] + [op];
      if !Truthy(op.deprecated) {
        errors := errors + [op];
        continue;
      }
      var operation := BaselineOperation(context, op);
      if !operation.Obj? {
        errors := errors + [op];
        continue;
      }
      var removedIn := context.removedIn(Get(operation, "description"));
      if removedIn.None? || !Le(removedIn.value, context.current) {
        errors := errors + [op];
      }
    }
    assert operations[..|operations|] == operations;
  }

  /** `_iter_schema_properties`: the properties of every dict reached through dict values and
      through dicts in lists. */
  function Properties(schema: Json): set<(string, Json)> {
    if !schema.Obj? then {}
    else
      (var own := Get(schema, "properties");
       if own.Obj? then set name | name in own.fields && own.fields[name].Obj? :: (name, own.fields[name]) else {})
      + (set key, found | key in schema.fields && schema.fields[key].Obj?
                          && found in Properties(schema.fields[key]) :: found)
      + (set key, i, found | key in schema.fields && schema.fields[key].Arr? && 0 <= i < |schema.fields[key].items|
                             && found in Properties(schema.fields[key].items[i]) :: found)
  }

  predicate IsCandidate(name: string, found: (string, Json)) {
    found.0 == name && Get(found.1, "deprecated") == Bool(true)
  }

  /** `_validate_removed_schema_properties` finds nothing wrong with one removal: the baseline
      has a property of that name that is deprecated and whose removal version is reached. */
  predicate PropertyMayGo(context: Context, c: Change) {
    var name := PropertyName.RemovedPropertyName(c.text);
    name.Some? &&
    exists found | found in Properties(context.previous) ::
      IsCandidate(name.value, found) && ReachedIn(context, Get(found.1, "description"))
  }

  function BadProperty(context: Context): Change -> bool { c => !PropertyMayGo(context, c) }

  method ValidateRemovedProperties(context: Context, removed: seq<Change>) returns (errors: seq<Change>)
    ensures errors == Filter(removed, BadProperty(context))
  {
    errors := [];
    var baseline := Properties(context.previous);
    for i := 0 to |removed|
      invariant errors == Filter(removed[..i], BadProperty(context))
    {
      var c := removed[i];
      FilterSnoc(removed[..i], c, BadProperty(context));
      assert removed[..i + 1] == removed[..i] + [c];
      var name := PropertyName.RemovedPropertyName(c.text);
      if name.None? {
        errors := errors + [c];
        continue;
      }
      var candidates := set found | found in baseline && IsCandidate(name.value, found);
      if !exists found | found in candidates :: ReachedIn(context, Get(found.1, "description")) {
        errors := errors + [c];
      }
    }
    assert removed[..|removed|] == removed;
  }

  // ----- the verdict -----

  /** A change fails the run by itself. */
  predicate Fails(r: Rules, context: Context, c: Change) {
    match BucketOf(r, c)
    case CheckedOperation => !OperationMayGo(context, c.details)
    case CheckedProperty => !PropertyMayGo(context, c)
    case Breaking => true
    case _ => false
  }

  /** Of the removed operations only the accepted one passes unchecked. */
  lemma OperationRule(p: Patterns, context: Context, c: Change)
    requires Contains(Lower(c.id), "removed") && Contains(Lower(c.id), "operation")
    ensures Fails(ScriptRules(p), context, c) <==>
            && !(c.details.path == "/api/cloud-proxy" && Lower(c.details.verb) == "post"
                 && c.details.deprecated == Bool(false))
            && !OperationMayGo(context, c.details)
  {}

  predicate AnyFails(r: Rules, context: Context, changes: seq<Change>) {
    exists i | 0 <= i < |changes| :: Fails(r, context, changes[i])
  }

  lemma {:induction false} FilterEmpty<T>(xs: seq<T>, keep: T -> bool)
    ensures Filter(xs, keep) == [] <==> forall i | 0 <= i < |xs| :: !keep(xs[i])
  {
    if xs != [] {
      var n := |xs| - 1;
      FilterEmpty(xs[..n], keep);
      assert (forall i | 0 <= i < |xs| :: !keep(xs[i]))
        <==> (forall i | 0 <= i < n :: !keep(xs[..n][i])) && !keep(xs[n]);
    }
  }

  predicate FailsIn(r: Rules, context: Context, changes: seq<Change>, bucket: Bucket) {
    exists i | 0 <= i < |changes| :: BucketOf(r, changes[i]) == bucket && Fails(r, context, changes[i])
  }

  lemma BucketFails(r: Rules, context: Context, changes: seq<Change>, bucket: Bucket, bad: Change -> bool)
    requires forall c | BucketOf(r, c) == bucket :: bad(c) <==> Fails(r, context, c)
    ensures Filter(InBucket(r, changes, bucket), bad) != [] <==> FailsIn(r, context, changes, bucket)
  {
    FilterTwice(changes, HasBucket(r, bucket), bad);
    FilterEmpty(changes, And(HasBucket(r, bucket), bad));
  }

  lemma OneOfThree(r: Rules, context: Context, changes: seq<Change>)
    ensures AnyFails(r, context, changes) <==>
            FailsIn(r, context, changes, CheckedOperation) || FailsIn(r, context, changes, CheckedProperty)
            || FailsIn(r, context, changes, Breaking)
  {}

  lemma BreakingFail(r: Rules, context: Context, changes: seq<Change>)
    ensures InBucket(r, changes, Breaking) != [] <==> FailsIn(r, context, changes, Breaking)
  {
    FilterEmpty(changes, HasBucket(r, Breaking));
  }

  /** What `main` decides from the lists: whether an error or a breaking change is left. */
  function Failed(r: Rules, context: Context, changes: seq<Change>): bool {
    var lists := ListsOf(r, changes);
    Filter(lists.operations, BadOperation(context)) != [] || Filter(lists.properties, BadProperty(context)) != []
    || lists.breaking != []
  }

  /** The classification, the filters and both validators together fail a report exactly when some
      single change of it fails by itself. */
  lemma FailsByOne(r: Rules, context: Context, changes: seq<Change>)
    ensures Failed(r, context, changes) <==> AnyFails(r, context, changes)
  {
    FilterDetails(InBucket(r, changes, CheckedOperation), BadOperation(context));
    BucketFails(r, context, changes, CheckedOperation, OnDetails(BadOperation(context)));
    BucketFails(r, context, changes, CheckedProperty, BadProperty(context));
    BreakingFail(r, context, changes);
    OneOfThree(r, context, changes);
  }

  /** `main` from the report on; the policy errors are those of the two checks that come before it. */
  method Verdict(r: Rules, context: Context, changes: seq<Change>, staticErrors: nat, deprecationErrors: nat)
    returns (code: int)
    ensures code == if AnyFails(r, context, changes) || staticErrors > 0 || deprecationErrors > 0 then 1 else 0
  {
    FailsByOne(r, context, changes);
    if changes != [] {
      var lists := Classify(r, changes);
      var operationErrors := ValidateRemovedOperations(context, lists.operations);
      var propertyErrors := ValidateRemovedProperties(context, lists.properties);
      if operationErrors != [] || propertyErrors != [] || lists.breaking != [] {
        return 1;
      }
    }
    return if staticErrors > 0 || deprecationErrors > 0 then 1 else 0;
  }

  /** The decision distributes over concatenation and does not depend on the order of changes. */
  lemma VerdictDistributes(r: Rules, context: Context, a: seq<Change>, b: seq<Change>)
    ensures Failed(r, context, a + b) <==> Failed(r, context, a) || Failed(r, context, b)
    ensures multiset(a) == multiset(b) ==> (Failed(r, context, a) <==> Failed(r, context, b))
  {
    FailsByOne(r, context, a);
    FailsByOne(r, context, b);
    FailsByOne(r, context, a + b);
    FailureMoves(r, context, a, a + b);
    FailureMoves(r, context, b, a + b);
    if i :| 0 <= i < |a + b| && Fails(r, context, (a + b)[i]) {
      assert if i < |a| then (a + b)[i] == a[i] else (a + b)[i] == b[i - |a|];
    }
    if multiset(a) == multiset(b) {
      FailureMoves(r, context, a, b);
      FailureMoves(r, context, b, a);
    }
  }

  lemma FailureMoves(r: Rules, context: Context, a: seq<Change>, b: seq<Change>)
    requires multiset(a) <= multiset(b)
    ensures AnyFails(r, context, a) ==> AnyFails(r, context, b)
  {
    if i :| 0 <= i < |a| && Fails(r, context, a[i]) {
      assert a[i] in multiset(b);
      var j :| 0 <= j < |b| && b[j] == a[i];
    }
  }
}
