/** The preservation test of check_persisted_settings_compat.py: nothing a payload already
    says may be lost on a load and dump under the same schema version. */
module PersistedPayload {
  import opened Wrappers
  import opened Text

  datatype Scalar = Null | Flag(flag: bool) | Int(int_: int) | Float(float_: real) | Str(text: string)

  /** A payload keeps the insertion order of its mappings: the reported path depends on it. */
  datatype Payload =
    | Mapping(items: seq<(string, Payload)>)
    | Listing(elements: seq<Payload>)
    | Leaf(scalar: Scalar)

  function Numeric(s: Scalar): Option<real> {
    match s
    case Flag(b) => Some(if b then 1.0 else 0.0)
    case Int(i) => Some(i as real)
    case Float(r) => Some(r)
    case _ => None
  }

  /** Python's `==` on scalars: numbers and booleans compare by value. */
  predicate SameScalar(a: Scalar, b: Scalar) {
    if Numeric(a).Some? then Numeric(a) == Numeric(b) else a == b
  }

  function Find(items: seq<(string, Payload)>, key: string): (found: Option<Payload>)
    ensures found.Some? ==> exists i :: 0 <= i < |items| && items[i] == (key, found.value)
    ensures found.None? ==> forall i | 0 <= i < |items| :: items[i].0 != key
  {
    if items == [] then None
    else if items[0].0 == key then Some(items[0].1)
    else
      var rest := Find(items[1..], key);
      assert forall i | 0 < i < |items| :: items[i] == items[1..][i - 1];
      rest
  }

  /** The keys of every mapping are distinct, as in any Python dict. */
  predicate DictLike(p: Payload) {
    match p
    case Mapping(items) =>
      (forall i, j | 0 <= i < j < |items| :: items[i].0 != items[j].0) &&
      (forall i | 0 <= i < |items| :: DictLike(items[i].1))
    case Listing(elements) => forall i | 0 <= i < |elements| :: DictLike(elements[i])
    case Leaf(_) => true
  }

  function ChildPath(path: string, key: string): string {
    if path == "" then key else path + "." + key
  }

  function ElementPath(path: string, index: nat): string {
    path + "[" + Decimal(index) + "]"
  }

  /** `_find_unpreserved_path`; the two helpers are its loops, from position i on. */
  function FindUnpreserved(expected: Payload, actual: Payload, path: string): Option<string>
    decreases expected, 1, 0
  {
    match expected
    case Mapping(items) =>
      if !actual.Mapping? then Some(path) else FindInItems(expected, actual, 0, path)
    case Listing(elements) =>
      if !actual.Listing? || |elements| != |actual.elements| then Some(path)
      else FindInElements(expected, actual, 0, path)
    case Leaf(scalar) =>
      if actual.Leaf? && SameScalar(scalar, actual.scalar) then None else Some(path)
  }

  function FindInItems(expected: Payload, actual: Payload, i: nat, path: string): Option<string>
    requires expected.Mapping? && actual.Mapping? && i <= |expected.items|
    decreases expected, 0, |expected.items| - i
  {
    if i == |expected.items| then None
    else
      var (key, value) := expected.items[i];
      var found := Find(actual.items, key);
      if found.None? then Some(ChildPath(path, key))
      else
        var changed := FindUnpreserved(value, found.value, ChildPath(path, key));
        if changed.Some? then changed else FindInItems(expected, actual, i + 1, path)
  }

  function FindInElements(expected: Payload, actual: Payload, i: nat, path: string): Option<string>
    requires expected.Listing? && actual.Listing?
    requires |expected.elements| == |actual.elements| && i <= |expected.elements|
    decreases expected, 0, |expected.elements| - i
  {
    if i == |expected.elements| then None
    else
      var changed := FindUnpreserved(expected.elements[i], actual.elements[i], ElementPath(path, i));
      if changed.Some? then changed else FindInElements(expected, actual, i + 1, path)
  }

  // ----- the reference: every location keeps its value -----

  datatype Step = Key(key: string) | Index(index: nat)

  function Enter(p: Payload, step: Step): Option<Payload> {
    match step
    case Key(key) => if p.Mapping? then Find(p.items, key) else None
    case Index(index) => if p.Listing? && index < |p.elements| then Some(p.elements[index]) else None
  }

  function Locate(p: Payload, steps: seq<Step>): Option<Payload>
    decreases |steps|
  {
    if steps == [] then Some(p)
    else
      var child := Enter(p, steps[0]);
      if child.None? then None else Locate(child.value, steps[1..])
  }

  /** The same kind of value: a mapping, a list as long, or an equal scalar. */
  predicate SameNode(a: Payload, b: Payload) {
    match a
    case Mapping(_) => b.Mapping?
    case Listing(elements) => b.Listing? && |b.elements| == |elements|
    case Leaf(scalar) => b.Leaf? && SameScalar(scalar, b.scalar)
  }

  /** The historical value at a location is still there. */
  predicate KeptAt(old_: Payload, new_: Payload, steps: seq<Step>) {
    var was, is_ := Locate(old_, steps), Locate(new_, steps);
    was.Some? ==> is_.Some? && SameNode(was.value, is_.value)
  }

  /** Everything the old payload says, the new one says too. */
  ghost predicate Embedded(old_: Payload, new_: Payload) {
    forall steps :: KeptAt(old_, new_, steps)
  }

  lemma EmbeddedReflexive(p: Payload)
    ensures Embedded(p, p)
  {}

  lemma EmbeddedTransitive(a: Payload, b: Payload, c: Payload)
    requires Embedded(a, b) && Embedded(b, c)
    ensures Embedded(a, c)
  {
    forall steps
      ensures KeptAt(a, c, steps)
    {
      assert KeptAt(a, b, steps) && KeptAt(b, c, steps);
    }
  }

  // ----- depth-first order -----

  function Prefixed(step: Step, locations: seq<seq<Step>>): seq<seq<Step>> {
    seq(|locations|, i requires 0 <= i < |locations| => [step] + locations[i])
  }

  /** The locations of a payload in depth-first order, a node before its children. */
  function Locations(p: Payload): (all: seq<seq<Step>>)
    ensures all != [] && all[0] == []
    decreases p, 1, 0
  {
    [[]] + match p
           case Mapping(items) => ItemLocations(p, 0)
           case Listing(elements) => ElementLocations(p, 0)
           case Leaf(_) => []
  }

  function ItemLocations(p: Payload, i: nat): seq<seq<Step>>
    requires p.Mapping? && i <= |p.items|
    decreases p, 0, |p.items| - i
  {
    if i == |p.items| then []
    else Prefixed(Key(p.items[i].0), Locations(p.items[i].1)) + ItemLocations(p, i + 1)
  }

  function ElementLocations(p: Payload, i: nat): seq<seq<Step>>
    requires p.Listing? && i <= |p.elements|
    decreases p, 0, |p.elements| - i
  {
    if i == |p.elements| then []
    else Prefixed(Index(i), Locations(p.elements[i])) + ElementLocations(p, i + 1)
  }

  function PathText(path: string, steps: seq<Step>): string
    decreases |steps|
  {
    if steps == [] then path
    else match steps[0]
      case Key(key) => PathText(ChildPath(path, key), steps[1..])
      case Index(index) => PathText(ElementPath(path, index), steps[1..])
  }

  /** Position k of a list of locations is the first one that is not kept. */
  predicate FirstLost(old_: Payload, new_: Payload, locations: seq<seq<Step>>, k: nat) {
    k < |locations| && !KeptAt(old_, new_, locations[k]) && forall j | 0 <= j < k :: KeptAt(old_, new_, locations[j])
  }

  /** A verdict on a list of locations: all kept, or the text of the first one that is lost. */
  ghost predicate Reports(found: Option<string>, old_: Payload, new_: Payload, locations: seq<seq<Step>>,
                          path: string) {
    match found
    case None => forall j | 0 <= j < |locations| :: KeptAt(old_, new_, locations[j])
    case Some(text) => exists k: nat :: FirstLost(old_, new_, locations, k) && text == PathText(path, locations[k])
  }

  lemma KeptBelow(old_: Payload, new_: Payload, step: Step, rest: seq<Step>)
    requires Enter(old_, step).Some?
    ensures Enter(new_, step).Some? ==>
              (KeptAt(old_, new_, [step] + rest) <==>
               KeptAt(Enter(old_, step).value, Enter(new_, step).value, rest))
    ensures Enter(new_, step).None? && Locate(Enter(old_, step).value, rest).Some? ==>
              !KeptAt(old_, new_, [step] + rest)
  {
    assert ([step] + rest)[1..] == rest;
  }

  /** A child's verdict is the parent's verdict on the child's part of the locations. */
  lemma ReportsBelow(found: Option<string>, old_: Payload, new_: Payload, step: Step, path: string)
    requires Enter(old_, step).Some? && Enter(new_, step).Some?
    requires Reports(found, Enter(old_, step).value, Enter(new_, step).value, Locations(Enter(old_, step).value),
                     PathText(path, [step]))
    ensures Reports(found, old_, new_, Prefixed(step, Locations(Enter(old_, step).value)), path)
  {
    var below := Locations(Enter(old_, step).value);
    var here := Prefixed(step, below);
    forall j | 0 <= j < |below|
      ensures KeptAt(old_, new_, here[j]) <==> KeptAt(Enter(old_, step).value, Enter(new_, step).value, below[j])
      ensures PathText(path, here[j]) == PathText(PathText(path, [step]), below[j])
    {
      KeptBelow(old_, new_, step, below[j]);
      assert here[j][1..] == below[j] && [step][1..] == [];
    }
    if found.Some? {
      var k: nat :| FirstLost(Enter(old_, step).value, Enter(new_, step).value, below, k)
               && found.value == PathText(PathText(path, [step]), below[k]);
      assert FirstLost(old_, new_, here, k);
    }
  }

  /** Scanning one stretch of locations and, if nothing is lost, the next. */
  lemma ReportsThen(first: Option<string>, second: Option<string>, old_: Payload, new_: Payload,
                    front: seq<seq<Step>>, back: seq<seq<Step>>, path: string)
    requires Reports(first, old_, new_, front, path)
    requires first.None? ==> Reports(second, old_, new_, back, path)
    ensures Reports(if first.Some? then first else second, old_, new_, front + back, path)
  {
    var all := front + back;
    assert forall j | 0 <= j < |front| :: all[j] == front[j];
    assert forall j | 0 <= j < |back| :: all[|front| + j] == back[j];
    if first.Some? {
      var k: nat :| FirstLost(old_, new_, front, k) && first.value == PathText(path, front[k]);
      assert FirstLost(old_, new_, all, k);
    } else if second.Some? {
      var k: nat :| FirstLost(old_, new_, back, k) && second.value == PathText(path, back[k]);
      assert FirstLost(old_, new_, all, |front| + k);
    }
  }

  lemma LostHere(old_: Payload, new_: Payload, path: string)
    requires !SameNode(old_, new_)
    ensures Reports(Some(path), old_, new_, Locations(old_), path)
  {
    assert FirstLost(old_, new_, Locations(old_), 0);
  }

  lemma LostBelow(old_: Payload, new_: Payload, step: Step, path: string)
    requires Enter(old_, step).Some? && Enter(new_, step).None?
    ensures Reports(Some(PathText(path, [step])), old_, new_, Prefixed(step, Locations(Enter(old_, step).value)), path)
  {
    var here := Prefixed(step, Locations(Enter(old_, step).value));
    KeptBelow(old_, new_, step, []);
    assert here[0] == [step] + [] == [step];
    assert FirstLost(old_, new_, here, 0);
  }

  lemma DistinctFind(items: seq<(string, Payload)>, i: nat)
    requires i < |items| && forall a, b | 0 <= a < b < |items| :: items[a].0 != items[b].0
    ensures Find(items, items[i].0) == Some(items[i].1)
  {}

  /** The test scans the locations in depth-first order and reports the first that is lost. */
  lemma {:induction false} FindReports(expected: Payload, actual: Payload, path: string)
    requires DictLike(expected)
    ensures Reports(FindUnpreserved(expected, actual, path), expected, actual, Locations(expected), path)
    decreases expected, 1, 0
  {
    if !SameNode(expected, actual) {
      LostHere(expected, actual, path);
    } else {
      assert KeptAt(expected, actual, []);
      assert Reports(None, expected, actual, [[]], path);
      match expected
      case Mapping(items) =>
        ItemsReport(expected, actual, 0, path);
        ReportsThen(None, FindInItems(expected, actual, 0, path), expected, actual, [[]],
                    ItemLocations(expected, 0), path);
      case Listing(elements) =>
        ElementsReport(expected, actual, 0, path);
        ReportsThen(None, FindInElements(expected, actual, 0, path), expected, actual, [[]],
                    ElementLocations(expected, 0), path);
      case Leaf(_) =>
        assert Locations(expected) == [[]];
    }
  }

  lemma {:induction false} ItemsReport(expected: Payload, actual: Payload, i: nat, path: string)
    requires DictLike(expected) && expected.Mapping? && actual.Mapping? && i <= |expected.items|
    ensures Reports(FindInItems(expected, actual, i, path), expected, actual, ItemLocations(expected, i), path)
    decreases expected, 0, |expected.items| - i
  {
    if i < |expected.items| {
      var (key, value) := expected.items[i];
      var step := Key(key);
      DistinctFind(expected.items, i);
      assert [step][1..] == [] && PathText(path, [step]) == ChildPath(path, key);
      var front := Prefixed(step, Locations(value));
      var found := Find(actual.items, key);
      if found.None? {
        LostBelow(expected, actual, step, path);
        ReportsThen(Some(ChildPath(path, key)), None, expected, actual, front, ItemLocations(expected, i + 1), path);
      } else {
        var changed := FindUnpreserved(value, found.value, ChildPath(path, key));
        FindReports(value, found.value, ChildPath(path, key));
        ReportsBelow(changed, expected, actual, step, path);
        ItemsReport(expected, actual, i + 1, path);
        ReportsThen(changed, FindInItems(expected, actual, i + 1, path), expected, actual, front,
                    ItemLocations(expected, i + 1), path);
      }
    }
  }

  lemma {:induction false} ElementsReport(expected: Payload, actual: Payload, i: nat, path: string)
    requires DictLike(expected) && expected.Listing? && actual.Listing?
    requires |expected.elements| == |actual.elements| && i <= |expected.elements|
    ensures Reports(FindInElements(expected, actual, i, path), expected, actual, ElementLocations(expected, i), path)
    decreases expected, 0, |expected.elements| - i
  {
    if i < |expected.elements| {
      var step := Index(i);
      assert [step][1..] == [] && PathText(path, [step]) == ElementPath(path, i);
      var changed := FindUnpreserved(expected.elements[i], actual.elements[i], ElementPath(path, i));
      FindReports(expected.elements[i], actual.elements[i], ElementPath(path, i));
      ReportsBelow(changed, expected, actual, step, path);
      ElementsReport(expected, actual, i + 1, path);
      ReportsThen(changed, FindInElements(expected, actual, i + 1, path), expected, actual,
                  Prefixed(step, Locations(expected.elements[i])), ElementLocations(expected, i + 1), path);
    }
  }

  /** The listed locations are all there are. */
  lemma {:induction false} LocationsComplete(p: Payload, steps: seq<Step>)
    requires DictLike(p) && Locate(p, steps).Some?
    ensures steps in Locations(p)
    decreases |steps|
  {
    if steps != [] {
      var child := Enter(p, steps[0]).value;
      match steps[0]
      case Key(key) =>
        var i :| 0 <= i < |p.items| && p.items[i] == (key, child);
        LocationsComplete(child, steps[1..]);
        InItems(p, 0, i, steps);
      case Index(index) =>
        LocationsComplete(child, steps[1..]);
        InElements(p, 0, index, steps);
    }
  }

  lemma InPrefixed(step: Step, locations: seq<seq<Step>>, steps: seq<Step>)
    requires steps != [] && steps[0] == step && steps[1..] in locations
    ensures steps in Prefixed(step, locations)
  {
    var k :| 0 <= k < |locations| && locations[k] == steps[1..];
    assert Prefixed(step, locations)[k] == steps;
  }

  lemma {:induction false} InItems(p: Payload, from: nat, i: nat, steps: seq<Step>)
    requires p.Mapping? && from <= i < |p.items|
    requires steps != [] && steps[0] == Key(p.items[i].0) && steps[1..] in Locations(p.items[i].1)
    ensures steps in ItemLocations(p, from)
    decreases i - from
  {
    if from == i {
      InPrefixed(steps[0], Locations(p.items[i].1), steps);
    } else {
      InItems(p, from + 1, i, steps);
    }
  }

  lemma {:induction false} InElements(p: Payload, from: nat, i: nat, steps: seq<Step>)
    requires p.Listing? && from <= i < |p.elements|
    requires steps != [] && steps[0] == Index(i) && steps[1..] in Locations(p.elements[i])
    ensures steps in ElementLocations(p, from)
    decreases i - from
  {
    if from == i {
      InPrefixed(steps[0], Locations(p.elements[i]), steps);
    } else {
      InElements(p, from + 1, i, steps);
    }
  }

  /** The test passes exactly when the historical payload is embedded in the new one. */
  lemma PreservedIsEmbedded(expected: Payload, actual: Payload, path: string)
    requires DictLike(expected)
    ensures FindUnpreserved(expected, actual, path) == None <==> Embedded(expected, actual)
  {
    FindReports(expected, actual, path);
    if FindUnpreserved(expected, actual, path) == None {
      forall steps
        ensures KeptAt(expected, actual, steps)
      {
        if Locate(expected, steps).Some? {
          LocationsComplete(expected, steps);
        }
      }
    } else {
      var k := ReportedAt(FindUnpreserved(expected, actual, path), expected, actual, Locations(expected), path);
      assert !KeptAt(expected, actual, Locations(expected)[k]);
    }
  }

  lemma ReportedAt(found: Option<string>, old_: Payload, new_: Payload, locations: seq<seq<Step>>, path: string)
    returns (k: nat)
    requires Reports(found, old_, new_, locations, path) && found.Some?
    ensures FirstLost(old_, new_, locations, k) && found.value == PathText(path, locations[k])
  {
    k :| FirstLost(old_, new_, locations, k) && found.value == PathText(path, locations[k]);
  }

  /** A returned path is the first mismatch in depth-first order. */
  lemma UnpreservedIsFirst(expected: Payload, actual: Payload) returns (k: nat)
    requires DictLike(expected) && FindUnpreserved(expected, actual, "").Some?
    ensures FirstLost(expected, actual, Locations(expected), k)
    ensures FindUnpreserved(expected, actual, "").value == PathText("", Locations(expected)[k])
  {
    var found := FindUnpreserved(expected, actual, "");
    FindReports(expected, actual, "");
    k := ReportedAt(found, expected, actual, Locations(expected), "");
  }

  // ----- what counts as lost -----

  /** Equal scalars: numbers by value, a boolean being 0 or 1; anything else by itself. */
  predicate SameValue(a: Scalar, b: Scalar) {
    match (a, b)
    case (Null, Null) => true
    case (Str(s), Str(t)) => s == t
    case (Flag(f), Flag(g)) => f == g
    case (Int(i), Int(j)) => i == j
    case (Float(x), Float(y)) => x == y
    case (Int(i), Float(x)) => i as real == x
    case (Float(x), Int(i)) => i as real == x
    case (Flag(f), Int(i)) => i == if f then 1 else 0
    case (Int(i), Flag(f)) => i == if f then 1 else 0
    case (Flag(f), Float(x)) => x == if f then 1.0 else 0.0
    case (Float(x), Flag(f)) => x == if f then 1.0 else 0.0
    case _ => false
  }

  /** The new payload has nothing at the location, another kind of value, a list of another length or
      another scalar. */
  predicate LostAt(old_: Payload, new_: Payload, steps: seq<Step>) {
    match Locate(old_, steps)
    case None => false
    case Some(was) =>
      match Locate(new_, steps)
      case None => true
      case Some(is_) =>
        match was
        case Mapping(_) => !is_.Mapping?
        case Listing(elements) => !is_.Listing? || |is_.elements| != |elements|
        case Leaf(scalar) => !is_.Leaf? || !SameValue(scalar, is_.scalar)
  }

  lemma SameScalarMeans(a: Scalar, b: Scalar)
    ensures SameScalar(a, b) <==> SameValue(a, b)
  {}

  /** A path is reported exactly when something is lost somewhere: a changed number, flag or text, a
      missing key, a list of another length. */
  lemma LossIsReported(expected: Payload, actual: Payload, path: string)
    requires DictLike(expected)
    ensures FindUnpreserved(expected, actual, path).Some? <==> exists steps :: LostAt(expected, actual, steps)
  {
    PreservedIsEmbedded(expected, actual, path);
    forall steps
      ensures LostAt(expected, actual, steps) <==> !KeptAt(expected, actual, steps)
    {
      var was, is_ := Locate(expected, steps), Locate(actual, steps);
      if was.Some? && is_.Some? && was.value.Leaf? && is_.value.Leaf? {
        SameScalarMeans(was.value.scalar, is_.value.scalar);
      }
    }
  }
}
