/** How check_sdk_api_breakage.py tells harmless changes of a pydantic `Field(...)` value from
    breaking ones. */
module FieldDiff {
  import opened Wrappers

  /** An expression, known by its `ast.dump` without positions. */
  datatype Expr = Expr(dump: string)

  /** A keyword argument; `**mapping` has no name. */
  datatype Keyword = Keyword(name: Option<string>, value: Expr)

  datatype Call = Call(func: Expr, args: seq<Expr>, keywords: seq<Keyword>)

  const METADATA: set<string> := {"deprecated", "description", "examples", "json_schema_extra", "title"}
  const DEFAULTS: set<string> := {"default", "default_factory"}

  predicate Named(k: Keyword, names: set<string>) { k.name.Some? && k.name.value in names }

  function Without(keywords: seq<Keyword>, names: set<string>): seq<Keyword> {
    if keywords == [] then []
    else (if Named(keywords[0], names) then [] else [keywords[0]]) + Without(keywords[1..], names)
  }

  /** `_filter_field_metadata_kwargs`. */
  function DropMetadata(call: Call): Call { call.(keywords := Without(call.keywords, METADATA)) }

  function FirstDefault(keywords: seq<Keyword>): Option<Expr> {
    if keywords == [] then None
    else if Named(keywords[0], DEFAULTS) then Some(keywords[0].value)
    else FirstDefault(keywords[1..])
  }

  /** `_field_default_node`: a keyword goes before a positional argument. */
  function DefaultNode(call: Call): Option<Expr> {
    if FirstDefault(call.keywords).Some? then FirstDefault(call.keywords)
    else if call.args != [] then Some(call.args[0])
    else None
  }

  /** `_remove_field_default`: the first positional argument and both default keywords. */
  function DropDefault(call: Call): Call {
    Call(call.func, if call.args == [] then [] else call.args[1..], Without(call.keywords, DEFAULTS))
  }

  /** What is left of a call besides its metadata and its default. */
  function Skeleton(call: Call): Call { DropDefault(DropMetadata(call)) }

  /** `_is_field_default_only_change`; `parse` is `_parse_field_call`. */
  predicate DefaultOnly(parse: string -> Option<Call>, a: string, b: string) {
    var oldCall, newCall := parse(a), parse(b);
    if oldCall.None? || newCall.None? then false
    else
      var oldDefault, newDefault := DefaultNode(oldCall.value), DefaultNode(newCall.value);
      if oldDefault.None? || newDefault.None? then false
      else if oldDefault == newDefault then false
      else DropDefault(DropMetadata(oldCall.value)) == DropDefault(DropMetadata(newCall.value))
  }

  /** `_is_field_metadata_only_change`. */
  predicate MetadataOnly(parse: string -> Option<Call>, a: string, b: string) {
    var oldCall, newCall := parse(a), parse(b);
    if oldCall.None? || newCall.None? then false
    else DropMetadata(oldCall.value) == DropMetadata(newCall.value)
  }

  // ----- what dropping metadata keeps -----

  lemma {:induction false} WithoutKeepsDefault(keywords: seq<Keyword>)
    ensures FirstDefault(Without(keywords, METADATA)) == FirstDefault(keywords)
  {
    if keywords != [] {
      WithoutKeepsDefault(keywords[1..]);
      var k, rest := keywords[0], Without(keywords[1..], METADATA);
      if Named(k, METADATA) {
        assert [] + rest == rest;
      } else {
        assert ([k] + rest)[1..] == rest;
      }
    }
  }

  /** Metadata and the default are separate: dropping the one does not move the other. */
  lemma DefaultSurvives(call: Call)
    ensures DefaultNode(DropMetadata(call)) == DefaultNode(call)
  {
    WithoutKeepsDefault(call.keywords);
  }

  lemma {:induction false} WithoutConcat(a: seq<Keyword>, b: seq<Keyword>, names: set<string>)
    ensures Without(a + b, names) == Without(a, names) + Without(b, names)
  {
    if a == [] {
      assert a + b == b;
    } else {
      var head := if Named(a[0], names) then [] else [a[0]];
      WithoutConcat(a[1..], b, names);
      assert (a + b)[1..] == a[1..] + b && (a + b)[0] == a[0];
      Associate(head, Without(a[1..], names), Without(b, names));
    }
  }

  lemma Associate<T>(a: seq<T>, b: seq<T>, c: seq<T>)
    ensures a + (b + c) == (a + b) + c
  {}

  /** `call` with keyword k put in front of keyword i. */
  function Insert(call: Call, i: nat, k: Keyword): Call
    requires i <= |call.keywords|
  {
    call.(keywords := call.keywords[..i] + [k] + call.keywords[i..])
  }

  /** The keywords that say nothing about what a field accepts, and those that give its default. */
  lemma KeywordNames(k: Keyword)
    ensures Named(k, METADATA) <==>
            k.name == Some("deprecated") || k.name == Some("description") || k.name == Some("examples")
            || k.name == Some("json_schema_extra") || k.name == Some("title")
    ensures Named(k, DEFAULTS) <==> k.name == Some("default") || k.name == Some("default_factory")
  {}

  /** A metadata keyword anywhere in the call makes no difference to what is compared. */
  lemma MetadataIsInvisible(call: Call, i: nat, k: Keyword)
    requires i <= |call.keywords| && Named(k, METADATA)
    ensures DropMetadata(Insert(call, i, k)) == DropMetadata(call)
    ensures DefaultNode(Insert(call, i, k)) == DefaultNode(call)
    ensures Skeleton(Insert(call, i, k)) == Skeleton(call)
  {
    assert call.keywords == call.keywords[..i] + call.keywords[i..];
    DroppedFromMiddle(call.keywords[..i], k, call.keywords[i..], METADATA);
    DefaultSurvives(call);
    DefaultSurvives(Insert(call, i, k));
  }

  /** A keyword that is dropped makes no difference ... */
  lemma DroppedFromMiddle(a: seq<Keyword>, k: Keyword, b: seq<Keyword>, names: set<string>)
    requires Named(k, names)
    ensures Without(a + [k] + b, names) == Without(a + b, names)
  {
    WithoutConcat(a + [k], b, names);
    WithoutConcat(a, [k], names);
    WithoutConcat(a, b, names);
    assert Without([k], names) == [];
  }

  /** ... and one that is not stays in its place. */
  lemma KeptInMiddle(a: seq<Keyword>, k: Keyword, b: seq<Keyword>, names: set<string>)
    requires !Named(k, names)
    ensures Without(a + [k] + b, names) == Without(a, names) + [k] + Without(b, names)
  {
    WithoutConcat(a + [k], b, names);
    WithoutConcat(a, [k], names);
    assert Without([k], names) == [k];
  }

  // ----- what is left of a call -----

  /** A keyword that is neither metadata nor a default. */
  predicate IsOther(k: Keyword) {
    && k.name != Some("deprecated") && k.name != Some("description") && k.name != Some("examples")
    && k.name != Some("json_schema_extra") && k.name != Some("title")
    && k.name != Some("default") && k.name != Some("default_factory")
  }

  function Others(keywords: seq<Keyword>): seq<Keyword> {
    if keywords == [] then [] else (if IsOther(keywords[0]) then [keywords[0]] else []) + Others(keywords[1..])
  }

  lemma {:induction false} OthersAreLeft(keywords: seq<Keyword>)
    ensures Without(Without(keywords, METADATA), DEFAULTS) == Others(keywords)
  {
    if keywords != [] {
      var k, rest := keywords[0], Without(keywords[1..], METADATA);
      KeywordNames(k);
      OthersAreLeft(keywords[1..]);
      WithoutConcat(if Named(k, METADATA) then [] else [k], rest, DEFAULTS);
    }
  }

  /** Two calls agree besides metadata and default exactly when they call the same function, with the
      same arguments behind the first and the same other keywords in the same order. */
  lemma SkeletonMeans(a: Call, b: Call)
    ensures Skeleton(a) == Skeleton(b) <==>
            && a.func == b.func && Others(a.keywords) == Others(b.keywords)
            && (if a.args == [] then [] else a.args[1..]) == (if b.args == [] then [] else b.args[1..])
  {
    OthersAreLeft(a.keywords);
    OthersAreLeft(b.keywords);
  }

  // ----- the two classes of change -----

  /** Metadata-only changes are an equivalence on `Field` calls; on other values there are none. */
  lemma MetadataOnlyIsEquivalence(parse: string -> Option<Call>, a: string, b: string, c: string)
    ensures MetadataOnly(parse, a, a) <==> parse(a).Some?
    ensures MetadataOnly(parse, a, b) ==> MetadataOnly(parse, b, a)
    ensures MetadataOnly(parse, a, b) && MetadataOnly(parse, b, c) ==> MetadataOnly(parse, a, c)
  {}

  /** Default-only changes are symmetric and never relate a value to itself or to a value that
      differs in metadata only. */
  lemma DefaultOnlyIsSeparate(parse: string -> Option<Call>, a: string, b: string)
    ensures DefaultOnly(parse, a, b) ==> DefaultOnly(parse, b, a)
    ensures !DefaultOnly(parse, a, a)
    ensures !(MetadataOnly(parse, a, b) && DefaultOnly(parse, a, b))
  {
    if parse(a).Some? && parse(b).Some? {
      DefaultSurvives(parse(a).value);
      DefaultSurvives(parse(b).value);
    }
  }

  /** Both classes see a value only up to metadata, on either side. */
  lemma ClassesRespectMetadata(parse: string -> Option<Call>, a: string, a': string, b: string, b': string)
    requires MetadataOnly(parse, a, a') && MetadataOnly(parse, b, b')
    ensures MetadataOnly(parse, a, b) <==> MetadataOnly(parse, a', b')
    ensures DefaultOnly(parse, a, b) <==> DefaultOnly(parse, a', b')
  {
    DefaultSurvives(parse(a).value);
    DefaultSurvives(parse(a').value);
    DefaultSurvives(parse(b).value);
    DefaultSurvives(parse(b').value);
  }

  // ----- how a default is written -----

  function FirstArgument(call: Call): Option<Expr> { if call.args == [] then None else Some(call.args[0]) }

  /** The default keywords of a list with their places, counted from i. */
  function DefaultPlaces(keywords: seq<Keyword>, i: nat): seq<(nat, Keyword)> {
    if keywords == [] then []
    else (if Named(keywords[0], DEFAULTS) then [(i, keywords[0])] else []) + DefaultPlaces(keywords[1..], i + 1)
  }

  /** Two calls write their default in the same way: the same first positional argument, and the
      same default keywords at the same places among the keywords that are not metadata. */
  predicate SameSpelling(a: Call, b: Call) {
    && FirstArgument(a) == FirstArgument(b)
    && DefaultPlaces(Without(a.keywords, METADATA), 0) == DefaultPlaces(Without(b.keywords, METADATA), 0)
  }

  lemma {:induction false} PlacesFrom(keywords: seq<Keyword>, i: nat)
    ensures forall x | 0 <= x < |DefaultPlaces(keywords, i)| :: DefaultPlaces(keywords, i)[x].0 >= i
  {
    if keywords != [] {
      PlacesFrom(keywords[1..], i + 1);
    }
  }

  /** The default keywords come first in the places exactly when the list starts with one. */
  lemma FirstPlace(keywords: seq<Keyword>, i: nat)
    requires keywords != []
    ensures Named(keywords[0], DEFAULTS) <==>
            DefaultPlaces(keywords, i) != [] && DefaultPlaces(keywords, i)[0].0 == i
    ensures Named(keywords[0], DEFAULTS) ==>
              DefaultPlaces(keywords, i)[0].1 == keywords[0]
              && DefaultPlaces(keywords, i)[1..] == DefaultPlaces(keywords[1..], i + 1)
              && Without(keywords, DEFAULTS) == Without(keywords[1..], DEFAULTS)
    ensures !Named(keywords[0], DEFAULTS) ==>
              DefaultPlaces(keywords, i) == DefaultPlaces(keywords[1..], i + 1)
              && Without(keywords, DEFAULTS) != [] && Without(keywords, DEFAULTS)[0] == keywords[0]
              && Without(keywords, DEFAULTS)[1..] == Without(keywords[1..], DEFAULTS)
  {
    PlacesFrom(keywords[1..], i + 1);
  }

  /** Keywords are determined by the default ones with their places and by the others. */
  lemma {:induction false} PlacesDetermine(a: seq<Keyword>, b: seq<Keyword>, i: nat)
    requires Without(a, DEFAULTS) == Without(b, DEFAULTS) && DefaultPlaces(a, i) == DefaultPlaces(b, i)
    ensures a == b
  {
    if a != [] {
      FirstPlace(a, i);
    }
    if b != [] {
      FirstPlace(b, i);
    }
    if a != [] && b != [] {
      PlacesDetermine(a[1..], b[1..], i + 1);
      assert a == [a[0]] + a[1..] && b == [b[0]] + b[1..];
    }
  }

  /** Calls that agree besides metadata and default are the same up to metadata exactly when their
      default is spelled in the same way. */
  lemma SpellingDecides(a: Call, b: Call)
    requires Skeleton(a) == Skeleton(b)
    ensures DropMetadata(a) == DropMetadata(b) <==> SameSpelling(a, b)
  {
    if SameSpelling(a, b) {
      PlacesDetermine(Without(a.keywords, METADATA), Without(b.keywords, METADATA), 0);
      if a.args != [] && b.args != [] {
        assert a.args == [a.args[0]] + a.args[1..] && b.args == [b.args[0]] + b.args[1..];
      }
    }
  }

  /** For two calls that agree besides metadata and default: if both have a default, one of the
      classes applies exactly when the defaults differ or are spelled in the same way; if neither
      has one, the change is metadata-only; if only one has, the change is in neither class. */
  lemma ClassesCover(parse: string -> Option<Call>, a: string, b: string)
    requires parse(a).Some? && parse(b).Some? && Skeleton(parse(a).value) == Skeleton(parse(b).value)
    ensures var x, y := parse(a).value, parse(b).value;
            && (DefaultNode(x).Some? && DefaultNode(y).Some? ==>
                  (MetadataOnly(parse, a, b) <==> SameSpelling(x, y))
                  && (DefaultOnly(parse, a, b) <==> DefaultNode(x) != DefaultNode(y)))
            && (DefaultNode(x).None? && DefaultNode(y).None? ==> MetadataOnly(parse, a, b))
            && (DefaultNode(x).Some? != DefaultNode(y).Some? ==>
                  !MetadataOnly(parse, a, b) && !DefaultOnly(parse, a, b))
  {
    var x, y := parse(a).value, parse(b).value;
    SpellingDecides(x, y);
    DefaultSurvives(x);
    DefaultSurvives(y);
    if DefaultNode(x).None? && DefaultNode(y).None? {
      NoDefaultToDrop(DropMetadata(x).keywords);
      NoDefaultToDrop(DropMetadata(y).keywords);
    }
  }

  lemma {:induction false} NoDefaultToDrop(keywords: seq<Keyword>)
    requires FirstDefault(keywords).None?
    ensures Without(keywords, DEFAULTS) == keywords
  {
    if keywords != [] {
      NoDefaultToDrop(keywords[1..]);
    }
  }

  /** A default that moves from the first position to a keyword is reported as breaking, whatever
      other arguments and keywords the call has and wherever the keyword is put. */
  lemma MovedDefaultIsBreaking(parse: string -> Option<Call>, a: string, b: string,
                               call: Call, i: nat, name: string, d: Expr)
    requires FirstDefault(call.keywords).None? && name in DEFAULTS && i <= |call.keywords|
    requires parse(a) == Some(call.(args := [d] + call.args))
    requires parse(b) == Some(Insert(call, i, Keyword(Some(name), d)))
    ensures DefaultNode(parse(a).value) == DefaultNode(parse(b).value)
    ensures !MetadataOnly(parse, a, b) && !DefaultOnly(parse, a, b)
    ensures call.args == [] ==> Skeleton(parse(a).value) == Skeleton(parse(b).value)
  {
    var k := Keyword(Some(name), d);
    InsertedDefault(call.keywords, i, k);
    assert |[d] + call.args| != |call.args|;
  }

  lemma InsertedDefault(keywords: seq<Keyword>, i: nat, k: Keyword)
    requires FirstDefault(keywords).None? && Named(k, DEFAULTS) && i <= |keywords|
    ensures FirstDefault(keywords[..i] + [k] + keywords[i..]) == Some(k.value)
    ensures Without(Without(keywords[..i] + [k] + keywords[i..], METADATA), DEFAULTS)
         == Without(Without(keywords, METADATA), DEFAULTS)
  {
    assert keywords == keywords[..i] + keywords[i..];
    DefaultInMiddle(keywords[..i], k, keywords[i..]);
    DefaultDropped(keywords[..i], k, keywords[i..]);
  }

  lemma DefaultInMiddle(a: seq<Keyword>, k: Keyword, b: seq<Keyword>)
    requires FirstDefault(a + b).None? && Named(k, DEFAULTS)
    ensures FirstDefault(a + [k] + b) == Some(k.value)
  {
    NoneInFront(a, b);
    FirstAfter(a, [k] + b);
    Associate(a, [k], b);
  }

  lemma DefaultDropped(a: seq<Keyword>, k: Keyword, b: seq<Keyword>)
    requires Named(k, DEFAULTS)
    ensures Without(Without(a + [k] + b, METADATA), DEFAULTS) == Without(Without(a + b, METADATA), DEFAULTS)
  {
    NotBoth(k);
    KeptInMiddle(a, k, b, METADATA);
    WithoutConcat(a, b, METADATA);
    DroppedFromMiddle(Without(a, METADATA), k, Without(b, METADATA), DEFAULTS);
  }

  lemma NotBoth(k: Keyword)
    ensures !(Named(k, DEFAULTS) && Named(k, METADATA))
  {}

  lemma {:induction false} NoneInFront(a: seq<Keyword>, b: seq<Keyword>)
    requires FirstDefault(a + b).None?
    ensures FirstDefault(a).None?
  {
    if a != [] {
      assert (a + b)[1..] == a[1..] + b;
      NoneInFront(a[1..], b);
    }
  }

  lemma {:induction false} FirstAfter(a: seq<Keyword>, b: seq<Keyword>)
    requires FirstDefault(a).None?
    ensures FirstDefault(a + b) == FirstDefault(b)
  {
    if a == [] {
      assert a + b == b;
    } else {
      assert (a + b)[1..] == a[1..] + b;
      FirstAfter(a[1..], b);
    }
  }
}
