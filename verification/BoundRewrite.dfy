/** `_normalize_openapi_for_oasdiff` of check_agent_server_rest_api_breakage.py: numeric
    exclusive bounds (sections 6.2.2 to 6.2.5 of JSON Schema Validation 2020-12) become an
    inclusive bound with a boolean flag (the Schema Object section of OpenAPI 3.0.3). */
module BoundRewrite {
  import opened Wrappers
  import opened Text
  import opened Json
  import opened JsonPointer

  const MIN := "minimum"
  const XMIN := "exclusiveMinimum"
  const MAX := "maximum"
  const XMAX := "exclusiveMaximum"
  const BOUND_KEYS: set<string> := {MIN, XMIN, MAX, XMAX}

  type Fields = map<string, Json>

  lemma KeysDiffer()
    ensures MIN != XMIN && MIN != MAX && MIN != XMAX && XMIN != MAX && XMIN != XMAX && MAX != XMAX
  {
    assert |MIN| == 7 && |MAX| == 7 && |XMIN| == 16 && |XMAX| == 16;
    assert MIN[1] != MAX[1] && XMIN[10] != XMAX[10];
  }

  /** One of the two `if` blocks. */
  function RewriteBound(fields: Fields, exclusive: string, inclusive: string): Fields {
    if exclusive in fields && fields[exclusive].Num? then
      (if inclusive in fields then fields else fields[inclusive := fields[exclusive]])[exclusive := Bool(true)]
    else fields
  }

  function RewriteNode(fields: Fields): Fields {
    RewriteBound(RewriteBound(fields, XMIN, MIN), XMAX, MAX)
  }

  /** The whole walk. A value that the rewrite has just stored is a number or `true`, on
      which the walk does nothing. */
  function Normalize(node: Json): Json {
    match node
    case Obj(fields) =>
      var rewritten := RewriteNode(fields);
      Obj(map key | key in rewritten ::
            if key in fields && rewritten[key] == fields[key] then Normalize(fields[key]) else rewritten[key])
    case Arr(items) => Arr(seq(|items|, i requires 0 <= i < |items| => Normalize(items[i])))
    case _ => node
  }

  /** `_walk`, assigning to the keys of a dict and the positions of a list one by one. */
  method NormalizeOpenapi(node: Json) returns (r: Json)
    ensures r == Normalize(node)
    decreases node, 1
  {
    match node
    case Arr(items) => r := NormalizeItems(node);
    case Obj(fields) =>
      var rewritten := NormalizeBounds(fields);
      r := NormalizeValues(node, rewritten);
    case _ => r := node;
  }

  /** The two `if` blocks on one dict. */
  method NormalizeBounds(before: Fields) returns (fields: Fields)
    ensures fields == RewriteNode(before)
  {
    fields := before;
    if XMIN in fields && fields[XMIN].Num? {
      var value := fields[XMIN];
      if MIN !in fields {
        fields := fields[MIN := value];
      }
      fields := fields[XMIN := Bool(true)];
    }
    if XMAX in fields && fields[XMAX].Num? {
      var value := fields[XMAX];
      if MAX !in fields {
        fields := fields[MAX := value];
      }
      fields := fields[XMAX := Bool(true)];
    }
  }

  method NormalizeItems(node: Json) returns (r: Json)
    requires node.Arr?
    ensures r == Normalize(node)
    decreases node, 0
  {
    var items := node.items;
    for i := 0 to |items|
      invariant |items| == |node.items|
      invariant forall j | 0 <= j < i :: items[j] == Normalize(node.items[j])
      invariant forall j | i <= j < |items| :: items[j] == node.items[j]
    {
      var child := NormalizeOpenapi(items[i]);
      items := items[i := child];
    }
    r := Arr(items);
  }

  method NormalizeValues(node: Json, rewritten: Fields) returns (r: Json)
    requires node.Obj? && rewritten == RewriteNode(node.fields)
    ensures r == Normalize(node)
    decreases node, 0
  {
    var fields, todo := rewritten, rewritten.Keys;
    ghost var goal := Normalize(node).fields;
    while todo != {}
      invariant todo <= rewritten.Keys && fields.Keys == rewritten.Keys
      invariant forall key | key in rewritten :: fields[key] == if key in todo then rewritten[key] else goal[key]
    {
      var key :| key in todo;
      if key in node.fields && fields[key] == node.fields[key] {
        var child := NormalizeOpenapi(fields[key]);
        fields := fields[key := child];
      }
      todo := todo - {key};
    }
    assert fields == goal;
    r := Obj(fields);
  }

  /** A node gains or changes only the four bound keys, and what it stores there is a leaf. */
  lemma RewriteNodeFrame(fields: Fields, key: string)
    ensures key in fields ==> key in RewriteNode(fields)
    ensures key !in BOUND_KEYS && key in RewriteNode(fields) ==>
              key in fields && RewriteNode(fields)[key] == fields[key]
    ensures key in RewriteNode(fields) && (key !in fields || RewriteNode(fields)[key] != fields[key]) ==>
              RewriteNode(fields)[key].Num? || RewriteNode(fields)[key] == Bool(true)
  {}

  lemma NormalizeField(fields: Fields, key: string)
    requires key in RewriteNode(fields)
    ensures Normalize(Obj(fields)).fields[key] == Normalize(RewriteNode(fields)[key])
  {
    RewriteNodeFrame(fields, key);
  }

  lemma RewriteNodeTwice(fields: Fields)
    ensures RewriteNode(RewriteNode(fields)) == RewriteNode(fields)
  {
    KeysDiffer();
  }

  /** The rewrite of a node sees only whether a bound is a number. */
  lemma NormalizedNodeIsRewritten(fields: Fields)
    ensures RewriteNode(Normalize(Obj(fields)).fields) == Normalize(Obj(fields)).fields
  {
    var result := Normalize(Obj(fields)).fields;
    KeysDiffer();
    RewriteNodeTwice(fields);
    forall key | key in {XMIN, XMAX} && key in result
      ensures !result[key].Num?
    {
      NormalizeField(fields, key);
      assert !RewriteNode(fields)[key].Num?;
    }
  }

  /** Normalising twice is normalising once, on every JSON tree. */
  lemma {:induction false} NormalizeIdempotent(node: Json)
    ensures Normalize(Normalize(node)) == Normalize(node)
  {
    match node
    case Arr(items) =>
      forall i | 0 <= i < |items|
        ensures Normalize(Normalize(items[i])) == Normalize(items[i])
      {
        NormalizeIdempotent(items[i]);
      }
    case Obj(fields) =>
      var result := Normalize(node).fields;
      NormalizedNodeIsRewritten(fields);
      forall key | key in result
        ensures Normalize(result[key]) == result[key]
      {
        NormalizeField(fields, key);
        RewriteNodeFrame(fields, key);
        if key in fields && RewriteNode(fields)[key] == fields[key] {
          NormalizeIdempotent(fields[key]);
        }
      }
    case _ =>
  }

  /** Away from the four keys nothing moves: a location whose path names none of them holds
      the normalised form of what it held, and exists exactly when it existed. */
  lemma {:induction false} NormalizeAt(node: Json, tokens: seq<string>)
    requires forall t | t in tokens :: t !in BOUND_KEYS
    ensures At(Normalize(node), tokens).Some? <==> At(node, tokens).Some?
    ensures At(node, tokens).Some? ==> At(Normalize(node), tokens).value == Normalize(At(node, tokens).value)
    decreases |tokens|
  {
    if tokens != [] {
      assert tokens[0] in tokens && forall t | t in tokens[1..] :: t in tokens;
      match node
      case Obj(fields) =>
        RewriteNodeFrame(fields, tokens[0]);
        if tokens[0] in fields {
          NormalizeField(fields, tokens[0]);
          NormalizeAt(fields[tokens[0]], tokens[1..]);
        }
      case Arr(items) =>
        var i := ParseInt(tokens[0]);
        if i.Some? && 0 <= i.value < |items| {
          NormalizeAt(items[i.value], tokens[1..]);
        }
      case _ =>
    }
  }

  // ----- the numbers a schema node accepts -----

  /** JSON Schema Validation 2020-12, sections 6.2.2 to 6.2.5: the inclusive and the exclusive bound
      are numbers of their own; values of other types have no meaning. */
  predicate Accepts(fields: Fields, x: real) {
    var low, above := Get(Obj(fields), MIN), Get(Obj(fields), XMIN);
    var high, below := Get(Obj(fields), MAX), Get(Obj(fields), XMAX);
    && (low.Num? ==> x >= low.number) && (above.Num? ==> x > above.number)
    && (high.Num? ==> x <= high.number) && (below.Num? ==> x < below.number)
  }

  /** OpenAPI 3.0.3, the Schema Object: the exclusive bound is a flag that makes the inclusive one
      strict; values of other types have no meaning. */
  predicate Accepts30(fields: Fields, x: real) {
    var low, above := Get(Obj(fields), MIN), Get(Obj(fields), XMIN);
    var high, below := Get(Obj(fields), MAX), Get(Obj(fields), XMAX);
    && (low.Num? ==> if above == Bool(true) then x > low.number else x >= low.number)
    && (high.Num? ==> if below == Bool(true) then x < high.number else x <= high.number)
  }

  /** Where the rewrite keeps a bound: a numeric exclusive bound has no inclusive one beside it or an
      equal one, and a flag, which means nothing before, stands beside no number. */
  predicate BoundKept(fields: Fields, exclusive: string, inclusive: string) {
    var e, m := Get(Obj(fields), exclusive), Get(Obj(fields), inclusive);
    && (e.Num? ==> inclusive !in fields || m == e)
    && (e == Bool(true) ==> !m.Num?)
  }

  /** The end of an interval, and whether it is excluded. */
  datatype Edge = Edge(at: real, strict: bool)

  function Strictest(fields: Fields, inclusive: string, exclusive: string, lower: bool): Option<Edge> {
    var m, e := Get(Obj(fields), inclusive), Get(Obj(fields), exclusive);
    if e.Num? then
      Some(if m.Num? && (if lower then e.number < m.number else e.number > m.number)
           then Edge(m.number, false) else Edge(e.number, true))
    else if m.Num? then Some(Edge(m.number, false))
    else None
  }

  function LowEdge(fields: Fields): Option<Edge> { Strictest(fields, MIN, XMIN, true) }
  function HighEdge(fields: Fields): Option<Edge> { Strictest(fields, MAX, XMAX, false) }

  predicate Within(low: Option<Edge>, high: Option<Edge>, x: real) {
    && (low.Some? ==> if low.value.strict then x > low.value.at else x >= low.value.at)
    && (high.Some? ==> if high.value.strict then x < high.value.at else x <= high.value.at)
  }

  predicate NothingWithin(low: Option<Edge>, high: Option<Edge>) {
    low.Some? && high.Some? &&
    (low.value.at > high.value.at ||
     (low.value.at == high.value.at && (low.value.strict || high.value.strict)))
  }

  /** The node accepts no number at all. */
  predicate AcceptsNothing(fields: Fields) { NothingWithin(LowEdge(fields), HighEdge(fields)) }

  lemma AcceptsIsInterval(fields: Fields, x: real)
    ensures Accepts(fields, x) <==> Within(LowEdge(fields), HighEdge(fields), x)
  {}

  /** Some number lies between two edges unless they leave nothing. */
  lemma SomethingWithin(low: Option<Edge>, high: Option<Edge>) returns (x: real)
    ensures NothingWithin(low, high) || Within(low, high, x)
  {
    x := if low.None? && high.None? then 0.0
         else if high.None? then low.value.at + 1.0
         else if low.None? then high.value.at - 1.0
         else (low.value.at + high.value.at) / 2.0;
  }

  lemma LowDiffers(low: Option<Edge>, low': Option<Edge>, high: Option<Edge>, high': Option<Edge>, p: real)
    returns (x: real)
    requires low != low' && Within(low, high, p) && Within(low', high', p)
    ensures Within(low, high, x) != Within(low', high', x)
  {
    if low.None? || low'.None? {
      var at := if low.None? then low'.value.at else low.value.at;
      x := (if at < p then at else p) - 1.0;
    } else {
      x := (low.value.at + low'.value.at) / 2.0;
    }
  }

  lemma HighDiffers(low: Option<Edge>, low': Option<Edge>, high: Option<Edge>, high': Option<Edge>, p: real)
    returns (x: real)
    requires high != high' && Within(low, high, p) && Within(low', high', p)
    ensures Within(low, high, x) != Within(low', high', x)
  {
    if high.None? || high'.None? {
      var at := if high.None? then high'.value.at else high.value.at;
      x := (if at > p then at else p) + 1.0;
    } else {
      x := (high.value.at + high'.value.at) / 2.0;
    }
  }

  /** Two intervals hold the same numbers exactly when they have the same ends or are both empty. */
  lemma SameInterval(low: Option<Edge>, high: Option<Edge>, low': Option<Edge>, high': Option<Edge>)
    ensures (forall x :: Within(low, high, x) <==> Within(low', high', x)) <==>
            (low == low' && high == high') || (NothingWithin(low, high) && NothingWithin(low', high'))
  {
    var p := SomethingWithin(low, high);
    var q := SomethingWithin(low', high');
    if Within(low, high, p) && Within(low', high', p) {
      if low != low' {
        var x := LowDiffers(low, low', high, high', p);
      } else if high != high' {
        var x := HighDiffers(low, low', high, high', p);
      }
    }
  }

  /** The accepted numbers are the same before, by 2020-12, and after, by 3.0.3. */
  ghost predicate SameNumbers(before: Fields, after: Fields) {
    forall x :: Accepts(before, x) <==> Accepts30(after, x)
  }

  /** The edge a bound has after the rewrite, read off the node before it: a numeric exclusive bound
      counts only where no inclusive one stands beside it; otherwise the inclusive one turns strict. */
  function EdgeLeft(fields: Fields, inclusive: string, exclusive: string): Option<Edge> {
    var m, e := Get(Obj(fields), inclusive), Get(Obj(fields), exclusive);
    if e.Num? && inclusive !in fields then Some(Edge(e.number, true))
    else if m.Num? then Some(Edge(m.number, e.Num? || e == Bool(true)))
    else None
  }

  /** No number is left between the edges after the rewrite. */
  predicate LeavesNothing(fields: Fields) {
    NothingWithin(EdgeLeft(fields, MIN, XMIN), EdgeLeft(fields, MAX, XMAX))
  }

  lemma EdgesKept(fields: Fields)
    ensures EdgeLeft(fields, MIN, XMIN) == LowEdge(fields) <==> BoundKept(fields, XMIN, MIN)
    ensures EdgeLeft(fields, MAX, XMAX) == HighEdge(fields) <==> BoundKept(fields, XMAX, MAX)
  {
    KeysDiffer();
  }

  lemma RewrittenIsInterval(fields: Fields, x: real)
    ensures Accepts30(RewriteNode(fields), x) <==>
            Within(EdgeLeft(fields, MIN, XMIN), EdgeLeft(fields, MAX, XMAX), x)
  {
    KeysDiffer();
  }

  /** The rewrite keeps the numbers a node accepts if and only if it keeps both bounds, or the node
      accepted nothing and its remaining edges leave nothing. */
  lemma RewriteKeepsNumbers(fields: Fields)
    ensures SameNumbers(fields, RewriteNode(fields)) <==>
            (BoundKept(fields, XMIN, MIN) && BoundKept(fields, XMAX, MAX)) ||
            (AcceptsNothing(fields) && LeavesNothing(fields))
  {
    var low, high := EdgeLeft(fields, MIN, XMIN), EdgeLeft(fields, MAX, XMAX);
    EdgesKept(fields);
    SameInterval(LowEdge(fields), HighEdge(fields), low, high);
    forall x
      ensures Accepts(fields, x) <==> Within(LowEdge(fields), HighEdge(fields), x)
      ensures Accepts30(RewriteNode(fields), x) <==> Within(low, high, x)
    {
      AcceptsIsInterval(fields, x);
      RewrittenIsInterval(fields, x);
    }
  }

  /** A node the rewrite changes: with a minimum below its exclusive minimum, every number between
      the two is rejected before and accepted after. */
  lemma LooserMinimum(minimum: real, exclusive: real, x: real)
    requires minimum < x <= exclusive
    ensures var fields: Fields := map["minimum" := Num(minimum), "exclusiveMinimum" := Num(exclusive)];
            !Accepts(fields, x) && Accepts30(RewriteNode(fields), x)
  {
    KeysDiffer();
  }

  /** The same with a maximum above the exclusive maximum. */
  lemma LooserMaximum(maximum: real, exclusive: real, x: real)
    requires exclusive <= x < maximum
    ensures var fields: Fields := map["maximum" := Num(maximum), "exclusiveMaximum" := Num(exclusive)];
            !Accepts(fields, x) && Accepts30(RewriteNode(fields), x)
  {
    KeysDiffer();
  }

  /** Another one: a flag beside a minimum, which 2020-12 ignores and the rewrite leaves in place, so
      that the minimum itself is accepted before and rejected after. */
  lemma FlagTightens(minimum: real)
    ensures var fields: Fields := map["minimum" := Num(minimum), "exclusiveMinimum" := Bool(true)];
            RewriteNode(fields) == fields && Accepts(fields, minimum) && !Accepts30(RewriteNode(fields), minimum)
  {
    KeysDiffer();
  }

  // ----- the same at every node of a document -----

  /** Two values say the same as a bound. */
  predicate SameBound(u: Json, v: Json) {
    (u.Num? || v.Num? ==> u == v) && (u == Bool(true) <==> v == Bool(true))
  }

  lemma NormalizedBound(fields: Fields, key: string)
    ensures SameBound(Get(Normalize(Obj(fields)), key), Get(Obj(RewriteNode(fields)), key))
  {
    if key in RewriteNode(fields) {
      NormalizeField(fields, key);
    }
  }

  lemma SameBoundsAccept(a: Fields, b: Fields, x: real)
    requires SameBound(Get(Obj(a), MIN), Get(Obj(b), MIN)) && SameBound(Get(Obj(a), XMIN), Get(Obj(b), XMIN))
    requires SameBound(Get(Obj(a), MAX), Get(Obj(b), MAX)) && SameBound(Get(Obj(a), XMAX), Get(Obj(b), XMAX))
    ensures Accepts30(a, x) <==> Accepts30(b, x)
  {}

  /** Normalising the values of a node does not touch the bounds it reads. */
  lemma BoundsOfNormalized(fields: Fields, x: real)
    ensures Accepts30(Normalize(Obj(fields)).fields, x) <==> Accepts30(RewriteNode(fields), x)
  {
    NormalizedBound(fields, MIN);
    NormalizedBound(fields, XMIN);
    NormalizedBound(fields, MAX);
    NormalizedBound(fields, XMAX);
    SameBoundsAccept(Normalize(Obj(fields)).fields, RewriteNode(fields), x);
  }

  /** At every schema node of the tree the accepted numbers are preserved if and only if each
      numeric exclusive bound has no inclusive bound beside it, or an equal one, and no flag stands
      beside a number, or no number was accepted before and the remaining edges leave none. */
  lemma NormalizeKeepsNumbers(document: Json, tokens: seq<string>)
    requires forall t | t in tokens :: t !in BOUND_KEYS
    requires At(document, tokens).Some? && At(document, tokens).value.Obj?
    ensures At(Normalize(document), tokens).Some? && At(Normalize(document), tokens).value.Obj?
    ensures var before, after := At(document, tokens).value.fields, At(Normalize(document), tokens).value.fields;
            SameNumbers(before, after) <==>
            ((BoundKept(before, XMIN, MIN) && BoundKept(before, XMAX, MAX)) ||
             (AcceptsNothing(before) && LeavesNothing(before)))
  {
    NormalizeAt(document, tokens);
    var before := At(document, tokens).value.fields;
    NodeKeepsNumbers(before);
  }

  lemma NodeKeepsNumbers(before: Fields)
    ensures SameNumbers(before, Normalize(Obj(before)).fields) <==>
            (BoundKept(before, XMIN, MIN) && BoundKept(before, XMAX, MAX)) ||
            (AcceptsNothing(before) && LeavesNothing(before))
  {
    var after := Normalize(Obj(before)).fields;
    forall x
      ensures Accepts30(after, x) <==> Accepts30(RewriteNode(before), x)
    {
      BoundsOfNormalized(before, x);
    }
    RewriteKeepsNumbers(before);
    assert SameNumbers(before, after) <==> SameNumbers(before, RewriteNode(before));
  }
}
