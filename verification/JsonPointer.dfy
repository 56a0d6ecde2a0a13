/** The JSON Pointer codec of check_agent_server_openapi_quality.py, against
    sections 3 (syntax) and 4 (evaluation) of RFC 6901. */
module JsonPointer {
  import opened Wrappers
  import opened Text
  import opened Json

  function EscapeToken(token: string): string {
    ReplaceChar(ReplaceChar(token, '~', "~0"), '/', "~1")
  }

  function UnescapeToken(raw: string): string {
    ReplacePair(ReplacePair(raw, '~', '1', "/"), '~', '0', "~")
  }

  function EscapeAll(tokens: seq<string>): (raws: seq<string>)
    ensures |raws| == |tokens|
  {
    if tokens == [] then [] else [EscapeToken(tokens[0])] + EscapeAll(tokens[1..])
  }

  function Joined(raws: seq<string>): string {
    if raws == [] then "" else "/" + raws[0] + Joined(raws[1..])
  }

  /** The pointer of a location: a slash and an escaped token for every step. */
  function Render(tokens: seq<string>): string {
    Joined(EscapeAll(tokens))
  }

  function UnescapeAll(raws: seq<string>): (tokens: seq<string>)
    ensures |tokens| == |raws|
  {
    if raws == [] then [] else [UnescapeToken(raws[0])] + UnescapeAll(raws[1..])
  }

  /** The tokens the resolver sees: `pointer.removeprefix("/").split("/")`, unescaped. */
  function Tokens(pointer: string): seq<string> {
    UnescapeAll(Split(if pointer != "" && pointer[0] == '/' then pointer[1..] else pointer, '/'))
  }

  /** A resolved value, or the Python exception the resolver raises. */
  datatype Resolution = Found(value: Json) | KeyError | ValueError | IndexError

  function Descend(current: Json, token: string): Resolution {
    match current
    case Obj(fields) => if token in fields then Found(fields[token]) else KeyError
    case Arr(items) =>
      (match ParseInt(token)
       case None => ValueError
       case Some(i) =>
         if 0 <= i < |items| then Found(items[i])
         else if -|items| <= i < 0 then Found(items[|items| + i])
         else IndexError)
    case _ => KeyError
  }

  function Evaluate(document: Json, tokens: seq<string>): Resolution {
    if tokens == [] then Found(document)
    else
      var next := Descend(document, tokens[0]);
      if next.Found? then Evaluate(next.value, tokens[1..]) else next
  }

  method ResolvePointer(document: Json, pointer: string) returns (r: Resolution)
    ensures r == Evaluate(document, Tokens(pointer))
  {
    var stripped := if pointer != "" && pointer[0] == '/' then pointer[1..] else pointer;
    var raws := Split(stripped, '/');
    var current, i := document, 0;
    while i < |raws|
      invariant 0 <= i <= |raws|
      invariant Evaluate(document, Tokens(pointer)) == Evaluate(current, UnescapeAll(raws[i..]))
    {
      var next := Descend(current, UnescapeToken(raws[i]));
      assert raws[i..][1..] == raws[i + 1..];
      if !next.Found? {
        return next;
      }
      current, i := next.value, i + 1;
    }
    return Found(current);
  }

  /** RFC 6901 section 4: the value a token list denotes. An array is indexed only by
      the decimal form of an index, without sign or leading zero. */
  function At(document: Json, tokens: seq<string>): Option<Json> {
    if tokens == [] then Some(document)
    else match document
      case Obj(fields) => if tokens[0] in fields then At(fields[tokens[0]], tokens[1..]) else None
      case Arr(items) =>
        (match ParseInt(tokens[0])
         case Some(i) =>
           if 0 <= i < |items| && tokens[0] == Decimal(i) then At(items[i], tokens[1..]) else None
         case None => None)
      case _ => None
  }

  // ----- the codec -----

  lemma {:induction false} EscapeUndoSlash(token: string)
    ensures var tildes := ReplaceChar(token, '~', "~0");
            ReplacePair(ReplaceChar(tildes, '/', "~1"), '~', '1', "/") == tildes
  {
    if token != "" {
      EscapeUndoSlash(token[1..]);
      var t := ReplaceChar(token[1..], '~', "~0");
      if token[0] == '~' {
        UndoAfterTilde(t);
      } else {
        UndoAfterOther(token[0], t);
      }
    }
  }

  lemma UndoAfterTilde(t: string)
    requires ReplacePair(ReplaceChar(t, '/', "~1"), '~', '1', "/") == t
    ensures ReplacePair(ReplaceChar("~0" + t, '/', "~1"), '~', '1', "/") == "~0" + t
  {
    var escaped := ReplaceChar(t, '/', "~1");
    assert ("~0" + t)[1..] == "0" + t && ("0" + t)[1..] == t;
    assert ReplaceChar("~0" + t, '/', "~1") == "~" + ("0" + escaped);
    assert ("~" + ("0" + escaped))[1..] == "0" + escaped;
    ReplacePairSkips('0', escaped, '~', '1', "/");
  }

  lemma UndoAfterOther(c: char, t: string)
    requires c != '~' && ReplacePair(ReplaceChar(t, '/', "~1"), '~', '1', "/") == t
    ensures ReplacePair(ReplaceChar([c] + t, '/', "~1"), '~', '1', "/") == [c] + t
  {
    var escaped := ReplaceChar(t, '/', "~1");
    assert ([c] + t)[1..] == t;
    if c == '/' {
      assert ("~1" + escaped)[2..] == escaped;
    } else {
      ReplacePairSkips(c, escaped, '~', '1', "/");
    }
  }

  lemma {:induction false} EscapeUndoTilde(token: string)
    ensures ReplacePair(ReplaceChar(token, '~', "~0"), '~', '0', "~") == token
  {
    if token != "" {
      EscapeUndoTilde(token[1..]);
      var t := ReplaceChar(token[1..], '~', "~0");
      if token[0] == '~' {
        assert ("~0" + t)[2..] == t;
      } else {
        ReplacePairSkips(token[0], t, '~', '0', "~");
      }
    }
  }

  /** Unescaping undoes escaping on every string, those containing "~0" or "~1" included. */
  lemma EscapeRoundTrip(token: string)
    ensures UnescapeToken(EscapeToken(token)) == token
  {
    EscapeUndoSlash(token);
    EscapeUndoTilde(token);
  }

  lemma {:induction false} EscapedHasNoSlash(s: string)
    ensures '/' !in ReplaceChar(s, '/', "~1")
  {
    if s != "" {
      EscapedHasNoSlash(s[1..]);
    }
  }

  predicate NoSlashes(raws: seq<string>) {
    raws == [] || ('/' !in raws[0] && NoSlashes(raws[1..]))
  }

  lemma {:induction false} EscapeAllRoundTrip(tokens: seq<string>)
    ensures UnescapeAll(EscapeAll(tokens)) == tokens
    ensures NoSlashes(EscapeAll(tokens))
  {
    if tokens != [] {
      EscapeRoundTrip(tokens[0]);
      EscapedHasNoSlash(ReplaceChar(tokens[0], '~', "~0"));
      EscapeAllRoundTrip(tokens[1..]);
      assert EscapeAll(tokens)[1..] == EscapeAll(tokens[1..]);
    }
  }

  lemma {:induction false} SplitJoined(first: string, raws: seq<string>)
    requires '/' !in first && NoSlashes(raws)
    ensures Split(first + Joined(raws), '/') == [first] + raws
    decreases |raws|
  {
    var rest := Joined(raws);
    if raws == [] {
      SplitAtSeparator(first, '/', "");
      assert first + rest == first;
    } else {
      var tail := raws[0] + Joined(raws[1..]);
      SplitJoined(raws[0], raws[1..]);
      assert first + rest == first + ['/'] + tail;
      SplitAtSeparator(first, '/', tail);
      assert [raws[0]] + raws[1..] == raws;
    }
  }

  lemma SplitAll(raws: seq<string>)
    requires raws != [] && NoSlashes(raws)
    ensures Split(Joined(raws)[1..], '/') == raws
  {
    SplitJoined(raws[0], raws[1..]);
    assert Joined(raws)[1..] == raws[0] + Joined(raws[1..]);
    assert [raws[0]] + raws[1..] == raws;
  }

  /** Splitting a rendered pointer gives back the token list it was rendered from. */
  lemma TokensOfRender(tokens: seq<string>)
    requires tokens != []
    ensures Tokens(Render(tokens)) == tokens
  {
    EscapeAllRoundTrip(tokens);
    SplitAll(EscapeAll(tokens));
  }

  /** Distinct locations never share a pointer. */
  lemma RenderInjective(a: seq<string>, b: seq<string>)
    requires Render(a) == Render(b)
    ensures a == b
  {
    if a != [] && b != [] {
      TokensOfRender(a);
      TokensOfRender(b);
    }
  }

  lemma {:induction false} JoinedConcat(a: seq<string>, b: seq<string>)
    ensures Joined(a + b) == Joined(a) + Joined(b)
  {
    if a == [] {
      assert a + b == b;
    } else {
      JoinedConcat(a[1..], b);
      assert (a + b)[1..] == a[1..] + b;
    }
  }

  lemma {:induction false} EscapeAllConcat(a: seq<string>, b: seq<string>)
    ensures EscapeAll(a + b) == EscapeAll(a) + EscapeAll(b)
  {
    if a == [] {
      assert a + b == b;
    } else {
      EscapeAllConcat(a[1..], b);
      assert (a + b)[1..] == a[1..] + b && (a + b)[0] == a[0];
      assert EscapeAll(a + b) == [EscapeToken(a[0])] + EscapeAll(a[1..] + b);
    }
  }

  lemma RenderConcat(a: seq<string>, b: seq<string>)
    ensures Render(a + b) == Render(a) + Render(b)
  {
    EscapeAllConcat(a, b);
    JoinedConcat(EscapeAll(a), EscapeAll(b));
  }

  /** The walk writes keywords and list indices without escaping them. */
  lemma EscapePlain(token: string)
    requires '~' !in token && '/' !in token
    ensures EscapeToken(token) == token
  {
    ReplaceCharAbsent(token, '~', "~0");
    ReplaceCharAbsent(token, '/', "~1");
  }

  // ----- evaluation -----

  lemma {:induction false} AtConcat(document: Json, a: seq<string>, b: seq<string>)
    requires At(document, a).Some?
    ensures At(document, a + b) == At(At(document, a).value, b)
    decreases |a|
  {
    if a == [] {
      assert a + b == b;
    } else {
      assert (a + b)[1..] == a[1..] + b;
      match document
      case Obj(fields) => AtConcat(fields[a[0]], a[1..], b);
      case Arr(items) => AtConcat(items[ParseInt(a[0]).value], a[1..], b);
    }
  }

  /** No step of the evaluation used an index outside RFC 6901's canonical form. */
  ghost predicate CanonicalIndices(document: Json, tokens: seq<string>) {
    tokens == [] ||
    ((document.Arr? ==> exists i: nat :: tokens[0] == Decimal(i)) &&
     var next := Descend(document, tokens[0]);
     next.Found? ==> CanonicalIndices(next.value, tokens[1..]))
  }

  /** The evaluation loop finds a value exactly where RFC 6901 does, apart from the
      signed and zero-padded indices that `int()` accepts as well. */
  lemma {:induction false} EvaluateMeansAt(document: Json, tokens: seq<string>, value: Json)
    ensures At(document, tokens) == Some(value)
       <==> Evaluate(document, tokens) == Found(value) && CanonicalIndices(document, tokens)
    decreases |tokens|
  {
    if tokens != [] {
      if document.Arr? && exists i: nat :: tokens[0] == Decimal(i) {
        var i: nat :| tokens[0] == Decimal(i);
        ParseDecimal(i);
      }
      var next := Descend(document, tokens[0]);
      if next.Found? {
        EvaluateMeansAt(next.value, tokens[1..], value);
      }
    }
  }

  // ----- pointers as RFC 6901 reads them -----

  /** RFC 6901 section 3: every tilde is followed by 0 or 1. */
  predicate WellEscaped(s: string) {
    forall i | 0 <= i < |s| && s[i] == '~' :: i + 1 < |s| && s[i + 1] in "01"
  }

  /** What a reference token stands for, read from left to right: `~0` for a tilde, `~1` for a slash. */
  function Unescaped(token: string): string {
    if |token| >= 2 && token[0] == '~' && token[1] == '0' then "~" + Unescaped(token[2..])
    else if |token| >= 2 && token[0] == '~' && token[1] == '1' then "/" + Unescaped(token[2..])
    else if token == "" then ""
    else [token[0]] + Unescaped(token[1..])
  }

  /** RFC 6901 sections 3 and 4: the value a string denotes as a pointer, if it is one. */
  function Denotes(document: Json, pointer: string): Option<Json> {
    if pointer == "" then Some(document)
    else if pointer[0] != '/' || !WellEscaped(pointer) then None
    else
      var raws := Split(pointer[1..], '/');
      At(document, seq(|raws|, i requires 0 <= i < |raws| => Unescaped(raws[i])))
  }

  lemma WellEscapedTail(s: string, n: nat)
    requires WellEscaped(s) && n <= |s|
    ensures WellEscaped(s[n..])
  {
    forall i | 0 <= i < |s[n..]| && s[n..][i] == '~'
      ensures i + 1 < |s[n..]| && s[n..][i + 1] in "01"
    {
      assert s[n + i] == '~';
    }
  }

  /** The two replacements, one after the other, read a well-formed token as it is meant. */
  lemma {:induction false} UnescapeMeans(token: string)
    requires WellEscaped(token)
    ensures UnescapeToken(token) == Unescaped(token)
    decreases |token|
  {
    if token != "" {
      if token[0] == '~' {
        var rest := token[2..];
        WellEscapedTail(token, 2);
        UnescapeMeans(rest);
        EscapeRead(token, rest);
      } else {
        WellEscapedTail(token, 1);
        UnescapeMeans(token[1..]);
        assert token == [token[0]] + token[1..];
        ReplacePairSkips(token[0], token[1..], '~', '1', "/");
        ReplacePairSkips(token[0], ReplacePair(token[1..], '~', '1', "/"), '~', '0', "~");
      }
    }
  }

  lemma EscapeRead(token: string, rest: string)
    requires |token| >= 2 && token[0] == '~' && token[1] in "01" && rest == token[2..]
    ensures UnescapeToken(token) == (if token[1] == '0' then "~" else "/") + UnescapeToken(rest)
  {
    var slashes := ReplacePair(rest, '~', '1', "/");
    if token[1] == '0' {
      assert token[1..] == "0" + rest;
      ReplacePairSkips('0', rest, '~', '1', "/");
      var once := "~" + ("0" + slashes);
      assert ReplacePair(token, '~', '1', "/") == once && once[2..] == slashes;
    } else {
      ReplacePairSkips('/', slashes, '~', '0', "~");
    }
  }

  lemma {:induction false} SplitWellEscaped(s: string)
    requires WellEscaped(s)
    ensures forall i | 0 <= i < |Split(s, '/')| :: WellEscaped(Split(s, '/')[i])
    ensures s != "" && s[0] != '/' ==> Split(s, '/')[0] != "" && Split(s, '/')[0][0] == s[0]
  {
    if s != "" {
      WellEscapedTail(s, 1);
      SplitWellEscaped(s[1..]);
      var rest, parts := Split(s[1..], '/'), Split(s, '/');
      if s[0] == '/' {
        assert forall i | 0 < i < |parts| :: parts[i] == rest[i - 1];
      } else {
        assert forall i | 0 < i < |parts| :: parts[i] == rest[i];
        FirstPart(s, rest[0]);
      }
    }
  }

  lemma FirstPart(s: string, part: string)
    requires s != "" && WellEscaped(s) && WellEscaped(part)
    requires s[0] == '~' ==> part != "" && part[0] == s[1]
    ensures WellEscaped([s[0]] + part)
  {
    forall i | 0 <= i < |[s[0]] + part| && ([s[0]] + part)[i] == '~'
      ensures i + 1 < |[s[0]] + part| && ([s[0]] + part)[i + 1] in "01"
    {
      if i > 0 {
        assert part[i - 1] == '~';
      }
    }
  }

  lemma {:induction false} UnescapeAllMeans(raws: seq<string>)
    requires forall i | 0 <= i < |raws| :: WellEscaped(raws[i])
    ensures UnescapeAll(raws) == seq(|raws|, i requires 0 <= i < |raws| => Unescaped(raws[i]))
  {
    if raws != [] {
      UnescapeMeans(raws[0]);
      UnescapeAllMeans(raws[1..]);
    }
  }

  /** The script's tokens are those of the pointer, if it is one. */
  lemma DenotesTokens(document: Json, pointer: string)
    requires pointer != "" && pointer[0] == '/' && WellEscaped(pointer)
    ensures Denotes(document, pointer) == At(document, Tokens(pointer))
  {
    WellEscapedTail(pointer, 1);
    SplitWellEscaped(pointer[1..]);
    UnescapeAllMeans(Split(pointer[1..], '/'));
  }

  /** The resolver finds the value the pointer denotes, or fails as there is none. */
  predicate Agrees(document: Json, pointer: string) {
    match Evaluate(document, Tokens(pointer))
    case Found(value) => Denotes(document, pointer) == Some(value)
    case _ => Denotes(document, pointer) == None
  }

  /** The resolver agrees with RFC 6901 if and only if the pointer is not empty and, unless nothing is
      found, starts with a slash, escapes properly and uses canonical indices only. */
  lemma ResolverMeansDenotes(document: Json, pointer: string)
    ensures Agrees(document, pointer) <==>
            pointer != "" && (Evaluate(document, Tokens(pointer)).Found? ==>
                                pointer[0] == '/' && WellEscaped(pointer)
                                && CanonicalIndices(document, Tokens(pointer)))
  {
    if pointer == "" {
      EmptyPointerIsNotTheDocument(document);
    } else {
      if pointer[0] == '/' && WellEscaped(pointer) {
        DenotesTokens(document, pointer);
      }
      var found := Evaluate(document, Tokens(pointer));
      if found.Found? {
        EvaluateMeansAt(document, Tokens(pointer), found.value);
      }
      if At(document, Tokens(pointer)).Some? {
        EvaluateMeansAt(document, Tokens(pointer), At(document, Tokens(pointer)).value);
      }
    }
  }

  /** Strings that are no pointers and are resolved all the same: a key without a slash in front ... */
  lemma UnrootedIsFound(key: string, value: Json)
    requires key != "" && '~' !in key && '/' !in key
    ensures Evaluate(Obj(map[key := value]), Tokens(key)) == Found(value)
    ensures Denotes(Obj(map[key := value]), key) == None
  {
    OneToken(key);
    assert [key][1..] == [];
  }

  lemma OneToken(key: string)
    requires '~' !in key && '/' !in key && key != ""
    ensures Tokens(key) == [key] && Tokens("/" + key) == [key]
  {
    SplitAtSeparator(key, '/', "");
    PlainStays(key, '1', "/");
    PlainStays(key, '0', "~");
    assert ("/" + key)[1..] == key;
    assert [key][1..] == [];
  }

  lemma {:induction false} PlainStays(s: string, c: char, w: string)
    requires '~' !in s
    ensures ReplacePair(s, '~', c, w) == s
  {
    if s != "" {
      PlainStays(s[1..], c, w);
    }
  }

  lemma TildeStays(s: string, c: char, w: string)
    requires |s| == 2 && s[0] == '~' && s[1] != c
    ensures ReplacePair(s, '~', c, w) == s
  {
    assert |s[1..]| == 1 && ReplacePair(s[1..], '~', c, w) == s[1..];
    assert s == [s[0]] + s[1..];
  }

  /** ... and a tilde that escapes nothing. */
  lemma BadEscapeIsFound(c: char, value: Json)
    requires c !in "01/~"
    ensures var key: string := "~" + [c];
            Evaluate(Obj(map[key := value]), Tokens("/" + key)) == Found(value)
            && Denotes(Obj(map[key := value]), "/" + key) == None
  {
    var key: string := "~" + [c];
    SplitAtSeparator(key, '/', "");
    assert ("/" + key)[1..] == key && ("/" + key)[1] == '~' && ("/" + key)[2] == c;
    TildeStays(key, '1', "/");
    TildeStays(key, '0', "~");
    assert [key][1..] == [];
  }

  /** Such an index: with a zero in front of it, it is found although the pointer denotes nothing. */
  lemma PaddedIndexIsFound(items: seq<Json>, i: nat)
    requires i < |items|
    ensures Evaluate(Arr(items), ["0" + Decimal(i)]) == Found(items[i])
    ensures At(Arr(items), ["0" + Decimal(i)]) == None
  {
    var token := "0" + Decimal(i);
    PaddedValue(Decimal(i));
    ParseDecimal(i);
    assert [token][1..] == [];
    forall j: nat
      ensures Decimal(j) != token
    {
      NoLeadingZero(j);
    }
  }

  lemma {:induction false} PaddedValue(s: string)
    requires AllDigits(s)
    ensures AllDigits("0" + s) && DigitsValue("0" + s) == DigitsValue(s)
  {
    if s != "" {
      var front := s[..|s| - 1];
      PaddedValue(front);
      assert ("0" + s)[..|s|] == "0" + front;
    } else {
      assert "0" + s == "0" && "0"[..0] == "";
    }
  }

  lemma {:induction false} NoLeadingZero(n: nat)
    ensures n > 0 ==> Decimal(n)[0] != '0'
    ensures n == 0 ==> Decimal(n) == "0"
  {
    if n >= 10 {
      NoLeadingZero(n / 10);
    }
  }

  /** Every non-empty location that exists is found again from its rendered pointer. */
  lemma ResolveRendered(document: Json, tokens: seq<string>)
    requires tokens != [] && At(document, tokens).Some?
    ensures Evaluate(document, Tokens(Render(tokens))) == Found(At(document, tokens).value)
  {
    TokensOfRender(tokens);
    EvaluateMeansAt(document, tokens, At(document, tokens).value);
  }

  /** RFC 6901 gives the empty pointer the whole document; the resolver looks up the
      key "" instead and never returns the document, whatever the document is. */
  lemma EmptyPointerIsNotTheDocument(document: Json)
    ensures At(document, []) == Some(document)
    ensures Evaluate(document, Tokens(Render([]))) != Found(document)
  {
    assert Tokens("") == [""] by {
      assert Split("", '/') == [""];
      assert UnescapeToken("") == "";
      assert [""][1..] == [];
    }
    var next := Descend(document, "");
    assert [""][1..] == [];
    assert Evaluate(document, [""]) == next;
  }

  lemma SignedValue(sign: char, i: nat)
    requires sign in "+-"
    ensures ParseInt([sign] + Decimal(i)) == Some(i * if sign == '-' then -1 else 1)
  {
    var token := [sign] + Decimal(i);
    assert token[0] == sign && !IsDigit(sign) && token[1..] == Decimal(i);
    ParseDecimal(i);
  }

  /** An index with a sign is found too, a negative one counting from the end of the list; as a pointer
      it denotes nothing. */
  lemma SignedIndexIsFound(items: seq<Json>, i: nat)
    requires i < |items|
    ensures Evaluate(Arr(items), ["+" + Decimal(i)]) == Found(items[i])
    ensures Evaluate(Arr(items), ["-" + Decimal(|items| - i)]) == Found(items[i])
    ensures At(Arr(items), ["+" + Decimal(i)]) == None && At(Arr(items), ["-" + Decimal(|items| - i)]) == None
  {
    var plus: string := "+" + Decimal(i);
    var minus: string := "-" + Decimal(|items| - i);
    SignedValue('+', i);
    SignedValue('-', |items| - i);
    assert [plus][1..] == [] && [minus][1..] == [];
    assert plus[0] == '+' && minus[0] == '-' && !IsDigit('+') && !IsDigit('-');
  }

  // ----- reported pointers as RFC 6901 reads them -----

  lemma WellEscapedConcat(a: string, b: string)
    requires WellEscaped(a) && WellEscaped(b)
    ensures WellEscaped(a + b)
  {}

  lemma {:induction false} EscapedIsWellEscaped(token: string)
    ensures WellEscaped(EscapeToken(token))
  {
    if token != "" {
      EscapedIsWellEscaped(token[1..]);
      EscapeHead(token[0], token[1..]);
      var head := if token[0] == '~' then "~0" else if token[0] == '/' then "~1" else [token[0]];
      WellEscapedConcat(head, EscapeToken(token[1..]));
      assert token == [token[0]] + token[1..];
    }
  }

  lemma EscapeHead(c: char, rest: string)
    ensures EscapeToken([c] + rest)
         == (if c == '~' then "~0" else if c == '/' then "~1" else [c]) + EscapeToken(rest)
  {
    var tildes := ReplaceChar(rest, '~', "~0");
    assert ([c] + rest)[1..] == rest;
    if c == '~' {
      assert ("~0" + tildes)[1..] == "0" + tildes && ("0" + tildes)[1..] == tildes;
      assert ReplaceChar("~0" + tildes, '/', "~1") == "~" + ("0" + ReplaceChar(tildes, '/', "~1"));
    } else {
      assert ([c] + tildes)[1..] == tildes;
    }
  }

  lemma {:induction false} RenderIsWellEscaped(tokens: seq<string>)
    ensures WellEscaped(Render(tokens))
  {
    if tokens != [] {
      EscapedIsWellEscaped(tokens[0]);
      RenderIsWellEscaped(tokens[1..]);
      var raw := EscapeToken(tokens[0]);
      WellEscapedConcat("/", raw);
      WellEscapedConcat("/" + raw, Render(tokens[1..]));
      assert EscapeAll(tokens)[1..] == EscapeAll(tokens[1..]);
    }
  }

  /** A rendered location is a pointer to that location, the whole document included. */
  lemma RenderDenotes(document: Json, tokens: seq<string>)
    ensures Denotes(document, Render(tokens)) == At(document, tokens)
  {
    if tokens != [] {
      RenderIsWellEscaped(tokens);
      TokensOfRender(tokens);
      DenotesTokens(document, Render(tokens));
    }
  }
}
