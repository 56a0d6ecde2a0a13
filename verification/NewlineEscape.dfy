/** `_escape_newlines_in_string_literals` of check_sdk_api_breakage.py: a character-level
    lexer that rewrites raw newlines inside quoted literals. */
module NewlineEscape {
  import opened Wrappers
  import opened Text

  /** Outside a literal, inside one opened by `quote`, or just after a backslash in one. */
  datatype Mode = Code | InString(quote: char) | Escaped(quote: char)

  function Step(mode: Mode, ch: char): Mode {
    match mode
    case Code => if ch == '\'' || ch == '"' then InString(ch) else Code
    case Escaped(quote) => InString(quote)
    case InString(quote) =>
      if ch == '\\' then Escaped(quote) else if ch == quote then Code else mode
  }

  function Emit(mode: Mode, ch: char): string {
    if mode.InString? && ch == '\n' then "\\n" else [ch]
  }

  /** The lexer mode after a text. */
  function Scan(mode: Mode, text: string): Mode
    decreases |text|
  {
    if text == "" then mode else Scan(Step(mode, text[0]), text[1..])
  }

  function EscapeFrom(mode: Mode, text: string): string
    decreases |text|
  {
    if text == "" then "" else Emit(mode, text[0]) + EscapeFrom(Step(mode, text[0]), text[1..])
  }

  /** The loop of the source, with its `in_string` and `escaped` flags. */
  method EscapeNewlines(text: string) returns (out: string)
    ensures out == EscapeFrom(Code, text)
  {
    out := "";
    var inString: Option<char> := None;
    var escaped := false;
    for i := 0 to |text|
      invariant escaped ==> inString.Some?
      invariant Quoted(ModeOf(inString, escaped))
      invariant out + EscapeFrom(ModeOf(inString, escaped), text[i..]) == EscapeFrom(Code, text)
    {
      var ch := text[i];
      EscapeFirst(out, ModeOf(inString, escaped), text[i..], text[i + 1..]);
      if inString.None? {
        out := out + [ch];
        if ch == '\'' || ch == '"' {
          inString := Some(ch);
        }
      } else if escaped {
        out := out + [ch];
        escaped := false;
      } else if ch == '\\' {
        out := out + [ch];
        escaped := true;
      } else if ch == inString.value {
        out := out + [ch];
        inString := None;
      } else if ch == '\n' {
        out := out + "\\n";
      } else {
        out := out + [ch];
      }
    }
    assert text[|text|..] == "";
    assert out + "" == out;
  }

  lemma EscapeFirst(out: string, mode: Mode, text: string, rest: string)
    requires text != "" && rest == text[1..]
    ensures out + EscapeFrom(mode, text) == (out + Emit(mode, text[0])) + EscapeFrom(Step(mode, text[0]), rest)
  {}

  function ModeOf(inString: Option<char>, escaped: bool): Mode {
    if inString.None? then Code else if escaped then Escaped(inString.value) else InString(inString.value)
  }

  /** Modes the lexer can be in: a literal is opened by one of the two quotes. */
  predicate Quoted(mode: Mode) { mode.Code? || mode.quote == '\'' || mode.quote == '"' }

  lemma {:induction false} ScanConcat(mode: Mode, a: string, b: string)
    ensures Scan(mode, a + b) == Scan(Scan(mode, a), b)
    decreases |a|
  {
    if a == "" {
      assert a + b == b;
    } else {
      assert (a + b)[1..] == a[1..] + b;
      ScanConcat(Step(mode, a[0]), a[1..], b);
    }
  }

  lemma ScanEmit(mode: Mode, ch: char)
    requires Quoted(mode)
    ensures Scan(mode, Emit(mode, ch)) == Step(mode, ch)
  {
    assert [ch][1..] == "" && "\\n"[1..] == "n" && "n"[1..] == "";
  }

  /** The output leaves the lexer in the same quote and escape state as the input. */
  lemma {:induction false} EscapeKeepsState(mode: Mode, text: string)
    requires Quoted(mode)
    ensures Scan(mode, EscapeFrom(mode, text)) == Scan(mode, text)
    decreases |text|
  {
    if text != "" {
      var next := Step(mode, text[0]);
      ScanEmit(mode, text[0]);
      ScanConcat(mode, Emit(mode, text[0]), EscapeFrom(next, text[1..]));
      EscapeKeepsState(next, text[1..]);
    }
  }

  /** No raw newline stands directly inside a literal; one after a backslash may. */
  predicate Clean(mode: Mode, text: string) {
    forall i | 0 <= i < |text| && text[i] == '\n' :: !Scan(mode, text[..i]).InString?
  }

  lemma CleanUnfold(mode: Mode, text: string)
    requires text != ""
    ensures Clean(mode, text) <==>
            (mode.InString? ==> text[0] != '\n') && Clean(Step(mode, text[0]), text[1..])
  {
    var next, rest := Step(mode, text[0]), text[1..];
    forall i | 0 <= i < |rest|
      ensures rest[i] == text[i + 1] && Scan(next, rest[..i]) == Scan(mode, text[..i + 1])
    {
      assert text[..i + 1][1..] == rest[..i];
    }
    assert text[..0] == "";
    if Clean(mode, text) {
      assert forall i | 0 <= i < |rest| && rest[i] == '\n' :: !Scan(mode, text[..i + 1]).InString?;
    }
    if (mode.InString? ==> text[0] != '\n') && Clean(next, rest) {
      forall i | 0 <= i < |text| && text[i] == '\n'
        ensures !Scan(mode, text[..i]).InString?
      {
        if i > 0 {
          assert rest[i - 1] == '\n' && Scan(next, rest[..i - 1]) == Scan(mode, text[..i]);
        }
      }
    }
  }

  lemma {:induction false} EscapeIsClean(mode: Mode, text: string)
    requires Quoted(mode)
    ensures Clean(mode, EscapeFrom(mode, text))
    decreases |text|
  {
    if text != "" {
      var ch := text[0];
      var next := Step(mode, ch);
      var tail, out := EscapeFrom(next, text[1..]), EscapeFrom(mode, text);
      EscapeIsClean(next, text[1..]);
      CleanUnfold(mode, out);
      if Emit(mode, ch) == [ch] {
        assert out[1..] == tail;
      } else {
        assert out[1..] == "n" + tail && ("n" + tail)[1..] == tail;
        CleanUnfold(Step(mode, '\\'), "n" + tail);
      }
    }
  }

  /** A text is left alone exactly when it is already clean, so a second pass changes nothing. */
  lemma {:induction false} CleanIsFixed(mode: Mode, text: string)
    requires Quoted(mode)
    ensures EscapeFrom(mode, text) == text <==> Clean(mode, text)
    decreases |text|
  {
    if text != "" {
      CleanUnfold(mode, text);
      CleanIsFixed(Step(mode, text[0]), text[1..]);
      var out := EscapeFrom(mode, text);
      if Emit(mode, text[0]) == [text[0]] {
        assert out[1..] == EscapeFrom(Step(mode, text[0]), text[1..]);
        assert text == [text[0]] + text[1..];
      } else {
        assert out[0] == '\\' && text[0] == '\n';
      }
    }
  }

  lemma EscapeIdempotent(mode: Mode, text: string)
    requires Quoted(mode)
    ensures EscapeFrom(mode, EscapeFrom(mode, text)) == EscapeFrom(mode, text)
  {
    EscapeIsClean(mode, text);
    CleanIsFixed(mode, EscapeFrom(mode, text));
  }

  // ----- what the text denotes -----

  /** Code characters as they are, quotes included, and the characters of literals after
      decoding: a raw newline and the escape for one denote the same character, every
      other escape is kept as an escape. */
  datatype Item = Source(c: char) | Char(c: char) | OtherEscape(c: char)

  function Denote(mode: Mode, ch: char): seq<Item> {
    match mode
    case Code => [Source(ch)]
    case Escaped(_) => [if ch == 'n' then Char('\n') else OtherEscape(ch)]
    case InString(quote) => if ch == '\\' then [] else if ch == quote then [Source(ch)] else [Char(ch)]
  }

  function Meaning(mode: Mode, text: string): seq<Item>
    decreases |text|
  {
    if text == "" then [] else Denote(mode, text[0]) + Meaning(Step(mode, text[0]), text[1..])
  }

  lemma {:induction false} MeaningConcat(mode: Mode, a: string, b: string)
    ensures Meaning(mode, a + b) == Meaning(mode, a) + Meaning(Scan(mode, a), b)
    decreases |a|
  {
    if a == "" {
      assert a + b == b;
    } else {
      assert (a + b)[1..] == a[1..] + b;
      MeaningConcat(Step(mode, a[0]), a[1..], b);
    }
  }

  lemma EmitMeans(mode: Mode, ch: char)
    requires Quoted(mode)
    ensures Meaning(mode, Emit(mode, ch)) == Denote(mode, ch)
  {
    assert [ch][1..] == "" && "\\n"[1..] == "n" && "n"[1..] == "";
    assert Meaning(Step(mode, '\\'), "n") == Denote(Step(mode, '\\'), 'n') + [];
  }

  /** The rewrite preserves meaning: the same code around the same literal contents. */
  lemma {:induction false} EscapePreservesMeaning(mode: Mode, text: string)
    requires Quoted(mode)
    ensures Meaning(mode, EscapeFrom(mode, text)) == Meaning(mode, text)
    decreases |text|
  {
    if text != "" {
      var next := Step(mode, text[0]);
      EmitMeans(mode, text[0]);
      ScanEmit(mode, text[0]);
      MeaningConcat(mode, Emit(mode, text[0]), EscapeFrom(next, text[1..]));
      EscapePreservesMeaning(next, text[1..]);
    }
  }

  // ----- literals, written out -----

  /** Code up to a quote is copied. */
  lemma {:induction false} CodeCopied(front: string, rest: string)
    requires '\'' !in front && '"' !in front
    ensures EscapeFrom(Code, front + rest) == front + EscapeFrom(Code, rest)
    decreases |front|
  {
    if front == "" {
      assert front + rest == rest;
    } else {
      assert (front + rest)[1..] == front[1..] + rest;
      CodeCopied(front[1..], rest);
    }
  }

  /** In a literal every raw newline becomes a backslash and an n, up to the quote that closes it;
      the other quote and anything else is copied. */
  lemma {:induction false} BodyRewritten(q: char, body: string, rest: string)
    requires q == '\'' || q == '"'
    requires '\\' !in body && q !in body
    ensures EscapeFrom(InString(q), body + [q] + rest)
         == ReplaceChar(body, '\n', "\\n") + [q] + EscapeFrom(Code, rest)
    decreases |body|
  {
    if body == "" {
      assert body + [q] + rest == [q] + rest;
      EscapeStep(InString(q), q, rest);
    } else {
      var later := body[1..] + [q] + rest;
      assert body + [q] + rest == [body[0]] + later;
      BodyRewritten(q, body[1..], rest);
      EscapeStep(InString(q), body[0], later);
      var head := if body[0] == '\n' then "\\n" else [body[0]];
      Regroup(head, ReplaceChar(body[1..], '\n', "\\n"), [q], EscapeFrom(Code, rest));
    }
  }

  lemma EscapeStep(mode: Mode, c: char, rest: string)
    ensures EscapeFrom(mode, [c] + rest) == Emit(mode, c) + EscapeFrom(Step(mode, c), rest)
  {
    assert ([c] + rest)[1..] == rest;
  }

  lemma Regroup(a: string, b: string, c: string, d: string)
    ensures a + (b + c + d) == (a + b) + c + d
  {}

  /** For either quote: code, a literal without escapes, and the rest. */
  lemma LiteralRewritten(front: string, q: char, body: string, rest: string)
    requires '\'' !in front && '"' !in front && (q == '\'' || q == '"')
    requires '\\' !in body && q !in body
    ensures EscapeFrom(Code, front + ([q] + (body + [q] + rest)))
         == front + ([q] + (ReplaceChar(body, '\n', "\\n") + [q] + EscapeFrom(Code, rest)))
  {
    CodeCopied(front, [q] + (body + [q] + rest));
    assert ([q] + (body + [q] + rest))[1..] == body + [q] + rest;
    BodyRewritten(q, body, rest);
  }

  /** A backslash in a literal protects the character behind it, whatever it is. */
  lemma EscapeCopied(q: char, c: char, rest: string)
    requires q == '\'' || q == '"'
    ensures EscapeFrom(InString(q), ['\\', c] + rest) == ['\\', c] + EscapeFrom(InString(q), rest)
  {
    var text := ['\\', c] + rest;
    assert text[1..] == [c] + rest && text[1..][1..] == rest;
  }
}
