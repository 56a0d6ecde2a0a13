/** Skill names: the normalisation and the AgentSkills pattern of convert_legacy_skills.py. */
module SkillName {
  import opened Text

  predicate IsAlnum(c: char) { 'a' <= c <= 'z' || '0' <= c <= '9' }

  predicate IsAllowed(c: char) { IsAlnum(c) || c == '-' }

  predicate AllAllowed(s: string) { forall i | 0 <= i < |s| :: IsAllowed(s[i]) }

  /** The pattern `[a-z0-9]+(-[a-z0-9]+)*`: hyphen-separated parts, none empty. */
  predicate IsName(s: string) {
    forall part | part in Split(s, '-') :: part != "" && forall i | 0 <= i < |part| :: IsAlnum(part[i])
  }

  /** `SKILL_NAME_PATTERN.match`: `$` also matches in front of a final newline. */
  predicate Matches(s: string) {
    IsName(s) || (s != "" && s[|s| - 1] == '\n' && IsName(s[..|s| - 1]))
  }

  // ----- normalisation -----

  /** `re.sub("[^a-z0-9-]", "", s)`. */
  function KeepAllowed(s: string): string {
    if s == "" then "" else (if IsAllowed(s[0]) then [s[0]] else "") + KeepAllowed(s[1..])
  }

  /** `re.sub("-+", "-", s)`. */
  function Collapse(s: string): string {
    if |s| < 2 then s
    else if s[0] == '-' && s[1] == '-' then Collapse(s[1..])
    else [s[0]] + Collapse(s[1..])
  }

  function StripLeft(s: string): string {
    if s != "" && s[0] == '-' then StripLeft(s[1..]) else s
  }

  function StripRight(s: string): string {
    if s != "" && s[|s| - 1] == '-' then StripRight(s[..|s| - 1]) else s
  }

  /** `normalize_skill_name`; `lower` is Python's lower-casing, of which only LowerFixes is used. */
  function Normalize(lower: string -> string, name: string): string {
    StripRight(StripLeft(Collapse(KeepAllowed(ReplaceChar(lower(name), '_', "-")))))
  }

  ghost predicate LowerFixes(lower: string -> string) {
    forall s | AllAllowed(s) :: lower(s) == s
  }

  // ----- the pattern, character by character -----

  /** Every hyphen is followed by something else. */
  predicate HyphensFollowed(s: string) {
    forall i | 0 <= i < |s| :: s[i] == '-' ==> i + 1 < |s| && s[i + 1] != '-'
  }

  predicate WellFormed(s: string) { s != "" && s[0] != '-' && HyphensFollowed(s) && AllAllowed(s) }

  lemma FollowedHead(s: string)
    requires s != ""
    ensures HyphensFollowed(s) <==> HyphensFollowed(s[1..]) && (s[0] == '-' ==> |s| > 1 && s[1] != '-')
  {
    var t := s[1..];
    assert forall i | 0 <= i < |t| :: t[i] == s[i + 1];
    if HyphensFollowed(t) && (s[0] == '-' ==> |s| > 1 && s[1] != '-') {
      forall i | 0 <= i < |s|
        ensures s[i] == '-' ==> i + 1 < |s| && s[i + 1] != '-'
      {
        if i > 0 {
          assert t[i - 1] == s[i];
        }
      }
    }
  }

  ghost predicate TailsNonEmpty(parts: seq<string>) {
    forall k | 1 <= k < |parts| :: parts[k] != ""
  }

  lemma {:induction false} EmptyParts(s: string)
    ensures Split(s, '-')[0] == "" <==> s == "" || s[0] == '-'
    ensures TailsNonEmpty(Split(s, '-')) <==> HyphensFollowed(s)
  {
    if s != "" {
      var rest := Split(s[1..], '-');
      EmptyParts(s[1..]);
      FollowedHead(s);
      if s[0] == '-' {
        PrependPart("", rest);
      } else {
        SamePartTails([s[0]] + rest[0], rest);
      }
    }
  }

  lemma PrependPart(head: string, rest: seq<string>)
    requires rest != []
    ensures TailsNonEmpty([head] + rest) <==> rest[0] != "" && TailsNonEmpty(rest)
  {
    var parts := [head] + rest;
    assert forall k | 0 <= k < |rest| :: parts[k + 1] == rest[k];
    if TailsNonEmpty(parts) {
      forall k | 0 <= k < |rest|
        ensures rest[k] != ""
      {
        assert parts[k + 1] == rest[k];
      }
    }
  }

  lemma SamePartTails(head: string, rest: seq<string>)
    requires rest != []
    ensures TailsNonEmpty([head] + rest[1..]) <==> TailsNonEmpty(rest)
  {
    var parts := [head] + rest[1..];
    assert forall k | 1 <= k < |rest| :: parts[k] == rest[k];
  }

  ghost predicate AlnumParts(parts: seq<string>) {
    forall k, i | 0 <= k < |parts| && 0 <= i < |parts[k]| :: IsAlnum(parts[k][i])
  }

  lemma {:induction false} PartCharacters(s: string)
    ensures AlnumParts(Split(s, '-')) <==> AllAllowed(s)
  {
    if s != "" {
      var rest := Split(s[1..], '-');
      PartCharacters(s[1..]);
      AllowedHead(s);
      if s[0] == '-' {
        var parts := [""] + rest;
        assert forall k | 0 <= k < |rest| :: parts[k + 1] == rest[k];
        if AlnumParts(parts) {
          forall k, i | 0 <= k < |rest| && 0 <= i < |rest[k]|
            ensures IsAlnum(rest[k][i])
          {
            assert parts[k + 1] == rest[k];
          }
        }
      } else {
        GrownPart(s[0], rest);
      }
    }
  }

  lemma AllowedHead(s: string)
    requires s != ""
    ensures AllAllowed(s) <==> IsAllowed(s[0]) && AllAllowed(s[1..])
  {
    var t := s[1..];
    assert forall i | 0 <= i < |t| :: t[i] == s[i + 1];
    if AllAllowed(t) && IsAllowed(s[0]) {
      forall i | 0 <= i < |s|
        ensures IsAllowed(s[i])
      {
        if i > 0 {
          assert t[i - 1] == s[i];
        }
      }
    }
  }

  lemma GrownPart(c: char, rest: seq<string>)
    requires rest != []
    ensures AlnumParts([[c] + rest[0]] + rest[1..]) <==> IsAlnum(c) && AlnumParts(rest)
  {
    var parts := [[c] + rest[0]] + rest[1..];
    assert forall k | 1 <= k < |rest| :: parts[k] == rest[k];
    assert parts[0][0] == c && forall i | 0 <= i < |rest[0]| :: parts[0][i + 1] == rest[0][i];
    if AlnumParts(parts) {
      forall k, i | 0 <= k < |rest| && 0 <= i < |rest[k]|
        ensures IsAlnum(rest[k][i])
      {
        if k == 0 {
          assert parts[0][i + 1] == rest[0][i];
        } else {
          assert parts[k] == rest[k];
        }
      }
    }
  }

  /** The pattern read character by character. */
  lemma NameIsWellFormed(s: string)
    ensures IsName(s) <==> WellFormed(s)
    ensures IsName(s) <==>
            && s != "" && s[0] != '-' && (forall i | 0 <= i < |s| && s[i] == '-' :: i + 1 < |s| && s[i + 1] != '-')
            && forall i | 0 <= i < |s| :: 'a' <= s[i] <= 'z' || '0' <= s[i] <= '9' || s[i] == '-'
  {
    EmptyParts(s);
    PartCharacters(s);
    var parts := Split(s, '-');
    if IsName(s) {
      forall k | 0 <= k < |parts|
        ensures parts[k] != ""
      {
        assert parts[k] in parts;
      }
      forall k, i | 0 <= k < |parts| && 0 <= i < |parts[k]|
        ensures IsAlnum(parts[k][i])
      {
        assert parts[k] in parts;
      }
    }
  }

  // ----- the steps of the normalisation -----

  predicate NoDouble(s: string) {
    forall i | 0 <= i < |s| - 1 :: !(s[i] == '-' && s[i + 1] == '-')
  }

  /** The words of a string: hyphens and underscores end a word, and anything else that is not
      a lower-case letter or a digit is skipped. `word` has been read already. */
  function Words(s: string, word: string): seq<string> {
    if s == "" then Ended(word)
    else if IsAlnum(s[0]) then Words(s[1..], word + [s[0]])
    else if s[0] == '-' || s[0] == '_' then Ended(word) + Words(s[1..], "")
    else Words(s[1..], word)
  }

  function Ended(word: string): seq<string> { if word == "" then [] else [word] }

  lemma {:induction false} KeptAllowed(s: string)
    ensures AllAllowed(KeepAllowed(s)) && (AllAllowed(s) ==> KeepAllowed(s) == s)
  {
    if s != "" {
      KeptAllowed(s[1..]);
      AllowedHead(s);
    }
  }

  lemma {:induction false} KeptWords(s: string, word: string)
    requires '_' !in s
    ensures Words(KeepAllowed(s), word) == Words(s, word)
  {
    if s != "" {
      var rest := KeepAllowed(s[1..]);
      KeptWords(s[1..], if IsAlnum(s[0]) then word + [s[0]] else if s[0] == '-' then "" else word);
      if IsAllowed(s[0]) {
        assert ([s[0]] + rest)[1..] == rest;
      } else {
        assert KeepAllowed(s) == rest;
      }
    }
  }

  lemma {:induction false} ReplacedWords(s: string, word: string)
    ensures Words(ReplaceChar(s, '_', "-"), word) == Words(s, word)
    ensures '_' !in ReplaceChar(s, '_', "-")
  {
    if s != "" {
      var head := if s[0] == '_' then "-" else [s[0]];
      ReplacedWords(s[1..], if IsAlnum(s[0]) then word + [s[0]] else if s[0] == '-' || s[0] == '_' then "" else word);
      assert (head + ReplaceChar(s[1..], '_', "-"))[1..] == ReplaceChar(s[1..], '_', "-");
    }
  }

  lemma {:induction false} CollapsedWords(s: string, word: string)
    requires AllAllowed(s)
    ensures Words(Collapse(s), word) == Words(s, word)
  {
    if |s| >= 2 {
      AllowedHead(s);
      if s[0] == '-' && s[1] == '-' {
        CollapsedWords(s[1..], word);
      } else {
        CollapsedWords(s[1..], if s[0] == '-' then "" else word + [s[0]]);
        assert ([s[0]] + Collapse(s[1..]))[1..] == Collapse(s[1..]);
      }
    }
  }

  lemma {:induction false} Collapsed(s: string)
    requires AllAllowed(s)
    ensures AllAllowed(Collapse(s)) && NoDouble(Collapse(s))
    ensures (s == "" <==> Collapse(s) == "") && (s != "" ==> Collapse(s)[0] == s[0])
    ensures NoDouble(s) ==> Collapse(s) == s
  {
    if |s| >= 2 {
      AllowedHead(s);
      Collapsed(s[1..]);
      var rest := Collapse(s[1..]);
      if !(s[0] == '-' && s[1] == '-') {
        var r := [s[0]] + rest;
        assert r[1..] == rest;
        AllowedHead(r);
        assert forall i | 0 < i < |r| :: r[i] == rest[i - 1];
        if NoDouble(s) {
          assert forall i | 0 <= i < |s[1..]| :: s[1..][i] == s[i + 1];
        }
      }
    }
  }

  lemma {:induction false} StrippedLeft(s: string)
    requires AllAllowed(s) && NoDouble(s)
    ensures AllAllowed(StripLeft(s)) && NoDouble(StripLeft(s)) && Words(StripLeft(s), "") == Words(s, "")
    ensures StripLeft(s) == "" || StripLeft(s)[0] != '-'
  {
    if s != "" && s[0] == '-' {
      AllowedHead(s);
      assert forall i | 0 <= i < |s[1..]| :: s[1..][i] == s[i + 1];
      StrippedLeft(s[1..]);
    }
  }

  lemma {:induction false} FinalHyphen(s: string, word: string)
    requires AllAllowed(s)
    ensures Words(s + "-", word) == Words(s, word)
  {
    if s == "" {
      assert s + "-" == "-" && "-"[1..] == "";
    } else {
      AllowedHead(s);
      FinalHyphen(s[1..], if s[0] == '-' then "" else word + [s[0]]);
      assert (s + "-")[1..] == s[1..] + "-";
    }
  }

  lemma {:induction false} StrippedRight(s: string)
    requires AllAllowed(s) && NoDouble(s) && (s == "" || s[0] != '-')
    ensures StripRight(s) == "" || WellFormed(StripRight(s))
    ensures Words(StripRight(s), "") == Words(s, "")
  {
    if s != "" && s[|s| - 1] == '-' {
      var t := s[..|s| - 1];
      assert s == t + "-";
      FinalHyphen(t, "");
      StrippedRight(t);
    }
  }

  // ----- the promises -----

  lemma {:induction false} PartsAreWords(s: string, word: string)
    requires AllAllowed(s) && HyphensFollowed(s) && (s == "" || s[0] == '-' ==> word != "")
    ensures Words(s, word) == [word + Split(s, '-')[0]] + Split(s, '-')[1..]
  {
    if s == "" {
      assert word + "" == word;
    } else {
      var rest := Split(s[1..], '-');
      AllowedHead(s);
      FollowedHead(s);
      if s[0] == '-' {
        PartsAreWords(s[1..], "");
        assert "" + rest[0] == rest[0] && [rest[0]] + rest[1..] == rest;
        assert word + "" == word;
      } else {
        PartsAreWords(s[1..], word + [s[0]]);
        assert word + [s[0]] + rest[0] == word + ([s[0]] + rest[0]);
      }
    }
  }

  /** A normalised name is empty or matches the pattern, with no final newline. Its parts are
      the words of the lower-cased name: it is the one such string with those parts. */
  lemma NormalizeShape(lower: string -> string, name: string)
    ensures Normalize(lower, name) == "" || IsName(Normalize(lower, name))
    ensures Normalize(lower, name) == "" <==> Words(lower(name), "") == []
    ensures Normalize(lower, name) != "" ==> Split(Normalize(lower, name), '-') == Words(lower(name), "")
  {
    var a := ReplaceChar(lower(name), '_', "-");
    ReplacedWords(lower(name), "");
    KeptWords(a, "");
    KeptAllowed(a);
    var b := KeepAllowed(a);
    CollapsedWords(b, "");
    Collapsed(b);
    StrippedLeft(Collapse(b));
    StrippedRight(StripLeft(Collapse(b)));
    var r := Normalize(lower, name);
    NameIsWellFormed(r);
    if r != "" {
      PartsAreWords(r, "");
      assert "" + Split(r, '-')[0] == Split(r, '-')[0];
    }
  }

  lemma WellFormedIsFixed(lower: string -> string, name: string)
    requires LowerFixes(lower) && (name == "" || WellFormed(name))
    ensures Normalize(lower, name) == name
  {
    assert lower(name) == name;
    ReplaceCharAbsent(name, '_', "-");
    KeptAllowed(name);
    Collapsed(name);
  }

  /** The fixed points are exactly the names the pattern describes, and the empty string. */
  lemma FixedPoints(lower: string -> string, name: string)
    requires LowerFixes(lower)
    ensures Normalize(lower, name) == name <==> name == "" || IsName(name)
  {
    NormalizeShape(lower, name);
    NameIsWellFormed(name);
    if name == "" || IsName(name) {
      WellFormedIsFixed(lower, name);
    }
  }

  lemma NormalizeIdempotent(lower: string -> string, name: string)
    requires LowerFixes(lower)
    ensures Normalize(lower, Normalize(lower, name)) == Normalize(lower, name)
  {
    NormalizeShape(lower, name);
    FixedPoints(lower, Normalize(lower, name));
  }

  // ----- validation -----

  datatype NameError = Empty | TooLong | BadPattern

  /** Characters of a name, or of a name with a newline behind it. */
  predicate Acceptable(s: string) {
    WellFormed(s) || (s != "" && s[|s| - 1] == '\n' && WellFormed(s[..|s| - 1]))
  }

  /** `validate_skill_name`: a name passes exactly when it has at most 64 characters and, but for a
      final newline, consists of letters and digits with single hyphens between them; each error
      stands for the one thing that is wrong. */
  method ValidateSkillName(name: string) returns (errors: seq<NameError>)
    ensures errors == [] <==> |name| <= 64 && Acceptable(name)
    ensures Empty in errors <==> name == ""
    ensures TooLong in errors <==> |name| > 64
    ensures BadPattern in errors <==> name != "" && !Acceptable(name)
  {
    NameIsWellFormed(name);
    errors := [];
    if name == "" {
      return [Empty];
    }
    NameIsWellFormed(name[..|name| - 1]);
    if |name| > 64 {
      errors := errors + [TooLong];
    }
    if !Matches(name) {
      errors := errors + [BadPattern];
    }
  }

  /** After normalisation the pattern is never the reason to reject. */
  method ConvertName(lower: string -> string, name: string) returns (normalized: string, errors: seq<NameError>)
    ensures normalized == "" || Split(normalized, '-') == Words(lower(name), "")
    ensures BadPattern !in errors && (errors == [] <==> 0 < |normalized| <= 64)
    ensures (Empty in errors <==> normalized == "") && (TooLong in errors <==> |normalized| > 64)
  {
    normalized := Normalize(lower, name);
    NormalizeShape(lower, name);
    NameIsWellFormed(normalized);
    errors := ValidateSkillName(normalized);
  }

  /** Such a name: any name of the pattern with a newline behind it matches and is no fixed point. */
  lemma FinalNewlineMatches(lower: string -> string, name: string)
    requires LowerFixes(lower) && IsName(name)
    ensures Matches(name + "\n") && Normalize(lower, name + "\n") != name + "\n"
  {
    var longer := name + "\n";
    assert longer[..|longer| - 1] == name && longer[|longer| - 1] == '\n';
    ValidatedIsFixed(lower, longer);
  }

  /** A name the validation lets through is a fixed point unless it ends in a newline, which
      the pattern does not exclude. */
  lemma ValidatedIsFixed(lower: string -> string, name: string)
    requires LowerFixes(lower) && Matches(name)
    ensures Normalize(lower, name) == name <==> name[|name| - 1] != '\n'
  {
    FixedPoints(lower, name);
    NameIsWellFormed(name);
  }
}
