/** The property a removal is about: `_removed_property_name` of
    check_agent_server_rest_api_breakage.py, its pattern written out. */
module PropertyName {
  import opened Wrappers
  import opened Text

  const REQUEST_WORDS := "request property"
  const OTHER_WORDS: seq<string> := ["optional property", "required property"]

  /** The first backtick from i on. */
  function FindBacktick(text: string, i: nat): (r: Option<nat>)
    requires i <= |text|
    ensures r.Some? ==> i <= r.value < |text|
    decreases |text| - i
  {
    if i == |text| then None else if text[i] == '`' then Some(i) else FindBacktick(text, i + 1)
  }

  /** One of the alternatives at i, a space and a quoted text that is not empty. */
  function NameAt(text: string, i: nat, words: seq<string>): Option<string> {
    if words == [] then None
    else
      var start := i + |words[0]| + 2;
      if OccursAt(text, i, words[0]) && OccursAt(text, i + |words[0]|, " `")
         && FindBacktick(text, start).Some? && FindBacktick(text, start).value > start
      then Some(text[start..FindBacktick(text, start).value])
      else NameAt(text, i, words[1..])
  }

  /** `re.search`: the first position with a match. */
  function FindName(text: string, i: nat, words: seq<string>): Option<string>
    requires i <= |text|
    decreases |text| - i
  {
    if NameAt(text, i, words).Some? then NameAt(text, i, words)
    else if i == |text| then None
    else FindName(text, i + 1, words)
  }

  /** `s.rstrip("/")`. */
  function WithoutSlashes(s: string): string {
    if s != "" && s[|s| - 1] == '/' then WithoutSlashes(s[..|s| - 1]) else s
  }

  /** `s.rsplit("/", maxsplit=1)[-1]`. */
  function LastPart(s: string): string {
    if s == "" || s[|s| - 1] == '/' then "" else LastPart(s[..|s| - 1]) + [s[|s| - 1]]
  }

  function RemovedPropertyName(text: string): Option<string> {
    match FindName(text, 0, [REQUEST_WORDS] + OTHER_WORDS)
    case Some(name) => Some(LastPart(WithoutSlashes(name)))
    case None => None
  }

  /** An alternative that occurs nowhere can be left out of the pattern. */
  lemma {:induction false} UnusedAlternative(text: string, i: nat, w: string, words: seq<string>)
    requires i <= |text| && !Contains(text, w)
    ensures FindName(text, i, [w] + words) == FindName(text, i, words)
    decreases |text| - i
  {
    assert ([w] + words)[1..] == words;
    assert !OccursAt(text, i, w);
    assert NameAt(text, i, [w] + words) == NameAt(text, i, words);
    if i < |text| {
      UnusedAlternative(text, i + 1, w, words);
    }
  }

  /** No character of a word changes in lower case. */
  predicate IsLower(w: string) { forall i | 0 <= i < |w| :: !('A' <= w[i] <= 'Z') }

  /** A word in lower case that occurs in a text occurs in the text in lower case. */
  lemma LowerContains(text: string, w: string)
    requires IsLower(w) && Contains(text, w)
    ensures Contains(Lower(text), w)
  {
    var i :| 0 <= i <= |text| && OccursAt(text, i, w);
    forall k | 0 <= k < |w|
      ensures Lower(text)[i + k] == w[k]
    {
      assert text[i + k] == w[k];
    }
    assert OccursAt(Lower(text), i, w);
  }

  /** The same for an alternative that does not occur in the text in lower case. */
  lemma UnusedInLower(text: string, w: string, words: seq<string>)
    requires IsLower(w) && !Contains(Lower(text), w)
    ensures FindName(text, 0, [w] + words) == FindName(text, 0, words)
  {
    if Contains(text, w) {
      LowerContains(text, w);
    }
    UnusedAlternative(text, 0, w, words);
  }

  // ----- the name a report is about -----

  predicate IsPropertyWord(w: string) {
    w == "request property" || w == "optional property" || w == "required property"
  }

  /** At n the text says what was removed: a word for it, a space and the quoted path of a property.
      No backtick stands in front. */
  predicate IsQuoted(text: string, n: nat, w: string, path: string) {
    && n + |w| + 3 + |path| <= |text| && OccursAt(text, n, w) && text[n + |w|] == ' ' && text[n + |w| + 1] == '`'
    && (forall k: nat | k < |path| :: text[n + |w| + 2 + k] == path[k]) && text[n + |w| + 2 + |path|] == '`'
    && '`' !in path && path != "" && forall i: nat | i < n :: text[i] != '`'
  }

  lemma {:induction false} BacktickFound(text: string, i: nat, n: nat)
    requires i <= n < |text| && text[n] == '`' && forall x | i <= x < n :: text[x] != '`'
    ensures FindBacktick(text, i) == Some(n)
    decreases n - i
  {
    if i < n {
      BacktickFound(text, i + 1, n);
    }
  }

  lemma QuoteAt(text: string, n: nat, w: string, path: string)
    requires IsQuoted(text, n, w, path)
    ensures OccursAt(text, n + |w|, " `") && FindBacktick(text, n + |w| + 2) == Some(n + |w| + 2 + |path|)
    ensures text[n + |w| + 2..n + |w| + 2 + |path|] == path
  {
    forall x | n + |w| + 2 <= x < n + |w| + 2 + |path|
      ensures text[x] != '`'
    {
      assert text[n + |w| + 2 + (x - n - |w| - 2)] == path[x - n - |w| - 2];
    }
    BacktickFound(text, n + |w| + 2, n + |w| + 2 + |path|);
  }

  /** An alternative and the start of a quotation at i. */
  predicate Opens(text: string, i: nat, w: string) { OccursAt(text, i, w) && OccursAt(text, i + |w|, " `") }

  lemma {:induction false} NameNeedsWord(text: string, i: nat, words: seq<string>)
    requires forall w | w in words :: !Opens(text, i, w)
    ensures NameAt(text, i, words) == None
  {
    if words != [] {
      assert !Opens(text, i, words[0]);
      NameNeedsWord(text, i, words[1..]);
    }
  }

  lemma {:induction false} NameOfQuoted(text: string, i: nat, words: seq<string>, w: string, path: string)
    requires w in words && IsQuoted(text, i, w, path) && forall v | v in words && Opens(text, i, v) :: v == w
    ensures NameAt(text, i, words) == Some(path)
  {
    QuoteAt(text, i, w, path);
    if words[0] != w {
      assert !Opens(text, i, words[0]);
      NameOfQuoted(text, i, words[1..], w, path);
    }
  }

  lemma PropertyWords(w: string)
    ensures w in [REQUEST_WORDS] + OTHER_WORDS <==> IsPropertyWord(w)
  {}

  lemma WordShape(w: string)
    requires IsPropertyWord(w)
    ensures 16 <= |w| <= 17 && (|w| == 16 ==> w[0] == 'r' && w[4] == 'e')
    ensures |w| == 17 ==> w[1] != 'r' && (w[0] == 'o' || w[4] == 'i')
    ensures forall k | 0 <= k < |w| :: w[k] != '`'
  {}

  lemma OneWord(text: string, i: nat, v: string, w: string)
    requires IsPropertyWord(v) && IsPropertyWord(w) && OccursAt(text, i, v) && OccursAt(text, i, w)
    ensures v == w
  {
    WordShape(v);
    WordShape(w);
    assert text[i + 0] == v[0] == w[0] && text[i + 4] == v[4] == w[4];
    if |v| == |w| {
      assert forall k | 0 <= k < |v| :: v[k] == text[i + k] == w[k];
    }
  }

  /** A quotation does not start before the first backtick. */
  lemma OpensAtQuote(text: string, i: nat, v: string, n: nat, w: string, path: string)
    requires IsQuoted(text, n, w, path) && Opens(text, i, v) && forall k | 0 <= k < |w| :: w[k] != '`'
    ensures i + |v| >= n + |w|
  {
    assert text[i + |v| + 1] == " `"[1];
    assert forall x | n <= x < n + |w| :: text[x] == w[x - n];
  }

  lemma NoEarlierName(text: string, i: nat, v: string, n: nat, w: string, path: string)
    requires IsPropertyWord(v) && IsPropertyWord(w) && IsQuoted(text, n, w, path) && i < n
    ensures !Opens(text, i, v)
  {
    WordShape(v);
    WordShape(w);
    if Opens(text, i, v) {
      OpensAtQuote(text, i, v, n, w, path);
    }
  }

  lemma {:induction false} FirstName(text: string, i: nat, n: nat, words: seq<string>, path: string)
    requires i <= n <= |text| && NameAt(text, n, words) == Some(path)
    requires forall x: nat | i <= x < n :: NameAt(text, x, words) == None
    ensures FindName(text, i, words) == Some(path)
    decreases n - i
  {
    if i < n {
      FirstName(text, i + 1, n, words, path);
    }
  }

  /** The pattern finds the quoted path. */
  lemma PathOfRemoval(text: string, n: nat, w: string, path: string)
    requires IsPropertyWord(w) && IsQuoted(text, n, w, path)
    ensures FindName(text, 0, [REQUEST_WORDS] + OTHER_WORDS) == Some(path)
  {
    var words := [REQUEST_WORDS] + OTHER_WORDS;
    PropertyWords(w);
    forall v | v in words
      ensures IsPropertyWord(v) && (Opens(text, n, v) ==> v == w)
    {
      PropertyWords(v);
      if Opens(text, n, v) {
        OneWord(text, n, v, w);
      }
    }
    NameOfQuoted(text, n, words, w, path);
    forall x: nat | x < n
      ensures NameAt(text, x, words) == None
    {
      forall v | v in words
        ensures !Opens(text, x, v)
      {
        NoEarlierName(text, x, v, n, w, path);
      }
      NameNeedsWord(text, x, words);
    }
    FirstName(text, 0, n, words, path);
  }

  lemma {:induction false} SlashesGo(s: string, slashes: string)
    requires (s == "" || s[|s| - 1] != '/') && forall k | 0 <= k < |slashes| :: slashes[k] == '/'
    ensures WithoutSlashes(s + slashes) == s
    decreases |slashes|
  {
    if slashes == "" {
      assert s + slashes == s;
    } else {
      var n := |slashes| - 1;
      assert (s + slashes)[..|s + slashes| - 1] == s + slashes[..n];
      SlashesGo(s, slashes[..n]);
    }
  }

  lemma {:induction false} PartBehindSlash(front: string, name: string)
    requires '/' !in name && (front == "" || front[|front| - 1] == '/')
    ensures LastPart(front + name) == name
    decreases |name|
  {
    if name == "" {
      assert front + name == front;
    } else {
      var n := |name| - 1;
      assert (front + name)[..|front + name| - 1] == front + name[..n];
      PartBehindSlash(front, name[..n]);
      assert name == name[..n] + [name[n]];
    }
  }

  /** The removed property is the last part of the path that the report quotes, slashes at its end
      aside. */
  lemma RemovedName(text: string, n: nat, w: string, front: string, name: string, slashes: string)
    requires IsPropertyWord(w) && IsQuoted(text, n, w, front + name + slashes)
    requires name != "" && '/' !in name && (front == "" || front[|front| - 1] == '/')
    requires forall k | 0 <= k < |slashes| :: slashes[k] == '/'
    ensures RemovedPropertyName(text) == Some(name)
  {
    PathOfRemoval(text, n, w, front + name + slashes);
    assert (front + name)[|front + name| - 1] == name[|name| - 1];
    SlashesGo(front + name, slashes);
    PartBehindSlash(front, name);
  }
}
