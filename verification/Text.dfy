/** The string operations of the scripts: one- and two-character `replace`, `split` on a
    character, substrings, lower-casing and decimal integers. */
module Text {
  import opened Wrappers

  /** `s.replace(c, w)` for a one-character pattern. */
  function ReplaceChar(s: string, c: char, w: string): string {
    if s == "" then "" else (if s[0] == c then w else [s[0]]) + ReplaceChar(s[1..], c, w)
  }

  /** `s.replace([a, b], w)`: left to right, occurrences do not overlap. */
  function ReplacePair(s: string, a: char, b: char, w: string): string {
    if |s| < 2 then s
    else if s[0] == a && s[1] == b then w + ReplacePair(s[2..], a, b, w)
    else [s[0]] + ReplacePair(s[1..], a, b, w)
  }

  /** `s.split(sep)`: never empty, and keeps empty parts. */
  function Split(s: string, sep: char): (parts: seq<string>)
    ensures parts != []
  {
    if s == "" then [""]
    else
      var rest := Split(s[1..], sep);
      if s[0] == sep then [""] + rest else [[s[0]] + rest[0]] + rest[1..]
  }

  lemma {:induction false} SplitAtSeparator(a: string, sep: char, b: string)
    requires sep !in a
    ensures Split(a + [sep] + b, sep) == [a] + Split(b, sep)
    ensures Split(a, sep) == [a]
  {
    if a == "" {
      assert a + [sep] + b == [sep] + b;
    } else {
      SplitAtSeparator(a[1..], sep, b);
      assert (a + [sep] + b)[1..] == a[1..] + [sep] + b;
      assert a == [a[0]] + a[1..];
    }
  }

  /** A pattern that starts with `a` cannot start at another character. */
  lemma ReplacePairSkips(c: char, s: string, a: char, b: char, w: string)
    requires c != a
    ensures ReplacePair([c] + s, a, b, w) == [c] + ReplacePair(s, a, b, w)
  {
    assert ([c] + s)[1..] == s;
  }

  lemma {:induction false} ReplaceCharAbsent(s: string, c: char, w: string)
    requires c !in s
    ensures ReplaceChar(s, c, w) == s
  {
    if s != "" {
      ReplaceCharAbsent(s[1..], c, w);
    }
  }

  /** `s.startswith(w, i)`. */
  predicate OccursAt(s: string, i: nat, w: string) {
    i + |w| <= |s| && forall k | 0 <= k < |w| :: s[i + k] == w[k]
  }

  /** `w in s`. */
  predicate Contains(s: string, w: string) { exists i | 0 <= i <= |s| :: OccursAt(s, i, w) }

  /** `s.lower()` on ASCII letters. */
  function Lower(s: string): string {
    seq(|s|, i requires 0 <= i < |s| => if 'A' <= s[i] <= 'Z' then (s[i] as int + 32) as char else s[i])
  }

  /** Only the letters from A to Z change, each to the small letter at its place. */
  lemma LowerMeans(s: string, i: nat)
    requires i < |s|
    ensures |Lower(s)| == |s|
    ensures 'A' <= s[i] <= 'Z' ==> 'a' <= Lower(s)[i] <= 'z' && Lower(s)[i] - 'a' == s[i] - 'A'
    ensures !('A' <= s[i] <= 'Z') ==> Lower(s)[i] == s[i]
  {}

  predicate IsDigit(c: char) { '0' <= c <= '9' }

  predicate AllDigits(s: string) { forall i | 0 <= i < |s| :: IsDigit(s[i]) }

  /** `str(n)`. */
  function Decimal(n: nat): (s: string)
    ensures s != "" && AllDigits(s)
  {
    var last := [('0' as int + n % 10) as char];
    if n < 10 then last else Decimal(n / 10) + last
  }

  function DigitsValue(s: string): (v: int)
    requires AllDigits(s)
    ensures v >= 0
  {
    if s == "" then 0
    else 10 * DigitsValue(s[..|s| - 1]) + (s[|s| - 1] as int - '0' as int)
  }

  /** `int(s)` on an optional sign followed by ASCII digits; None is ValueError. */
  function ParseInt(s: string): Option<int> {
    if s != "" && AllDigits(s) then Some(DigitsValue(s))
    else if |s| > 1 && s[0] in "+-" && AllDigits(s[1..]) then
      Some(if s[0] == '-' then -DigitsValue(s[1..]) else DigitsValue(s[1..]))
    else None
  }

  lemma {:induction false} ParseDecimal(n: nat)
    ensures ParseInt(Decimal(n)) == Some(n)
  {
    var s := Decimal(n);
    if n < 10 {
      assert s[..|s| - 1] == "" && DigitsValue("") == 0;
    } else {
      ParseDecimal(n / 10);
      assert s[..|s| - 1] == Decimal(n / 10);
    }
  }
}
