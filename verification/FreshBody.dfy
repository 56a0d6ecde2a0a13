/** Pull request bodies that no run has touched: exactly when last writer wins on them, and what
    happens where it does not. */
module FreshBody {
  import opened Wrappers
  import opened Text
  import opened SummarySection
  import opened WrittenBlock
  import opened GeneratedBlock
  import opened LastWriter

  // ----- bodies no run has touched -----

  lemma NoBlocks(l: Layout, s: string)
    requires !Contains(s, l.start)
    ensures ReplaceBlocks(l, s) == s
  {
    assert s + "" == s;
    NothingReplaced(l, s, "");
  }

  /** The text ends in a line that holds only two hashes. */
  predicate EndsInHashes(s: string) {
    |s| >= 3 && s[|s| - 3] == '\n' && s[|s| - 2] == '#' == s[|s| - 1]
  }

  lemma FreshAuthor(l: Layout, body: string, b: Bounds)
    requires SummaryBounds(l, body) == Some(b) && !Contains(body[b.from..b.to], l.start)
    ensures Author(l, body, b) == StripRight(l, body[b.from..b.to])
    ensures AllSpace(l, body[b.from..b.to][|Author(l, body, b)|..])
  {
    NoBlocks(l, body[b.from..b.to]);
    StripRightDropsSpace(l, body[b.from..b.to]);
  }

  lemma SpaceFollows(l: Layout, body: string, b: Bounds, c: string)
    requires b.from <= b.to <= |body| && c <= body[b.from..b.to] && AllSpace(l, body[b.from..b.to][|c|..])
    ensures forall x | 0 <= x < |c| :: c[x] == body[b.from + x]
    ensures b.from + |c| < b.to ==> l.space(body[b.from + |c|])
  {
    var section := body[b.from..b.to];
    if |c| < |section| {
      assert section[|c|..][0] == section[|c|] == body[b.from + |c|];
    }
  }

  /** No heading starts between `from` and `to`, where the text ends or the next heading starts. */
  ghost predicate IsSection(l: Layout, s: string, b: Bounds) {
    && b.from <= b.to <= |s| && (b.to == |s| || HeadingAt(l, s, b.to))
    && forall x | b.from <= x < b.to :: !HeadingAt(l, s, x)
  }

  /** A heading after c, once a newline follows it, is two hashes at the very end of the body. */
  lemma FreshHeading(l: Layout, body: string, b: Bounds, c: string, i: nat)
    requires l.space('\n') && !l.space('#') && IsSection(l, body, b)
    requires c != "" && c[0] == '\n' && c <= body[b.from..b.to] && AllSpace(l, body[b.from..b.to][|c|..])
    requires i <= |c| + 1 && HeadingAt(l, c + "\n", i)
    ensures b.to == |body| && EndsInHashes(body)
  {
    SpaceFollows(l, body, b, c);
    assert i > 0 && i + 2 <= |c|;
    assert !HeadingAt(l, body, b.from + i);
  }

  lemma FreshHeadings(l: Layout, body: string, b: Bounds, c: string)
    requires l.space('\n') && !l.space('#') && IsSection(l, body, b)
    requires c != "" && c[0] == '\n' && c <= body[b.from..b.to] && AllSpace(l, body[b.from..b.to][|c|..])
    ensures NoHeading(l, c + "\n") <==> !(b.to == |body| && EndsInHashes(body))
  {
    if b.to == |body| && EndsInHashes(body) {
      HashesAreText(l, body, b.from, c);
      assert HeadingAt(l, c + "\n", |c| - 2);
    } else {
      forall i | 0 <= i <= |c + "\n"|
        ensures !HeadingAt(l, c + "\n", i)
      {
        if HeadingAt(l, c + "\n", i) {
          FreshHeading(l, body, b, c, i);
        }
      }
    }
  }

  /** Two hashes at the end are not stripped. */
  lemma HashesAreText(l: Layout, body: string, from: nat, c: string)
    requires !l.space('#') && EndsInHashes(body) && from < |body| && c != "" && c[0] == '\n'
    requires c <= body[from..] && AllSpace(l, body[from..][|c|..])
    ensures c == body[from..] && EndsInHashes(c)
  {
    RestIsSpace(l, body[from..], c);
    assert body[from..][|body| - from - 1] == '#';
  }

  lemma RestIsSpace(l: Layout, s: string, c: string)
    requires c <= s && AllSpace(l, s[|c|..])
    ensures forall x | |c| <= x < |s| :: l.space(s[x])
  {
    var rest := s[|c|..];
    assert forall x | |c| <= x < |s| :: s[x] == rest[x - |c|];
  }

  /** On a section with text and no start marker, runs can begin unless the body ends in a line
      of two hashes: that line becomes a heading when the first run writes below it. */
  lemma FreshIsReady(l: Layout, body: string, b: Bounds)
    requires IsLayout(l) && SummaryBounds(l, body) == Some(b) && !Contains(body[b.from..b.to], l.start)
    requires Author(l, body, b) != ""
    ensures Ready(l, body) <==> !(b.to == |body| && EndsInHashes(body))
  {
    var c := Author(l, body, b);
    FreshAuthor(l, body, b);
    AuthorShape(l, body, b);
    BoundsMatch(l, body, b);
    PartLacks(body[b.from..b.to], c, l.start);
    LacksOpening(l, c);
    FreshHeadings(l, body, b, c);
  }

  lemma LacksOpening(l: Layout, c: string)
    requires !Contains(c, l.start)
    ensures !OpensBlock(l, c)
  {}

  lemma PartLacks(s: string, c: string, w: string)
    requires c <= s && !Contains(s, w)
    ensures !Contains(c, w)
  {
    forall i | 0 <= i <= |c|
      ensures !OccursAt(c, i, w)
    {
      assert !OccursAt(s, i, w);
    }
  }

  /** With two hashes at the end and a tail below them, the next heading is those hashes. */
  lemma HashesAreHeading(l: Layout, body: string, from: nat, tail: string, m: nat)
    requires l.space('\n') && EndsInHashes(body) && tail != "" && tail[0] == '\n'
    requires from <= m <= |body| - 2 && forall x | from <= x < |body| :: !HeadingAt(l, body, x)
    ensures FindHeading(l, body + tail, m) == |body| - 2
  {
    var t, n := body + tail, |body| - 2;
    assert HeadingAt(l, t, n);
    forall x | m <= x < n
      ensures !HeadingAt(l, t, x)
    {
      assert !HeadingAt(l, body, x);
    }
    HeadingFound(l, t, m, n);
  }

  lemma StartsBeforeHashes(l: Layout, body: string, from: nat, tail: string) returns (m: nat)
    requires l.space('\n') && !l.space('#') && EndsInHashes(body) && tail != "" && from < |body| && body[from] == '\n'
    ensures from <= m <= |body| - 2 && Agree(body, body + tail, from)
    ensures SpacesToLineEnd(l, body + tail, from) == Some(m)
  {
    var c := body[from..];
    assert c[|c| - 1] == '#' == c[|c| - 2] && c[0] == '\n';
    var k := StartsInAuthorText(l, body + tail, from, c);
    m := from + k;
  }

  lemma HashesSplit(l: Layout, body: string, b: Bounds, tail: string) returns (m: nat)
    requires IsLayout(l) && SummaryBounds(l, body) == Some(b) && b.from < b.to == |body| && body[b.from] == '\n'
    requires EndsInHashes(body) && tail != "" && tail[0] == '\n'
    ensures b.from <= m && SummaryBounds(l, body + tail) == Some(Bounds(m, |body| - 2))
  {
    BoundsMatch(l, body, b);
    m := StartsBeforeHashes(l, body, b.from, tail);
    HashesAreHeading(l, body, b.from, tail, m);
    BoundsMove(l, body, body + tail, b.from, Bounds(m, |body| - 2));
  }

  lemma RebuiltAtEnd(body: string, b: Bounds, c: string, tail: string)
    requires b.from <= b.to == |body| && c == body[b.from..]
    ensures Rebuilt(body, b, c, tail) == body + tail
  {}

  lemma TailStarts(l: Layout, generated: string)
    ensures Tail(l, generated) != "" && Tail(l, generated)[0] == '\n'
  {}

  lemma WrittenBelow(l: Layout, body: string, b: Bounds, generated: string)
    requires IsLayout(l) && SummaryBounds(l, body) == Some(b) && !Contains(body[b.from..b.to], l.start)
    requires Author(l, body, b) != "" && b.to == |body| && EndsInHashes(body) && Strip(l, generated) != ""
    ensures UpdateBody(l, body, generated) == body + Tail(l, generated)
  {
    var c := Author(l, body, b);
    AuthorShape(l, body, b);
    FreshAuthor(l, body, b);
    assert body[b.from..b.to] == body[b.from..];
    HashesAreText(l, body, b.from, c);
    UpdateRebuilds(l, body, b, c, generated);
    RebuiltAtEnd(body, b, c, Tail(l, generated));
  }

  /** On a body that ends in such a line the block a run writes is outside the section the next
      run finds: that one ends in front of the two hashes. */
  lemma BlockLeftBehind(l: Layout, body: string, b: Bounds, generated: string) returns (m: nat)
    requires IsLayout(l) && SummaryBounds(l, body) == Some(b) && !Contains(body[b.from..b.to], l.start)
    requires Author(l, body, b) != "" && b.to == |body| && EndsInHashes(body) && Strip(l, generated) != ""
    ensures UpdateBody(l, body, generated) == body + Tail(l, generated)
    ensures b.from <= m && SummaryBounds(l, body + Tail(l, generated)) == Some(Bounds(m, |body| - 2))
  {
    AuthorShape(l, body, b);
    WrittenBelow(l, body, b, generated);
    TailStarts(l, generated);
    m := HashesSplit(l, body, b, Tail(l, generated));
  }

  /** Text outside the section stays as it is, on every body; without a section nothing changes. */
  lemma OutsideUntouched(l: Layout, body: string, bounds: Option<Bounds>, generated: string) returns (middle: string)
    requires bounds == SummaryBounds(l, body)
    ensures bounds.None? ==> UpdateBody(l, body, generated) == body
    ensures bounds.Some? ==>
              UpdateBody(l, body, generated) == body[..bounds.value.from] + middle + body[bounds.value.to..]
  {
    middle := "";
    if bounds.Some? {
      var b := bounds.value;
      if Strip(l, generated) == "" && !Contains(body, l.start) {
        middle := body[b.from..b.to];
        assert body == body[..b.from] + middle + body[b.to..];
      } else {
        middle := Replacement(l, Author(l, body, b), Strip(l, generated));
      }
    }
  }

  // ----- where last writer wins fails: a body that ends in two hashes -----

  /** A run writes the start marker, at most two characters behind what it keeps of the section. */
  lemma ReplacementHasMarker(l: Layout, cleaned: string, summary: string) returns (q: nat)
    requires summary != ""
    ensures q <= |cleaned| + 2 && OccursAt(Replacement(l, cleaned, summary), q, l.start)
  {
    q := if Strip(l, cleaned) != "" then |cleaned| + 2 else 2;
  }

  /** The updated body has the marker within the section or two characters behind it. */
  lemma UpdateHasMarker(l: Layout, t: string, b: Bounds, generated: string) returns (p: nat)
    requires SummaryBounds(l, t) == Some(b) && !Contains(t[b.from..b.to], l.start) && Strip(l, generated) != ""
    ensures b.from <= p <= b.to + 2 && OccursAt(UpdateBody(l, t, generated), p, l.start)
  {
    FreshAuthor(l, t, b);
    var middle := Replacement(l, Author(l, t, b), Strip(l, generated));
    var q := ReplacementHasMarker(l, Author(l, t, b), Strip(l, generated));
    p := b.from + q;
    MiddleOccurs(t[..b.from], middle, t[b.to..], q, l.start);
  }

  lemma MiddleOccurs(a: string, b: string, c: string, q: nat, w: string)
    requires OccursAt(b, q, w)
    ensures OccursAt(a + b + c, |a| + q, w)
  {
    forall k | 0 <= k < |w|
      ensures (a + b + c)[|a| + q + k] == w[k]
    {
      assert b[q + k] == w[k];
    }
  }

  lemma MiddleLacks(s: string, m: nat, n: nat, w: string)
    requires m <= n <= |s| && !Contains(s, w)
    ensures !Contains(s[m..n], w)
  {
    PartLacks(s, s[..n], w);
    ContainsSuffix(s[..n], m, w);
    assert s[..n][m..] == s[m..n];
  }

  lemma SecondRunHasMarker(l: Layout, body: string, b: Bounds, first: string, second: string) returns (p: nat)
    requires IsLayout(l) && SummaryBounds(l, body) == Some(b) && !Contains(body[b.from..b.to], l.start)
    requires Author(l, body, b) != "" && b.to == |body| && EndsInHashes(body)
    requires Strip(l, first) != "" && Strip(l, second) != ""
    ensures b.from <= p <= |body| && OccursAt(UpdateBody(l, UpdateBody(l, body, first), second), p, l.start)
  {
    var m := BlockLeftBehind(l, body, b, first);
    p := BelowHashesHasMarker(l, body, b, Tail(l, first), m, second);
  }

  lemma BelowHashesHasMarker(l: Layout, body: string, b: Bounds, tail: string, m: nat, second: string) returns (p: nat)
    requires b.from <= m <= |body| - 2 && b.to == |body| && !Contains(body[b.from..b.to], l.start)
    requires SummaryBounds(l, body + tail) == Some(Bounds(m, |body| - 2)) && Strip(l, second) != ""
    ensures b.from <= p <= |body| && OccursAt(UpdateBody(l, body + tail, second), p, l.start)
  {
    HashSectionLacks(l, body, b, tail, m);
    p := UpdateHasMarker(l, body + tail, Bounds(m, |body| - 2), second);
  }

  lemma OneRunLacksMarker(l: Layout, body: string, b: Bounds, second: string, p: nat)
    requires IsLayout(l) && SummaryBounds(l, body) == Some(b) && !Contains(body[b.from..b.to], l.start)
    requires Author(l, body, b) != "" && b.to == |body| && EndsInHashes(body) && Strip(l, second) != ""
    requires b.from <= p <= |body|
    ensures !OccursAt(UpdateBody(l, body, second), p, l.start)
  {
    WrittenBelow(l, body, b, second);
    TailStarts(l, second);
    assert body[b.from..b.to] == body[b.from..];
    NotWithin(body + Tail(l, second), b.from, body[b.from..], l.start, p);
  }

  /** On a body that ends in two hashes last writer never wins: whatever the two summaries are, the
      second run's body is not the one it would have made alone. */
  lemma LastWriterLoses(l: Layout, body: string, b: Bounds, first: string, second: string)
    requires IsLayout(l) && SummaryBounds(l, body) == Some(b) && !Contains(body[b.from..b.to], l.start)
    requires Author(l, body, b) != "" && b.to == |body| && EndsInHashes(body)
    requires Strip(l, first) != "" && Strip(l, second) != ""
    ensures UpdateBody(l, UpdateBody(l, body, first), second) != UpdateBody(l, body, second)
  {
    var p := SecondRunHasMarker(l, body, b, first, second);
    OneRunLacksMarker(l, body, b, second, p);
  }

  lemma HashSectionLacks(l: Layout, body: string, b: Bounds, tail: string, m: nat)
    requires b.from <= m <= |body| - 2 && b.to == |body| && !Contains(body[b.from..b.to], l.start)
    ensures !Contains((body + tail)[m..|body| - 2], l.start)
  {
    assert body[b.from..b.to] == body[b.from..];
    MiddleLacks(body[b.from..], m - b.from, |body| - 2 - b.from, l.start);
    SliceOfSlice(body, tail, b.from, m, |body| - 2);
  }

  lemma SliceOfSlice(body: string, tail: string, from: nat, m: nat, n: nat)
    requires from <= m <= n <= |body|
    ensures (body + tail)[m..n] == body[from..][m - from..n - from]
  {
    assert (body + tail)[m..n] == body[m..n];
    assert body[from..][m - from..n - from] == body[m..n];
  }

  // ----- where it fails: a section without text -----

  /** A run on a section of which only space is left. */
  lemma BlankUpdate(l: Layout, body: string, b: Bounds, generated: string)
    requires SummaryBounds(l, body) == Some(b) && Author(l, body, b) == "" && Strip(l, generated) != ""
    ensures UpdateBody(l, body, generated) == Blanked(body, b, Written(l, Strip(l, generated)))
  {
    var block := Block(l, Strip(l, generated));
    assert Strip(l, "") == "";
    assert "\n\n" + block + "\n\n" == "\n" + ("\n" + block + "\n\n");
  }

  /** The body with an empty line and w in the place of its section. */
  function Blanked(body: string, b: Bounds, w: string): string
    requires b.from <= b.to <= |body|
  {
    body[..b.from] + ("\n" + w) + body[b.to..]
  }

  lemma BlankedStart(l: Layout, body: string, b: Bounds, w: string)
    requires l.space('\n') && b.from <= b.to <= |body| && (b.from == |body| || body[b.from] == '\n')
    requires |w| > 2 && w[0] == '\n' && !l.space(w[1])
    ensures Agree(body, Blanked(body, b, w), b.from)
    ensures SpacesToLineEnd(l, Blanked(body, b, w), b.from) == Some(b.from + 1)
  {
    var t := Blanked(body, b, w);
    assert t[b.from] == '\n' == t[b.from + 1] && t[b.from + 2] == w[1];
    TwoNewlines(l, t, b.from);
  }

  lemma BlankedEnd(l: Layout, body: string, b: Bounds, w: string)
    requires b.from <= b.to <= |body| && (body[b.to..] == "" || HeadingAt(l, body[b.to..], 0))
    requires |w| > 2 && w[|w| - 1] == '\n' && NoHeading(l, w)
    ensures b.from + 1 <= |Blanked(body, b, w)|
    ensures FindHeading(l, Blanked(body, b, w), b.from + 1) == b.from + 1 + |w|
  {
    BlankLine(l);
    NoHeadingConcat(l, "\n", w);
    var text := "\n" + w;
    assert text[0] == '\n' == text[|text| - 1];
    SectionEnds(l, body[..b.from], text, body[b.to..], b.from + 1);
  }

  /** A line end, text, and a line end, without a heading. */
  predicate IsLines(l: Layout, w: string) {
    |w| > 2 && w[0] == '\n' && !l.space(w[1]) && w[|w| - 1] == '\n' && NoHeading(l, w)
  }

  /** The next run's section starts one newline further on. */
  lemma BlankedSection(l: Layout, body: string, b: Bounds, w: string)
    requires IsLayout(l) && SummaryBounds(l, body) == Some(b) && IsLines(l, w)
    ensures SummaryBounds(l, Blanked(body, b, w)) == Some(Bounds(b.from + 1, b.from + 1 + |w|))
  {
    BoundsMatch(l, body, b);
    PostHeading(l, body, b);
    BlankedStart(l, body, b, w);
    BlankedEnd(l, body, b, w);
    BoundsMove(l, body, Blanked(body, b, w), b.from, Bounds(b.from + 1, b.from + 1 + |w|));
  }

  lemma WrittenIsLines(l: Layout, summary: string)
    requires IsLayout(l) && NoHeading(l, summary + "\n")
    requires !Contains(summary, l.end) && (summary == "" || !l.space(summary[|summary| - 1]))
    ensures IsLines(l, Written(l, summary))
  {
    WrittenHasNoHeading(l, summary);
    WrittenIsBlock(l, summary);
  }

  lemma TwoNewlines(l: Layout, t: string, i: nat)
    requires l.space('\n') && i + 2 < |t| && t[i] == '\n' == t[i + 1] && !l.space(t[i + 2])
    ensures SpacesToLineEnd(l, t, i) == Some(i + 1)
  {
    assert SpacesToLineEnd(l, t, i + 2) == None;
    assert SpacesToLineEnd(l, t, i + 1) == Some(i + 1);
  }

  lemma BlankedPieces(body: string, b: Bounds, w: string, v: string)
    requires b.from <= b.to <= |body|
    ensures b.from + 1 + |w| <= |Blanked(body, b, w)|
    ensures Blanked(body, b, w)[b.from + 1..b.from + 1 + |w|] == w
    ensures Blanked(Blanked(body, b, w), Bounds(b.from + 1, b.from + 1 + |w|), v) == Blanked(body, b, "\n" + v)
  {
    var pre, post := body[..b.from], body[b.to..];
    var t := Blanked(body, b, w);
    assert t[..b.from + 1] == pre + "\n" && t[b.from + 1 + |w|..] == post;
    assert pre + "\n" + ("\n" + v) + post == pre + ("\n" + ("\n" + v)) + post;
  }

  /** Nothing is left of a block and the newlines around it. */
  lemma WrittenVanishes(l: Layout, summary: string)
    requires IsLayout(l) && !Contains(summary, l.end) && (summary == "" || !l.space(summary[|summary| - 1]))
    ensures Cleaned(l, Written(l, summary)) == ""
  {
    WrittenIsBlock(l, summary);
    var left := "\n" + ['\n'];
    StripRightStops(l, "", left);
    assert "" + left == left;
  }

  /** A run on a body whose section is lines of which nothing is left. */
  lemma BlankAgain(l: Layout, body: string, b: Bounds, w: string, second: string)
    requires IsLayout(l) && SummaryBounds(l, body) == Some(b) && IsLines(l, w) && Cleaned(l, w) == ""
    requires Strip(l, second) != ""
    ensures UpdateBody(l, Blanked(body, b, w), second) == Blanked(body, b, "\n" + Written(l, Strip(l, second)))
  {
    BlankedSection(l, body, b, w);
    BlankedPieces(body, b, w, Written(l, Strip(l, second)));
    BlankUpdate(l, Blanked(body, b, w), Bounds(b.from + 1, b.from + 1 + |w|), second);
  }

  lemma BlankSecond(l: Layout, body: string, b: Bounds, first: string, second: string)
    requires IsLayout(l) && SummaryBounds(l, body) == Some(b) && Plain(l, first) && Strip(l, second) != ""
    ensures UpdateBody(l, Blanked(body, b, Written(l, Strip(l, first))), second)
         == Blanked(body, b, "\n" + Written(l, Strip(l, second)))
  {
    WrittenIsLines(l, Strip(l, first));
    WrittenVanishes(l, Strip(l, first));
    BlankAgain(l, body, b, Written(l, Strip(l, first)), second);
  }

  /** On a section without text every run adds a newline that no later run takes away, so last
      writer never wins. */
  lemma BlankLinesGrow(l: Layout, body: string, b: Bounds, first: string, second: string)
    requires IsLayout(l) && SummaryBounds(l, body) == Some(b) && Author(l, body, b) == ""
    requires Plain(l, first) && Strip(l, first) != "" && Strip(l, second) != ""
    ensures UpdateBody(l, body, second) == Blanked(body, b, Written(l, Strip(l, second)))
    ensures UpdateBody(l, UpdateBody(l, body, first), second) == Blanked(body, b, "\n" + Written(l, Strip(l, second)))
    ensures UpdateBody(l, UpdateBody(l, body, first), second) != UpdateBody(l, body, second)
  {
    BlankUpdate(l, body, b, first);
    BlankUpdate(l, body, b, second);
    BlankSecond(l, body, b, first, second);
    BlankedLonger(body, b, Written(l, Strip(l, second)));
  }

  lemma BlankedLonger(body: string, b: Bounds, w: string)
    requires b.from <= b.to <= |body|
    ensures Blanked(body, b, "\n" + w) != Blanked(body, b, w)
  {
    assert |Blanked(body, b, "\n" + w)| == |Blanked(body, b, w)| + 1;
  }

  // ----- the exact condition -----

  /** The last of two runs decides, for any plain first and any second summary that is not empty. */
  ghost predicate LastAlwaysWins(l: Layout, body: string) {
    forall first, second | Plain(l, first) && Strip(l, second) != "" ::
      UpdateBody(l, UpdateBody(l, body, first), second) == UpdateBody(l, body, second)
  }

  lemma OneHashIsPlain(l: Layout)
    requires IsLayout(l)
    ensures Plain(l, "#") && Strip(l, "#") == "#"
  {
    assert !OccursAt("#", 0, l.end) && !OccursAt("#", 1, l.end);
  }

  /** On a section without the start marker last writer wins if and only if the section has text
      and the body does not end in a line of two hashes. */
  lemma LastWriterIsExact(l: Layout, body: string, b: Bounds)
    requires IsLayout(l) && SummaryBounds(l, body) == Some(b) && !Contains(body[b.from..b.to], l.start)
    ensures LastAlwaysWins(l, body) <==> Author(l, body, b) != "" && !(b.to == |body| && EndsInHashes(body))
  {
    OneHashIsPlain(l);
    if Author(l, body, b) == "" {
      BlankLinesGrow(l, body, b, "#", "#");
    } else if b.to == |body| && EndsInHashes(body) {
      LastWriterLoses(l, body, b, "#", "#");
    } else {
      FreshIsReady(l, body, b);
      forall first, second | Plain(l, first) && Strip(l, second) != ""
        ensures UpdateBody(l, UpdateBody(l, body, first), second) == UpdateBody(l, body, second)
      {
        LastWriterWins(l, body, first, second);
      }
    }
  }
}
