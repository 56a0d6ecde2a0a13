/** Last writer wins on exactly the bodies that are ready for a run: the two remaining ways in
    which a section can be unfit, and the condition for all bodies. */
module LastWriterExact {
  import opened Wrappers
  import opened Text
  import opened SummarySection
  import opened WrittenBlock
  import opened GeneratedBlock
  import opened LastWriter
  import opened FreshBody
  import opened UnclosedMarker

  // ----- where the next run's section starts -----

  /** t has c at `from`, and a newline behind it. */
  predicate Holds(t: string, from: nat, c: string) {
    from + |c| < |t| && t[from + |c|] == '\n' && forall x: nat | x < |c| :: t[from + x] == c[x]
  }

  lemma RebuiltHolds(body: string, b: Bounds, c: string, tail: string)
    requires b.from <= b.to <= |body| && tail != "" && tail[0] == '\n'
    ensures Holds(Rebuilt(body, b, c, tail), b.from, c)
  {}

  lemma StartIn(l: Layout, t: string, from: nat, c: string) returns (k: nat)
    requires l.space('\n') && c != "" && c[0] == '\n' && !l.space(c[|c| - 1]) && Holds(t, from, c)
    ensures k < |c| && c[k] == '\n' && SpacesToLineEnd(l, t, from) == Some(from + k)
    ensures forall i: nat | i < k :: l.space(c[i])
  {
    k := StartsInAuthorText(l, t, from, c);
    SpacesMatch(l, t, from);
    forall i: nat | i < k
      ensures l.space(c[i])
    {
      assert l.space(t[from + i]);
    }
  }

  // ----- what a run writes, by length -----

  lemma UpdateLength(l: Layout, t: string, b: Bounds, section: string, generated: string)
    requires SummaryBounds(l, t) == Some(b) && t[b.from..b.to] == section && Strip(l, generated) != ""
    ensures |UpdateBody(l, t, generated)|
         == b.from + |Replacement(l, Cleaned(l, section), Strip(l, generated))| + (|t| - b.to)
  {}

  lemma ReplacementLength(l: Layout, cleaned: string, generated: string)
    requires Strip(l, generated) != ""
    ensures |Replacement(l, cleaned, Strip(l, generated))| <= |cleaned| + |Tail(l, generated)|
  {}

  lemma RebuiltLength(body: string, b: Bounds, c: string, tail: string)
    requires b.from <= b.to <= |body|
    ensures |Rebuilt(body, b, c, tail)| == b.from + |c| + |tail| + (|body| - b.to)
  {}

  lemma TailLength(l: Layout, generated: string)
    requires Strip(l, generated) != ""
    ensures |Tail(l, generated)| == 6 + |l.start| + |Strip(l, generated)| + |l.end|
  {}

  // ----- a line that ends in the start marker -----

  lemma OpensFrom(l: Layout, c: string, k: nat)
    requires IsLayout(l) && k <= |c| && (forall i: nat | i < k :: l.space(c[i])) && OpensBlock(l, c)
    ensures OpensBlock(l, c[k..])
  {
    var i :| 0 <= i <= |c| && MarkerAt(l, c, i);
    assert c[i + 0] == l.start[0];
    MarkerFrom(l, c, k, i);
  }

  lemma MarkerFrom(l: Layout, c: string, k: nat, i: nat)
    requires k <= i <= |c| && MarkerAt(l, c, i)
    ensures MarkerAt(l, c[k..], i - k) && OpensBlock(l, c[k..])
  {
    assert c == c[..k] + c[k..];
    OccursBehind(c[..k], c[k..], i, l.start);
    assert (c + "\n")[k..] == c[k..] + "\n";
    assert forall x: nat | x < |c[k..] + "\n"| :: (c[k..] + "\n")[x] == (c + "\n")[k + x];
  }

  /** A tail with which blocks cut every text that opens one. */
  ghost predicate Cuts(opens: string -> bool, clean: string -> string, tail: string) {
    forall x | opens(x) :: |clean(x + tail)| < |x|
  }

  function Opener(l: Layout): string -> bool { x => OpensBlock(l, x) }

  lemma TailCuts(l: Layout, generated: string)
    requires IsLayout(l) && Plain(l, generated) && Strip(l, generated) != ""
    ensures Cuts(Opener(l), Cleaner(l), Tail(l, generated))
  {
    WrittenPlaced(l, Strip(l, generated));
    WrittenIsBlock(l, Strip(l, generated));
    forall x | Opener(l)(x)
      ensures |Cleaner(l)(x + Tail(l, generated))| < |x|
    {
      TextShrinks(l, x, Written(l, Strip(l, generated)), Strip(l, generated));
    }
  }

  /** The updated body is longer than what is left of the section and the tail by what is outside. */
  lemma UpdateAtMost(l: Layout, t: string, b: Bounds, section: string, left: nat, generated: string)
    requires SummaryBounds(l, t) == Some(b) && t[b.from..b.to] == section && |Cleaner(l)(section)| == left
    requires Strip(l, generated) != ""
    ensures |UpdateBody(l, t, generated)| <= b.from + left + |Tail(l, generated)| + (|t| - b.to)
  {
    UpdateLength(l, t, b, section, generated);
    ReplacementLength(l, Cleaned(l, section), generated);
  }

  /** t goes on with c and a tail up to `to`, where the section ends. */
  ghost predicate GoesOn(l: Layout, t: string, from: nat, c: string, tail: string, to: nat) {
    && Holds(t, from, c) && from + |c| <= to <= |t|
    && (forall m | from <= m < from + |c| :: FindHeading(l, t, m) == to)
    && (forall k: nat | k < |c| :: t[from + k..to] == c[k..] + tail)
  }

  /** The next run finds a section that starts in the author's text, in front of the marker. */
  lemma OpenedSection(l: Layout, body: string, b: Bounds, t: string, c: string, tail: string, to: nat)
    returns (k: nat)
    requires IsLayout(l) && SummaryBounds(l, body) == Some(b) && Agree(body, t, b.from)
    requires c != "" && c[0] == '\n' && !l.space(c[|c| - 1]) && OpensBlock(l, c)
    requires GoesOn(l, t, b.from, c, tail, to)
    ensures k < |c| && OpensBlock(l, c[k..]) && t[b.from + k..to] == c[k..] + tail
    ensures SummaryBounds(l, t) == Some(Bounds(b.from + k, to))
  {
    k := StartIn(l, t, b.from, c);
    BoundsMove(l, body, t, b.from, Bounds(b.from + k, to));
    OpensFrom(l, c, k);
  }

  lemma OpenedUpdate(l: Layout, t: string, again: Bounds, x: string, tail: string, second: string)
    requires SummaryBounds(l, t) == Some(again) && t[again.from..again.to] == x + tail && OpensBlock(l, x)
    requires Cuts(Opener(l), Cleaner(l), tail) && Strip(l, second) != ""
    ensures |UpdateBody(l, t, second)| < again.from + |x| + |Tail(l, second)| + (|t| - again.to)
  {
    assert Opener(l)(x);
    UpdateAtMost(l, t, again, x + tail, |Cleaner(l)(x + tail)|, second);
  }

  lemma OpenedSecond(l: Layout, body: string, b: Bounds, t: string, c: string, tail: string, to: nat, second: string)
    requires IsLayout(l) && SummaryBounds(l, body) == Some(b) && Agree(body, t, b.from)
    requires c != "" && c[0] == '\n' && !l.space(c[|c| - 1]) && OpensBlock(l, c)
    requires GoesOn(l, t, b.from, c, tail, to) && Cuts(Opener(l), Cleaner(l), tail) && Strip(l, second) != ""
    ensures |UpdateBody(l, t, second)| < b.from + |c| + |Tail(l, second)| + (|t| - to)
  {
    var k := OpenedSection(l, body, b, t, c, tail, to);
    OpenedUpdate(l, t, Bounds(b.from + k, to), c[k..], tail, second);
  }

  lemma RebuiltGoesOn(l: Layout, body: string, b: Bounds, c: string, tail: string)
    requires b.from <= b.to <= |body| && (body[b.to..] == "" || HeadingAt(l, body[b.to..], 0))
    requires c != "" && c[0] == '\n' && Fits(l, c, tail) && tail[0] == '\n'
    ensures GoesOn(l, Rebuilt(body, b, c, tail), b.from, c, tail, b.from + |c + tail|)
  {
    RebuiltHolds(body, b, c, tail);
    RebuiltEnds(l, body, b, c, tail);
    forall k: nat | k < |c|
      ensures Rebuilt(body, b, c, tail)[b.from + k..b.from + |c + tail|] == c[k..] + tail
    {
      SectionText(body[..b.from], c, tail, body[b.to..], k);
    }
  }

  lemma OpenedRebuilt(l: Layout, body: string, b: Bounds, c: string, tail: string, second: string)
    requires IsLayout(l) && SummaryBounds(l, body) == Some(b) && b.from < b.to && body[b.from] == '\n'
    requires c != "" && c[0] == '\n' && !l.space(c[|c| - 1]) && OpensBlock(l, c)
    requires Fits(l, c, tail) && tail[0] == '\n' && Cuts(Opener(l), Cleaner(l), tail) && Strip(l, second) != ""
    ensures |UpdateBody(l, Rebuilt(body, b, c, tail), second)| < |Rebuilt(body, b, c, Tail(l, second))|
  {
    PostHeading(l, body, b);
    RebuiltGoesOn(l, body, b, c, tail);
    RebuiltAgrees(body, b, c, tail);
    OpenedSecond(l, body, b, Rebuilt(body, b, c, tail), c, tail, b.from + |c + tail|, second);
    RebuiltLength(body, b, c, tail);
    RebuiltLength(body, b, c, Tail(l, second));
  }

  lemma CuttingTail(l: Layout, c: string, first: string)
    requires IsLayout(l) && NoHeading(l, c + "\n") && Plain(l, first) && Strip(l, first) != ""
    ensures Fits(l, c, Tail(l, first)) && Tail(l, first)[0] == '\n' && Cuts(Opener(l), Cleaner(l), Tail(l, first))
  {
    TailEnds(l, first);
    TailStarts(l, first);
    TailHasNoHeading(l, c, first);
    TailCuts(l, first);
  }

  lemma OpenedAfter(l: Layout, body: string, b: Bounds, c: string, first: string, second: string)
    requires IsLayout(l) && SummaryBounds(l, body) == Some(b) && b.from < b.to && body[b.from] == '\n'
    requires c != "" && c[0] == '\n' && !l.space(c[|c| - 1]) && OpensBlock(l, c) && NoHeading(l, c + "\n")
    requires Plain(l, first) && Strip(l, first) != "" && Strip(l, second) != ""
    ensures |UpdateBody(l, Rebuilt(body, b, c, Tail(l, first)), second)| < |Rebuilt(body, b, c, Tail(l, second))|
  {
    CuttingTail(l, c, first);
    OpenedRebuilt(l, body, b, c, Tail(l, first), second);
  }

  /** The second run on such a body cuts the author's text: it is shorter than the second run alone. */
  lemma OpenedLosesText(l: Layout, body: string, b: Bounds, c: string, first: string, second: string)
    requires IsLayout(l) && SummaryBounds(l, body) == Some(b) && Author(l, body, b) == c && c != ""
    requires OpensBlock(l, c) && NoHeading(l, c + "\n")
    requires Plain(l, first) && Strip(l, first) != "" && Strip(l, second) != ""
    ensures |UpdateBody(l, UpdateBody(l, body, first), second)| < |UpdateBody(l, body, second)|
  {
    AuthorShape(l, body, b);
    OpenedAfter(l, body, b, c, first, second);
    UpdateRebuilds(l, body, b, c, first);
    UpdateRebuilds(l, body, b, c, second);
  }

  // ----- a line that a newline makes a heading -----

  /** The first heading of the text once a newline follows it, as an index. */
  function Cut(l: Layout, c: string): nat { FindHeading(l, c + "\n", 0) }

  lemma CutIsHeading(l: Layout, c: string)
    requires !NoHeading(l, c + "\n")
    ensures Cut(l, c) + 2 <= |c| && HeadingAt(l, c + "\n", Cut(l, c))
    ensures forall x | 0 <= x < Cut(l, c) :: !HeadingAt(l, c + "\n", x)
  {
    HeadingMatch(l, c + "\n", 0);
    var i :| 0 <= i <= |c + "\n"| && HeadingAt(l, c + "\n", i);
    assert !(i < Cut(l, c));
  }

  /** In a text that holds c and a newline at `from` the next heading from start is that one. */
  lemma CutFound(l: Layout, t: string, from: nat, c: string, start: nat)
    requires !l.space('#') && !NoHeading(l, c + "\n") && c[0] == '\n' && Holds(t, from, c)
    requires start < |c| && forall i: nat | i < start :: l.space(c[i])
    ensures FindHeading(l, t, from + start) == from + Cut(l, c)
  {
    var h := Cut(l, c);
    CutIsHeading(l, c);
    assert (c + "\n")[h] == c[h] == '#';
    forall x: nat | x <= |c|
      ensures t[from + x] == (c + "\n")[x]
    {}
    forall y | from + start <= y < from + h
      ensures !HeadingAt(l, t, y)
    {
      assert !HeadingAt(l, c + "\n", y - from);
      assert t[from + (y - from)] == (c + "\n")[y - from];
      assert t[from + (y - from + 1)] == (c + "\n")[y - from + 1];
      assert t[from + (y - from + 2)] == (c + "\n")[y - from + 2];
      if y > from {
        assert t[from + (y - from - 1)] == (c + "\n")[y - from - 1];
      }
    }
    assert t[from + h] == '#' && t[from + (h + 1)] == (c + "\n")[h + 1] && t[from + (h + 2)] == (c + "\n")[h + 2];
    assert h > 0 && t[from + (h - 1)] == (c + "\n")[h - 1];
    HeadingFound(l, t, from + start, from + h);
  }

  /** The next run's section ends there. */
  lemma CutSection(l: Layout, body: string, b: Bounds, t: string, c: string) returns (k: nat)
    requires IsLayout(l) && SummaryBounds(l, body) == Some(b) && Agree(body, t, b.from)
    requires c != "" && c[0] == '\n' && !l.space(c[|c| - 1]) && !NoHeading(l, c + "\n") && Holds(t, b.from, c)
    ensures k <= Cut(l, c) <= |c| && SpacesToLineEnd(l, c + "\n", 0) == Some(k)
    ensures SummaryBounds(l, t) == Some(Bounds(b.from + k, b.from + Cut(l, c)))
  {
    k := StartIn(l, t, b.from, c);
    SameStart(l, t, b.from, c, k);
    CutFound(l, t, b.from, c, k);
    CutIsHeading(l, c);
    BoundsMove(l, body, t, b.from, Bounds(b.from + k, b.from + Cut(l, c)));
  }

  /** Where the section starts depends on c alone. */
  lemma SameStart(l: Layout, t: string, from: nat, c: string, k: nat)
    requires l.space('\n') && c != "" && c[0] == '\n' && !l.space(c[|c| - 1]) && Holds(t, from, c)
    requires SpacesToLineEnd(l, t, from) == Some(from + k)
    ensures SpacesToLineEnd(l, c + "\n", 0) == Some(k)
  {
    var j := StartIn(l, c + "\n", 0, c);
    SpacesMatch(l, t, from);
    SpacesMatch(l, c + "\n", 0);
    var i := StartIn(l, t, from, c);
    if i < j {
      forall x | from <= x < from + j
        ensures l.space(t[x])
      {
        assert t[from + (x - from)] == c[x - from];
      }
      assert t[from + j] == c[j];
      assert SpaceToLineEnd(l, t, from, from + j);
    }
    if j < i {
      assert SpaceToLineEnd(l, c + "\n", 0, i);
    }
  }

  /** What the second run's body holds besides what stands from the heading on. */
  function CutRest(l: Layout, b: Bounds, c: string, k: nat, h: nat, second: string): nat
    requires k <= h <= |c|
  {
    b.from + k + |Replacement(l, Cleaned(l, c[k..h]), Strip(l, second))|
  }

  lemma HoldsPart(t: string, from: nat, c: string, k: nat, h: nat)
    requires Holds(t, from, c) && k <= h <= |c|
    ensures t[from + k..from + h] == c[k..h]
  {
    forall x | 0 <= x < h - k
      ensures t[from + k..from + h][x] == c[k..h][x]
    {
      assert t[from + (k + x)] == c[k + x];
    }
  }

  lemma CutUpdate(l: Layout, t: string, b: Bounds, c: string, k: nat, h: nat, second: string)
    requires SummaryBounds(l, t) == Some(Bounds(b.from + k, b.from + h)) && Strip(l, second) != ""
    requires k <= h <= |c| && Holds(t, b.from, c)
    ensures |UpdateBody(l, t, second)| == CutRest(l, b, c, k, h, second) + (|t| - (b.from + h))
  {
    HoldsPart(t, b.from, c, k, h);
    UpdateLength(l, t, Bounds(b.from + k, b.from + h), c[k..h], second);
  }

  lemma CutSecond(l: Layout, body: string, b: Bounds, t: string, c: string, second: string) returns (k: nat)
    requires IsLayout(l) && SummaryBounds(l, body) == Some(b) && Agree(body, t, b.from)
    requires c != "" && c[0] == '\n' && !l.space(c[|c| - 1]) && !NoHeading(l, c + "\n") && Holds(t, b.from, c)
    requires Strip(l, second) != ""
    ensures k <= Cut(l, c) <= |c| && SpacesToLineEnd(l, c + "\n", 0) == Some(k)
    ensures |UpdateBody(l, t, second)| == CutRest(l, b, c, k, Cut(l, c), second) + (|t| - (b.from + Cut(l, c)))
  {
    k := CutSection(l, body, b, t, c);
    CutUpdate(l, t, b, c, k, Cut(l, c), second);
  }

  lemma CutRebuilt(l: Layout, body: string, b: Bounds, c: string, tail: string, second: string) returns (k: nat)
    requires IsLayout(l) && SummaryBounds(l, body) == Some(b) && b.from < b.to && body[b.from] == '\n'
    requires c != "" && c[0] == '\n' && !l.space(c[|c| - 1]) && !NoHeading(l, c + "\n")
    requires tail != "" && tail[0] == '\n' && Strip(l, second) != ""
    ensures k <= Cut(l, c) <= |c| && SpacesToLineEnd(l, c + "\n", 0) == Some(k)
    ensures |UpdateBody(l, Rebuilt(body, b, c, tail), second)|
         == CutRest(l, b, c, k, Cut(l, c), second) + (|c| - Cut(l, c)) + |tail| + (|body| - b.to)
  {
    RebuiltHolds(body, b, c, tail);
    RebuiltAgrees(body, b, c, tail);
    k := CutSecond(l, body, b, Rebuilt(body, b, c, tail), c, second);
    RebuiltLength(body, b, c, tail);
  }

  lemma CutRuns(l: Layout, body: string, b: Bounds, c: string, first: string, second: string) returns (k: nat)
    requires IsLayout(l) && SummaryBounds(l, body) == Some(b) && Author(l, body, b) == c && c != ""
    requires !NoHeading(l, c + "\n") && Strip(l, first) != "" && Strip(l, second) != ""
    ensures k <= Cut(l, c) <= |c| && SpacesToLineEnd(l, c + "\n", 0) == Some(k)
    ensures |UpdateBody(l, UpdateBody(l, body, first), second)|
         == CutRest(l, b, c, k, Cut(l, c), second) + (|c| - Cut(l, c)) + |Tail(l, first)| + (|body| - b.to)
  {
    AuthorShape(l, body, b);
    TailStarts(l, first);
    k := CutRebuilt(l, body, b, c, Tail(l, first), second);
    UpdateRebuilds(l, body, b, c, first);
  }

  /** The first block stays below the heading: two first summaries of different length leave bodies
      of different length, so the second run alone cannot make both. */
  lemma CutKeepsBlock(l: Layout, body: string, b: Bounds, c: string, first: string, other: string, second: string)
    requires IsLayout(l) && SummaryBounds(l, body) == Some(b) && Author(l, body, b) == c && c != ""
    requires !NoHeading(l, c + "\n") && Strip(l, second) != ""
    requires Strip(l, first) != "" && Strip(l, other) != "" && |Strip(l, first)| != |Strip(l, other)|
    ensures |UpdateBody(l, UpdateBody(l, body, first), second)| != |UpdateBody(l, UpdateBody(l, body, other), second)|
  {
    var k := CutRuns(l, body, b, c, first, second);
    var m := CutRuns(l, body, b, c, other, second);
    TailLength(l, first);
    TailLength(l, other);
  }

  // ----- the exact condition -----

  lemma ThreeHashesArePlain(l: Layout)
    requires IsLayout(l)
    ensures Plain(l, "###") && Strip(l, "###") == "###"
  {
    forall i | 0 <= i <= 3
      ensures !OccursAt("###", i, l.end)
    {
      if i < 3 {
        assert "###"[i + 0] == '#' && l.end[0] != '#';
      }
    }
    assert "###\n" == "###" + "\n";
  }

  /** Last writer wins on a body with a Summary section if and only if what the first run keeps of
      the section is author text: some text, no line of it ending in the start marker, no line a
      heading once a newline follows it. */
  lemma ReadyIsExact(l: Layout, body: string)
    requires IsLayout(l) && SummaryBounds(l, body).Some?
    ensures LastAlwaysWins(l, body) <==> Ready(l, body)
  {
    var b := SummaryBounds(l, body).value;
    var c := Author(l, body, b);
    OneHashIsPlain(l);
    ThreeHashesArePlain(l);
    if Ready(l, body) {
      forall first, second | Plain(l, first) && Strip(l, second) != ""
        ensures UpdateBody(l, UpdateBody(l, body, first), second) == UpdateBody(l, body, second)
      {
        LastWriterWins(l, body, first, second);
      }
    } else if c == "" {
      BlankLinesGrow(l, body, b, "#", "#");
    } else if !NoHeading(l, c + "\n") {
      CutKeepsBlock(l, body, b, c, "#", "###", "#");
    } else {
      OpenedLosesText(l, body, b, c, "#", "#");
    }
  }
}
