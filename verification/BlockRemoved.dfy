/** What a run with an empty summary does: it takes the generated block away and leaves the
    author's text. */
module BlockRemoved {
  import opened Wrappers
  import opened Text
  import opened SummarySection
  import opened WrittenBlock
  import opened GeneratedBlock
  import opened LastWriter
  import FreshBody

  lemma TailHasMarker(l: Layout, generated: string)
    requires Strip(l, generated) != ""
    ensures OccursAt(Tail(l, generated), 2, l.start)
  {
    WrittenPlaced(l, Strip(l, generated));
    MarkerShifts(l, Written(l, Strip(l, generated)), Strip(l, generated));
  }

  lemma MarkerShifts(l: Layout, w: string, summary: string)
    requires Placed(l, w, summary)
    ensures OccursAt("\n" + w, 2, l.start)
  {
    var t := "\n" + w;
    assert forall x: nat | x < |w| :: t[x + 1] == w[x];
    forall k | 0 <= k < |l.start|
      ensures t[2 + k] == l.start[k]
    {
      assert t[(1 + k) + 1] == w[1 + k];
    }
  }

  lemma RebuiltHasMarker(l: Layout, body: string, b: Bounds, c: string, tail: string)
    requires b.from <= b.to <= |body| && OccursAt(tail, 2, l.start)
    ensures Contains(Rebuilt(body, b, c, tail), l.start)
  {
    FreshBody.MiddleOccurs(body[..b.from] + c, tail, body[b.to..], 2, l.start);
    Joined(body[..b.from], c, tail, body[b.to..]);
    assert OccursAt(Rebuilt(body, b, c, tail), b.from + |c| + 2, l.start);
  }

  lemma Joined(a: string, b: string, c: string, d: string)
    ensures a + (b + c) + d == (a + b) + c + d
  {}

  /** A run with an empty summary on a body that a run has written to. */
  lemma BlankRun(l: Layout, t: string, again: Bounds, x: string, none: string)
    requires again.from <= again.to <= |t| && x != "" && Strip(l, none) == "" && Contains(t, l.start)
    requires Finder(l)(t) == Some(again) && Cleaner(l)(t[again.from..again.to]) == x
    ensures UpdateBody(l, t, none) == Rebuilt(t, again, x, "\n")
  {
    UpdateRebuilds(l, t, again, x, none);
  }

  /** An empty summary after any other takes the block away: what is left of the section is the
      author's text and a newline. */
  lemma EmptySummaryRemovesBlock(l: Layout, body: string, first: string, none: string)
    requires IsLayout(l) && Ready(l, body) && Plain(l, first) && Strip(l, first) != "" && Strip(l, none) == ""
    ensures var b := SummaryBounds(l, body).value;
            UpdateBody(l, UpdateBody(l, body, first), none)
              == body[..b.from] + (Author(l, body, b) + "\n") + body[b.to..]
  {
    var b := SummaryBounds(l, body).value;
    var c := Author(l, body, b);
    AuthorShape(l, body, b);
    TailFits(l, c, first);
    UpdateRebuilds(l, body, b, c, first);
    var again, x := RebuiltTwice(l, body, b, c, Tail(l, first), "\n");
    TailHasMarker(l, first);
    RebuiltHasMarker(l, body, b, c, Tail(l, first));
    BlankRun(l, Rebuilt(body, b, c, Tail(l, first)), again, x, none);
  }

  /** Without a block in the body an empty summary changes nothing. */
  lemma EmptySummaryChangesNothing(l: Layout, body: string, none: string)
    requires Strip(l, none) == "" && !Contains(body, l.start)
    ensures UpdateBody(l, body, none) == body
  {}

  /** On a section without text, too, the block goes; the newlines around it stay. */
  lemma EmptySummaryOnBlank(l: Layout, body: string, b: Bounds, first: string, none: string)
    requires IsLayout(l) && SummaryBounds(l, body) == Some(b) && Author(l, body, b) == ""
    requires Plain(l, first) && Strip(l, first) != "" && Strip(l, none) == ""
    ensures UpdateBody(l, UpdateBody(l, body, first), none) == body[..b.from] + "\n\n" + body[b.to..]
  {
    FreshBody.BlankUpdate(l, body, b, first);
    FreshBody.WrittenIsLines(l, Strip(l, first));
    FreshBody.WrittenVanishes(l, Strip(l, first));
    WrittenPlaced(l, Strip(l, first));
    MarkerShifts(l, Written(l, Strip(l, first)), Strip(l, first));
    BlockOnBlankGoes(l, body, b, Written(l, Strip(l, first)), none);
  }

  lemma BlockOnBlankGoes(l: Layout, body: string, b: Bounds, w: string, none: string)
    requires IsLayout(l) && SummaryBounds(l, body) == Some(b) && Strip(l, none) == ""
    requires FreshBody.IsLines(l, w) && Cleaned(l, w) == "" && OccursAt("\n" + w, 2, l.start)
    ensures UpdateBody(l, FreshBody.Blanked(body, b, w), none) == body[..b.from] + "\n\n" + body[b.to..]
  {
    FreshBody.BlankedSection(l, body, b, w);
    FreshBody.BlankedPieces(body, b, w, "");
    RebuiltHasMarker(l, body, b, "", "\n" + w);
    BlankLines(body, b, w);
    BlankRunOnBlock(l, FreshBody.Blanked(body, b, w), Bounds(b.from + 1, b.from + 1 + |w|), w, none);
  }

  lemma BlankLines(body: string, b: Bounds, w: string)
    requires b.from <= b.to <= |body|
    ensures Rebuilt(body, b, "", "\n" + w) == FreshBody.Blanked(body, b, w)
    ensures b.from + 1 + |w| <= |FreshBody.Blanked(body, b, w)|
    ensures var t := FreshBody.Blanked(body, b, w);
            t[..b.from + 1] + "\n" + t[b.from + 1 + |w|..] == body[..b.from] + "\n\n" + body[b.to..]
  {
    var t := FreshBody.Blanked(body, b, w);
    assert "" + ("\n" + w) == "\n" + w;
    assert t[..b.from + 1] == body[..b.from] + "\n" && t[b.from + 1 + |w|..] == body[b.to..];
  }

  lemma BlankRunOnBlock(l: Layout, t: string, again: Bounds, w: string, none: string)
    requires again.from <= again.to <= |t| && Strip(l, none) == "" && Contains(t, l.start)
    requires SummaryBounds(l, t) == Some(again) && t[again.from..again.to] == w && Cleaned(l, w) == ""
    ensures UpdateBody(l, t, none) == t[..again.from] + "\n" + t[again.to..]
  {}
}
