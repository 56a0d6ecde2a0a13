/** A start marker that ends a line and has no end marker: what follows, up to the end marker of
    the next generated block, is taken for a block, and lost when blocks are removed. */
module UnclosedMarker {
  import opened Wrappers
  import opened Text
  import opened SummarySection
  import opened WrittenBlock
  import opened GeneratedBlock
  import opened LastWriter

  lemma {:induction false} EndExists(l: Layout, s: string, i: nat, e: nat)
    requires i <= e <= |s| && EndAt(l, s, e)
    ensures FindEnd(l, s, i).Some?
    decreases e - i
  {
    if i < e {
      EndExists(l, s, i + 1, e);
    }
  }

  /** A match ends behind an end marker at the start of a line, and behind the newline after it. */
  lemma MatchEnds(l: Layout, s: string) returns (e: nat)
    requires l.start != "" && BlockAt(l, s).Some?
    ensures 0 < e && OccursAt(s, e, l.end) && s[e - 1] == '\n'
    ensures BlockAt(l, s).value == e + |l.end| + NewlineAt(s, e + |l.end|) && BlockAt(l, s).value >= 2
  {
    var open := NewlineAt(s, 0) + |l.start|;
    var close := FindEnd(l, s, open + NewlineAt(s, open)).value;
    e := close + NewlineAt(s, close);
  }

  lemma MarkerCharacters(l: Layout, w: string, summary: string)
    requires IsLayout(l) && Placed(l, w, summary)
    ensures forall y | 1 <= y <= |l.start| :: w[y] != '\n'
    ensures forall y | 3 + |l.start| + |summary| <= y < 3 + |l.start| + |summary| + |l.end| :: w[y] != '\n'
  {
    var close := 3 + |l.start| + |summary|;
    forall y | 1 <= y <= |l.start|
      ensures w[y] != '\n'
    {
      assert w[1 + (y - 1)] == l.start[y - 1];
    }
    forall y | close <= y < close + |l.end|
      ensures w[y] != '\n'
    {
      assert w[close + (y - close)] == l.end[y - close];
    }
  }

  /** In the block a run writes only the end marker itself is seen as one. */
  lemma EndPlace(l: Layout, w: string, summary: string, q: nat)
    requires IsLayout(l) && Placed(l, w, summary) && !Contains(summary, l.end)
    requires 0 < q && OccursAt(w, q, l.end) && w[q - 1] == '\n'
    ensures q == 3 + |l.start| + |summary|
  {
    var body, close := 2 + |l.start|, 3 + |l.start| + |summary|;
    assert w[q + 0] == l.end[0];
    MarkerCharacters(l, w, summary);
    if q == 1 {
      WithinText(w, 1, l.start, l.end, 1);
    } else if body <= q < close {
      NotWithin(w, body, summary, l.end, q);
    }
  }

  /** A match that ends in the text takes at most the first newline behind it ... */
  lemma MatchInText(l: Layout, x: string, w: string, e: nat)
    requires IsLayout(l) && e <= |x| && OccursAt(x + ("\n" + w), e, l.end)
    ensures var n := e + |l.end| + NewlineAt(x + ("\n" + w), e + |l.end|);
            n > |x| ==> n == |x| + 1 && (x + ("\n" + w))[n..] == w
  {
    assert (x + ("\n" + w))[|x|] == '\n';
    WordEnds(x + ("\n" + w), |x|, e, l.end);
  }

  /** ... and one that ends in the block leaves the last newline. */
  lemma MatchInBlock(l: Layout, x: string, w: string, summary: string, e: nat)
    requires IsLayout(l) && Placed(l, w, summary) && !Contains(summary, l.end)
    requires e > |x| && OccursAt(x + ("\n" + w), e, l.end) && (x + ("\n" + w))[e - 1] == '\n'
    ensures e + |l.end| + NewlineAt(x + ("\n" + w), e + |l.end|) + 1 == |x + ("\n" + w)|
    ensures var s := x + ("\n" + w); s[|s| - 1..] == ['\n']
  {
    assert x + ("\n" + w) == (x + "\n") + w;
    EndInBlock(l, x + "\n", w, summary, e);
  }

  lemma RestText(l: Layout, x: string, w: string, summary: string, e: nat, n: nat)
    requires IsLayout(l) && Placed(l, w, summary) && !Contains(summary, l.end)
    requires e > 0 && OccursAt(x + ("\n" + w), e, l.end) && (x + ("\n" + w))[e - 1] == '\n'
    requires n == e + |l.end| + NewlineAt(x + ("\n" + w), e + |l.end|) && n > |x|
    ensures n <= |x + ("\n" + w)| && ((x + ("\n" + w))[n..] == w || (x + ("\n" + w))[n..] == ['\n'])
  {
    if e <= |x| {
      MatchInText(l, x, w, e);
    } else {
      MatchInBlock(l, x, w, summary, e);
    }
  }

  lemma RestIsSpace(l: Layout, w: string, rest: string)
    requires IsLayout(l) && IsBlockText(l, w) && (rest == w || rest == ['\n'])
    ensures AllSpace(l, ReplaceBlocks(l, rest))
  {
    if rest != w {
      NewlineKept(l, rest);
    }
  }

  /** What is left of text x and the block w behind it when a match that starts in x reaches past x. */
  lemma RestOfMatch(l: Layout, x: string, w: string, summary: string, n: nat)
    requires IsLayout(l) && Placed(l, w, summary) && !Contains(summary, l.end) && IsBlockText(l, w)
    requires BlockAt(l, x + ("\n" + w)) == Some(n) && n > |x|
    ensures AllSpace(l, ReplaceBlocks(l, (x + ("\n" + w))[n..]))
  {
    var e := MatchEnds(l, x + ("\n" + w));
    RestText(l, x, w, summary, e, n);
    RestIsSpace(l, w, (x + ("\n" + w))[n..]);
  }

  lemma EndInBlock(l: Layout, a: string, w: string, summary: string, e: nat)
    requires IsLayout(l) && Placed(l, w, summary) && !Contains(summary, l.end)
    requires |a| <= e && OccursAt(a + w, e, l.end) && e > 0 && (a + w)[e - 1] == '\n'
    ensures e + |l.end| + 2 == |a + w| && NewlineAt(a + w, e + |l.end|) == 1
  {
    OccursBehind(a, w, e, l.end);
    assert w[e - |a| + 0] == l.end[0];
    if e > |a| {
      assert w[e - |a| - 1] == (a + w)[e - 1];
      EndPlace(l, w, summary, e - |a|);
    }
  }

  lemma StripOne(l: Layout, c: char, r: string)
    ensures |StripRight(l, [c] + r)| <= 1 + |StripRight(l, r)|
  {
    StripRightDropsSpace(l, r);
    var kept := StripRight(l, r);
    var dropped := r[|kept|..];
    assert r == kept + dropped;
    if kept == "" {
      StripBlank(l, [c], r);
    } else {
      assert [c] + r == ([c] + kept) + dropped;
      StripRightStops(l, [c] + kept, dropped);
    }
  }

  lemma StripBlank(l: Layout, a: string, r: string)
    requires |a| == 1 && AllSpace(l, r)
    ensures |StripRight(l, a + r)| <= 1
  {
    if l.space(a[0]) {
      StripRightStops(l, "", a + r);
      assert "" + (a + r) == a + r;
    } else {
      StripRightStops(l, a, r);
    }
  }

  lemma MarkerMatches(l: Layout, x: string, w: string, summary: string)
    requires IsLayout(l) && Placed(l, w, summary) && MarkerAt(l, x, 0)
    ensures BlockAt(l, x + ("\n" + w)).Some?
  {
    MarkerInFront(l, x, w);
    EndBehind(l, x, w, summary);
    EndExists(l, x + ("\n" + w), |l.start| + NewlineAt(x + ("\n" + w), |l.start|), |x| + 3 + |l.start| + |summary|);
  }

  lemma MarkerInFront(l: Layout, x: string, w: string)
    requires IsLayout(l) && MarkerAt(l, x, 0)
    ensures var s := x + ("\n" + w);
            && NewlineAt(s, 0) == 0 && OccursAt(s, 0, l.start) && NewlineAt(s, |l.start|) > 0
            && |l.start| + NewlineAt(s, |l.start|) <= |x| + 1
  {
    var s := x + ("\n" + w);
    assert s == (x + "\n") + w;
    forall k | 0 <= k < |l.start|
      ensures s[0 + k] == l.start[k]
    {
      assert x[0 + k] == l.start[k];
    }
    assert s[0 + 0] == l.start[0];
    NewlineInFront(x + "\n", w, |l.start|);
  }

  lemma EndBehind(l: Layout, x: string, w: string, summary: string)
    requires Placed(l, w, summary)
    ensures EndAt(l, x + ("\n" + w), |x| + 3 + |l.start| + |summary|)
  {
    var s, close := x + ("\n" + w), |x| + 3 + |l.start| + |summary|;
    assert s[close] == w[2 + |l.start| + |summary|] == '\n';
    forall k | 0 <= k < |l.end|
      ensures s[close + 1 + k] == l.end[k]
    {
      assert w[3 + |l.start| + |summary| + k] == l.end[k];
    }
  }

  lemma MarkerLater(l: Layout, x: string, i: nat)
    requires x != "" && i > 0 && MarkerAt(l, x, i)
    ensures MarkerAt(l, x[1..], i - 1)
  {
    AtLater(x, i - 1, l.start);
    assert (x + "\n")[1..] == x[1..] + "\n";
    NewlineLater(x + "\n", i - 1 + |l.start|);
  }

  lemma OpensLaterOrHere(l: Layout, x: string)
    requires x != "" && OpensBlock(l, x)
    ensures MarkerAt(l, x, 0) || OpensBlock(l, x[1..])
  {
    var i :| 0 <= i <= |x| && MarkerAt(l, x, i);
    if i > 0 {
      MarkerLater(l, x, i);
      assert OccursAt(x[1..], i - 1, l.start);
    }
  }

  lemma MatchReplaced(l: Layout, s: string, n: nat)
    requires BlockAt(l, s) == Some(n) && n > 0
    ensures s != "" && ReplaceBlocks(l, s) == "\n" + ReplaceBlocks(l, s[n..])
  {}

  lemma OnlySpace(l: Layout, left: string)
    requires l.space('\n') && AllSpace(l, left)
    ensures StripRight(l, "\n" + left) == ""
  {
    StripRightStops(l, "", "\n" + left);
    assert "" + ("\n" + left) == "\n" + left;
  }

  /** Removing blocks and final space from text x and a written block never leaves more than x, and
      less if a line of x ends in the start marker: from there on the text is taken for a block. */
  lemma {:induction false} TextShrinks(l: Layout, x: string, w: string, summary: string)
    requires IsLayout(l) && Placed(l, w, summary) && !Contains(summary, l.end) && IsBlockText(l, w)
    ensures |Cleaned(l, x + ("\n" + w))| <= |x|
    ensures OpensBlock(l, x) ==> |Cleaned(l, x + ("\n" + w))| < |x|
    decreases |x|, 1
  {
    if x == "" {
      NothingOpensInNothing(l, x);
      CleanedInFront(l, x, w, "\n" + ['\n']);
    } else if BlockAt(l, x + ("\n" + w)).None? {
      KeptShrinks(l, x, w, summary);
    } else {
      MatchShrinks(l, x, w, summary);
    }
  }

  lemma NothingOpensInNothing(l: Layout, x: string)
    requires x == "" && l.start != ""
    ensures !OpensBlock(l, x)
  {}

  lemma {:induction false} KeptShrinks(l: Layout, x: string, w: string, summary: string)
    requires IsLayout(l) && Placed(l, w, summary) && !Contains(summary, l.end) && IsBlockText(l, w)
    requires x != "" && BlockAt(l, x + ("\n" + w)).None?
    ensures |Cleaned(l, x + ("\n" + w))| <= |x|
    ensures OpensBlock(l, x) ==> |Cleaned(l, x + ("\n" + w))| < |x|
    decreases |x|, 0
  {
    CharacterKept(l, x + ("\n" + w));
    assert (x + ("\n" + w))[1..] == x[1..] + ("\n" + w);
    TextShrinks(l, x[1..], w, summary);
    StripOne(l, (x + ("\n" + w))[0], ReplaceBlocks(l, x[1..] + ("\n" + w)));
    if OpensBlock(l, x) {
      OpensLaterOrHere(l, x);
      if MarkerAt(l, x, 0) {
        MarkerMatches(l, x, w, summary);
      }
    }
  }

  lemma {:induction false} MatchShrinks(l: Layout, x: string, w: string, summary: string)
    requires IsLayout(l) && Placed(l, w, summary) && !Contains(summary, l.end) && IsBlockText(l, w)
    requires x != "" && BlockAt(l, x + ("\n" + w)).Some?
    ensures |Cleaned(l, x + ("\n" + w))| < |x|
    decreases |x|, 0
  {
    var n := BlockAt(l, x + ("\n" + w)).value;
    var e := MatchEnds(l, x + ("\n" + w));
    if n <= |x| {
      TextShrinks(l, x[n..], w, summary);
      MatchWithin(l, x, "\n" + w, n);
    } else {
      RestOfMatch(l, x, w, summary, n);
      MatchBeyond(l, x + ("\n" + w), n);
    }
  }

  /** A match that ends in x leaves a newline and what is left of the rest. */
  lemma MatchWithin(l: Layout, x: string, tail: string, n: nat)
    requires BlockAt(l, x + tail) == Some(n) && 2 <= n <= |x| && |Cleaned(l, x[n..] + tail)| <= |x[n..]|
    ensures |Cleaned(l, x + tail)| < |x|
  {
    assert (x + tail)[n..] == x[n..] + tail;
    MatchReplaced(l, x + tail, n);
    StripOne(l, '\n', ReplaceBlocks(l, x[n..] + tail));
  }

  lemma MatchBeyond(l: Layout, s: string, n: nat)
    requires l.space('\n') && BlockAt(l, s) == Some(n) && n > 0 && AllSpace(l, ReplaceBlocks(l, s[n..]))
    ensures Cleaned(l, s) == ""
  {
    MatchReplaced(l, s, n);
    OnlySpace(l, ReplaceBlocks(l, s[n..]));
  }
}
