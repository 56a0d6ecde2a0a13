/** What removing the generated blocks of a Summary section leaves: exactly the text that stood
    in front of the block a run wrote. */
module GeneratedBlock {
  import opened Wrappers
  import opened Text
  import opened SummarySection
  import opened WrittenBlock

  /** What a run writes after the author's text. */
  function Tail(l: Layout, generated: string): string {
    if Strip(l, generated) == "" then "\n" else "\n" + Written(l, Strip(l, generated))
  }

  predicate AllSpace(l: Layout, s: string) { forall i | 0 <= i < |s| :: l.space(s[i]) }

  // ----- stripping -----

  lemma {:induction false} StripRightStops(l: Layout, x: string, w: string)
    requires (x == "" || !l.space(x[|x| - 1])) && AllSpace(l, w)
    ensures StripRight(l, x + w) == x
    decreases |w|
  {
    if w == "" {
      assert x + w == x;
    } else {
      StripRightStops(l, x, w[..|w| - 1]);
      assert (x + w)[..|x + w| - 1] == x + w[..|w| - 1];
    }
  }

  lemma {:induction false} StripKeepsText(l: Layout, s: string)
    requires s != "" && !l.space(s[|s| - 1])
    ensures Strip(l, s) != ""
  {
    if l.space(s[0]) {
      StripKeepsText(l, s[1..]);
    }
  }

  lemma {:induction false} StripRightDropsSpace(l: Layout, s: string)
    ensures AllSpace(l, s[|StripRight(l, s)|..])
  {
    if s != "" && l.space(s[|s| - 1]) {
      var t := s[..|s| - 1];
      StripRightDropsSpace(l, t);
      var r := |StripRight(l, t)|;
      assert s[r..] == t[r..] + [s[|s| - 1]];
    }
  }

  // ----- blocks -----

  /** A block could start at i: a start marker that ends its line. */
  predicate OpensAt(l: Layout, s: string, i: nat) {
    OccursAt(s, i + NewlineAt(s, i), l.start) && NewlineAt(s, i + NewlineAt(s, i) + |l.start|) > 0
  }

  /** The same without the newline in front, in a text whose last line ends. */
  predicate MarkerAt(l: Layout, x: string, i: nat) {
    OccursAt(x, i, l.start) && NewlineAt(x + "\n", i + |l.start|) > 0
  }

  /** Some line of the text ends in the start marker. */
  predicate OpensBlock(l: Layout, x: string) { exists i | 0 <= i <= |x| :: MarkerAt(l, x, i) }

  lemma OpensLater(l: Layout, s: string, i: nat)
    requires s != ""
    ensures OpensAt(l, s[1..], i) <==> OpensAt(l, s, i + 1)
  {
    NewlineLater(s, i);
    AtLater(s, i + NewlineAt(s[1..], i), l.start);
    NewlineLater(s, i + NewlineAt(s[1..], i) + |l.start|);
  }

  lemma NewlineLater(s: string, i: nat)
    requires s != ""
    ensures NewlineAt(s[1..], i) == NewlineAt(s, i + 1)
  {}

  lemma AtLater(s: string, i: nat, w: string)
    requires s != ""
    ensures OccursAt(s[1..], i, w) <==> OccursAt(s, i + 1, w)
  {
    var t := s[1..];
    assert forall x: nat | x < |t| :: t[x] == s[x + 1];
    if OccursAt(s, i + 1, w) {
      forall k: nat | k < |w|
        ensures t[i + k] == w[k]
      {
        assert s[(i + 1) + k] == w[k];
      }
    }
  }

  lemma NothingMatches(l: Layout, s: string)
    requires !OpensAt(l, s, 0)
    ensures BlockAt(l, s) == None
  {}

  lemma CharacterKept(l: Layout, s: string)
    requires s != "" && BlockAt(l, s) == None
    ensures ReplaceBlocks(l, s) == [s[0]] + ReplaceBlocks(l, s[1..])
  {}

  lemma NoneOpensLater(l: Layout, a: string, b: string)
    requires a != "" && forall i: nat | i < |a| :: !OpensAt(l, a + b, i)
    ensures (a + b)[1..] == a[1..] + b
    ensures forall i: nat | i < |a[1..]| :: !OpensAt(l, a[1..] + b, i)
  {
    assert (a + b)[1..] == a[1..] + b;
    forall i: nat | i < |a[1..]|
      ensures !OpensAt(l, a[1..] + b, i)
    {
      OpensLater(l, a + b, i);
    }
  }

  lemma Reassemble(a: string, r: string)
    requires a != ""
    ensures [a[0]] + (a[1..] + r) == a + r
  {}

  /** Text in which no block opens is copied. */
  lemma {:induction false} NothingReplaced(l: Layout, a: string, b: string)
    requires forall i: nat | i < |a| :: !OpensAt(l, a + b, i)
    ensures ReplaceBlocks(l, a + b) == a + ReplaceBlocks(l, b)
  {
    if a == "" {
      assert a + b == b;
    } else {
      NothingMatches(l, a + b);
      CharacterKept(l, a + b);
      NoneOpensLater(l, a, b);
      NothingReplaced(l, a[1..], b);
      Reassemble(a, ReplaceBlocks(l, b));
    }
  }

  lemma InFront(a: string, b: string, i: nat, w: string)
    requires OccursAt(a + b, i, w) && i + |w| <= |a|
    ensures OccursAt(a, i, w)
  {
    forall k | 0 <= k < |w|
      ensures a[i + k] == w[k]
    {
      assert (a + b)[i + k] == w[k];
    }
  }

  lemma NewlineInFront(a: string, b: string, j: nat)
    requires a != "" && a[|a| - 1] == '\n' && j < |a|
    ensures NewlineAt(a + b, j) == NewlineAt(a, j)
  {}

  /** No block opens in text without a line that ends in the start marker, nor at the line end
      behind it. */
  lemma NoneOpens(l: Layout, x: string, b: string, i: nat)
    requires IsLayout(l) && !OpensBlock(l, x) && (x == "" || !l.space(x[|x| - 1]))
    requires i <= |x| && (b == "" || b[0] == '\n')
    ensures !OpensAt(l, (x + "\n") + b, i)
  {
    var s, n := (x + "\n") + b, |x|;
    assert s[n] == '\n';
    var at := i + NewlineAt(s, i);
    if OccursAt(s, at, l.start) && at <= n {
      WordEnds(s, n, at, l.start);
      assert s == x + ("\n" + b);
      InFront(x, "\n" + b, at, l.start);
      NewlineInFront(x + "\n", b, at + |l.start|);
      assert !MarkerAt(l, x, at);
    }
  }

  lemma NoneOpensInLine(l: Layout, x: string, b: string)
    requires IsLayout(l) && !OpensBlock(l, x) && (x == "" || !l.space(x[|x| - 1]))
    requires b == "" || b[0] == '\n'
    ensures forall i: nat | i < |x + "\n"| :: !OpensAt(l, (x + "\n") + b, i)
  {
    forall i: nat | i < |x + "\n"|
      ensures !OpensAt(l, (x + "\n") + b, i)
    {
      NoneOpens(l, x, b, i);
    }
  }

  /** Author text is what remains when a text follows of which only space is left. */
  lemma BlockCleaned(l: Layout, x: string, b: string, left: string)
    requires IsLayout(l) && !OpensBlock(l, x) && (x == "" || !l.space(x[|x| - 1]))
    requires (b == "" || b[0] == '\n') && ReplaceBlocks(l, b) == left && AllSpace(l, left)
    ensures Cleaned(l, (x + "\n") + b) == x
  {
    NoneOpensInLine(l, x, b);
    NothingReplaced(l, x + "\n", b);
    SpaceStripped(l, x, "\n", left);
  }

  lemma SpaceStripped(l: Layout, x: string, a: string, b: string)
    requires (x == "" || !l.space(x[|x| - 1])) && AllSpace(l, a) && AllSpace(l, b)
    ensures StripRight(l, x + a + b) == x
  {
    StripRightStops(l, x, a + b);
    assert x + a + b == x + (a + b);
  }

  lemma CleanedInFront(l: Layout, x: string, b: string, left: string)
    requires IsLayout(l) && !OpensBlock(l, x) && (x == "" || !l.space(x[|x| - 1]))
    requires (b == "" || b[0] == '\n') && ReplaceBlocks(l, b) == left && AllSpace(l, left)
    ensures Cleaned(l, x + ("\n" + b)) == x
  {
    assert (x + "\n") + b == x + ("\n" + b);
    BlockCleaned(l, x, b, left);
  }

  lemma WrittenCleaned(l: Layout, x: string, summary: string)
    requires IsLayout(l) && !OpensBlock(l, x) && (x == "" || !l.space(x[|x| - 1]))
    requires !Contains(summary, l.end) && (summary == "" || !l.space(summary[|summary| - 1]))
    ensures Cleaned(l, x + ("\n" + Written(l, summary))) == x
  {
    WrittenIsBlock(l, summary);
    CleanedInFront(l, x, Written(l, summary), "\n" + ['\n']);
  }

  /** Author text is what remains of it and what a run writes after it. */
  lemma TailCleaned(l: Layout, x: string, generated: string)
    requires IsLayout(l) && !OpensBlock(l, x) && (x == "" || !l.space(x[|x| - 1]))
    requires !Contains(Strip(l, generated), l.end)
    ensures Cleaned(l, x + Tail(l, generated)) == x
  {
    if Strip(l, generated) == "" {
      assert "\n" + "" == "\n";
      CleanedInFront(l, x, "", "");
    } else {
      WrittenCleaned(l, x, Strip(l, generated));
    }
  }
}
