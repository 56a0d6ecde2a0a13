/** The block a run writes into a Summary section: where its parts stand, and that it is matched as
    one generated block. */
module WrittenBlock {
  import opened Wrappers
  import opened Text
  import opened SummarySection

  /** What stands between the author's last line and the end of the section. */
  function Written(l: Layout, summary: string): string { "\n" + Block(l, summary) + "\n\n" }

  /** w holds the lines "", start marker, summary, end marker, "". */
  predicate Placed(l: Layout, w: string, summary: string) {
    var body, close := 2 + |l.start|, 3 + |l.start| + |summary|;
    && |w| == close + |l.end| + 2 && w[0] == '\n' && w[1 + |l.start|] == '\n' && w[close - 1] == '\n'
    && w[close + |l.end|] == '\n' == w[close + |l.end| + 1]
    && (forall k: nat | k < |l.start| :: w[1 + k] == l.start[k])
    && (forall k: nat | k < |summary| :: w[body + k] == summary[k])
    && (forall k: nat | k < |l.end| :: w[close + k] == l.end[k])
  }

  lemma WrittenPlaced(l: Layout, summary: string)
    ensures Placed(l, Written(l, summary), summary)
  {}

  /** A text in front of a line end: a word without newlines that starts in it lies within it. */
  lemma WithinText(w: string, from: nat, text: string, word: string, i: nat)
    requires word != "" && '\n' !in word && from + |text| < |w| && w[from + |text|] == '\n'
    requires forall k: nat | k < |text| :: w[from + k] == text[k]
    requires from <= i <= from + |text| && OccursAt(w, i, word)
    ensures OccursAt(text, i - from, word)
  {
    WordEnds(w, from + |text|, i, word);
    forall k | 0 <= k < |word|
      ensures text[i - from + k] == word[k]
    {
      assert w[i + k] == word[k];
      assert w[from + (i - from + k)] == text[i - from + k];
    }
  }

  lemma NotWithin(w: string, from: nat, text: string, word: string, i: nat)
    requires word != "" && '\n' !in word && from + |text| < |w| && w[from + |text|] == '\n'
    requires forall k: nat | k < |text| :: w[from + k] == text[k]
    requires from <= i <= from + |text| && !Contains(text, word)
    ensures !OccursAt(w, i, word)
  {
    if OccursAt(w, i, word) {
      WithinText(w, from, text, word, i);
    }
  }

  // ----- one match -----

  lemma {:induction false} EndFound(l: Layout, s: string, i: nat, n: nat)
    requires i <= n <= |s| && EndAt(l, s, n) && forall x: nat | i <= x < n :: !EndAt(l, s, x)
    ensures FindEnd(l, s, i) == Some(n)
    decreases n - i
  {
    if i < n {
      EndFound(l, s, i + 1, n);
    }
  }

  /** The text is a block, with a newline in front of it and one behind it, and one more newline;
      the newline in front of the end marker is at `close`. */
  predicate IsOneBlock(l: Layout, s: string, close: nat) {
    && 2 + |l.start| <= close && close + 3 + |l.end| == |s| && s[|s| - 1] == '\n'
    && NewlineAt(s, 0) == 1 && OccursAt(s, 1, l.start) && NewlineAt(s, 1 + |l.start|) == 1
    && NewlineAt(s, close) == 1 && OccursAt(s, close + 1, l.end) && NewlineAt(s, close + 1 + |l.end|) == 1
    && forall i: nat | 2 + |l.start| <= i < close :: !EndAt(l, s, i)
  }

  lemma OneBlockMatches(l: Layout, s: string, close: nat)
    requires IsOneBlock(l, s, close)
    ensures BlockAt(l, s) == Some(|s| - 1)
  {
    EndFound(l, s, 2 + |l.start|, close);
  }

  lemma NewlineKept(l: Layout, t: string)
    requires IsLayout(l) && |t| == 1 && t[0] == '\n'
    ensures ReplaceBlocks(l, t) == t
  {
    assert t[1..] == "";
    assert !OccursAt(t, 1, l.start);
  }

  /** Nothing but two newlines is left of it. */
  lemma BlockReplaced(l: Layout, s: string, close: nat)
    requires IsLayout(l) && IsOneBlock(l, s, close)
    ensures BlockAt(l, s) == Some(|s| - 1) && ReplaceBlocks(l, s) == "\n" + ['\n']
  {
    OneBlockMatches(l, s, close);
    var t := s[|s| - 1..];
    assert t == ['\n'];
    NewlineKept(l, t);
  }

  /** The end marker is not seen within the summary. */
  lemma NoEndInSummary(l: Layout, w: string, summary: string, i: nat)
    requires IsLayout(l) && Placed(l, w, summary)
    requires !Contains(summary, l.end) && (summary == "" || !l.space(summary[|summary| - 1]))
    requires 2 + |l.start| <= i < 2 + |l.start| + |summary|
    ensures !EndAt(l, w, i)
  {
    var from := 2 + |l.start|;
    assert w[from + (|summary| - 1)] == summary[|summary| - 1];
    NotWithin(w, from, summary, l.end, if i + NewlineAt(w, i) <= from + |summary| then i + NewlineAt(w, i) else i);
  }

  lemma PlacedIsOneBlock(l: Layout, w: string, summary: string)
    requires IsLayout(l) && Placed(l, w, summary)
    requires !Contains(summary, l.end) && (summary == "" || !l.space(summary[|summary| - 1]))
    ensures IsOneBlock(l, w, 2 + |l.start| + |summary|)
  {
    forall i: nat | 2 + |l.start| <= i < 2 + |l.start| + |summary|
      ensures !EndAt(l, w, i)
    {
      NoEndInSummary(l, w, summary, i);
    }
  }

  /** The start marker stands in one place only. */
  lemma PlacedMarkerOnce(l: Layout, w: string, summary: string, i: nat)
    requires IsLayout(l) && Placed(l, w, summary) && |l.end| < |l.start| && !Contains(summary, l.start)
    ensures OccursAt(w, i, l.start) <==> i == 1
  {
    var body, close := 2 + |l.start|, 3 + |l.start| + |summary|;
    if 1 < i < body {
      WordEnds(w, body - 1, i, l.start);
    } else if body <= i < close {
      NotWithin(w, body, summary, l.start, i);
    } else if close <= i <= close + |l.end| {
      WordEnds(w, close + |l.end|, i, l.start);
    }
  }

  /** What is used of the block a run writes. */
  ghost predicate IsBlockText(l: Layout, w: string) {
    && |w| > 2 && w[0] == '\n' && !l.space(w[1]) && w[|w| - 1] == '\n'
    && BlockAt(l, w) == Some(|w| - 1) && ReplaceBlocks(l, w) == "\n" + ['\n']
  }

  lemma WrittenIsBlock(l: Layout, summary: string)
    requires IsLayout(l) && !Contains(summary, l.end) && (summary == "" || !l.space(summary[|summary| - 1]))
    ensures IsBlockText(l, Written(l, summary))
  {
    WrittenPlaced(l, summary);
    PlacedIsBlock(l, Written(l, summary), summary);
  }

  lemma PlacedIsBlock(l: Layout, w: string, summary: string)
    requires IsLayout(l) && Placed(l, w, summary)
    requires !Contains(summary, l.end) && (summary == "" || !l.space(summary[|summary| - 1]))
    ensures IsBlockText(l, w)
  {
    assert w[1 + 0] == l.start[0];
    PlacedIsOneBlock(l, w, summary);
    BlockReplaced(l, w, 2 + |l.start| + |summary|);
  }

  lemma WrittenMarkerOnce(l: Layout, summary: string)
    requires IsLayout(l) && |l.end| < |l.start| && !Contains(summary, l.start)
    ensures forall i: nat :: OccursAt(Written(l, summary), i, l.start) <==> i == 1
  {
    WrittenPlaced(l, summary);
    forall i: nat
      ensures OccursAt(Written(l, summary), i, l.start) <==> i == 1
    {
      PlacedMarkerOnce(l, Written(l, summary), summary, i);
    }
  }
}
