/** What a Summary section is, read off the text position by position, and the proof that the
    script's searches find exactly that. */
module SectionReference {
  import opened Wrappers
  import opened Text
  import opened SummarySection

  predicate LineBegins(s: string, p: nat) { p <= |s| && (p == 0 || s[p - 1] == '\n') }

  predicate LineEnds(s: string, e: nat) { e <= |s| && (e == |s| || s[e] == '\n') }

  /** The characters of w stand at p. */
  predicate Reads(s: string, p: nat, w: string) { p + |w| <= |s| && forall k: nat | k < |w| :: s[p + k] == w[k] }

  predicate Blank(l: Layout, s: string, from: nat, to: nat) {
    from <= to <= |s| && forall x: nat | from <= x < to :: l.space(s[x])
  }

  /** A line starts with the agent word at p, and from there to the line end e there is only space. */
  predicate AgentLine(l: Layout, s: string, p: nat, e: nat) {
    LineBegins(s, p) && Reads(s, p, l.agent) && Blank(l, s, p + |l.agent|, e) && LineEnds(s, e)
  }

  /** A line starts with two hashes and a space. */
  predicate HeadingLine(l: Layout, s: string, q: nat) {
    LineBegins(s, q) && q + 2 < |s| && s[q] == '#' && s[q + 1] == '#' && l.space(s[q + 2])
  }

  /** A heading at q whose title, at r, is the summary word, and only space from there to e. */
  predicate SummaryLine(l: Layout, s: string, q: nat, r: nat, e: nat) {
    && HeadingLine(l, s, q) && q + 2 <= r && Blank(l, s, q + 2, r)
    && Reads(s, r, l.summary) && Blank(l, s, r + |l.summary|, e) && LineEnds(s, e)
  }

  /** p is the first agent line of the text, and the space behind it goes as far as e. */
  ghost predicate FirstAgent(l: Layout, s: string, p: nat, e: nat) {
    && AgentLine(l, s, p, e) && (forall e': nat | AgentLine(l, s, p, e') :: e' <= e)
    && forall p': nat, e': nat | AgentLine(l, s, p', e') :: p <= p'
  }

  /** q is the first Summary heading from i on, and the space behind it goes as far as e. */
  ghost predicate FirstSummary(l: Layout, s: string, i: nat, q: nat, e: nat) {
    && i <= q && (exists r: nat :: SummaryLine(l, s, q, r, e))
    && (forall r: nat, e': nat | SummaryLine(l, s, q, r, e') :: e' <= e)
    && forall q': nat, r: nat, e': nat | SummaryLine(l, s, q', r, e') && i <= q' :: q <= q'
  }

  /** A section ends at the next heading, or with the text. */
  predicate EndsSection(l: Layout, s: string, from: nat, to: nat) {
    && from <= to <= |s| && (to == |s| || HeadingLine(l, s, to))
    && forall x: nat | from <= x < to :: !HeadingLine(l, s, x)
  }

  /** The Summary section of a text: behind the first Summary heading that comes after the first
      agent line. */
  ghost predicate IsSummarySection(l: Layout, s: string, from: nat, to: nat) {
    && EndsSection(l, s, from, to)
    && exists p: nat, e: nat, q: nat :: FirstAgent(l, s, p, e) && FirstSummary(l, s, e, q, from)
  }

  // ----- one pattern at one position -----

  lemma OccursReads(s: string, p: nat, w: string)
    ensures OccursAt(s, p, w) <==> Reads(s, p, w)
  {}

  lemma BlankIsSpace(l: Layout, s: string, i: nat, e: nat)
    ensures SpaceToLineEnd(l, s, i, e) <==> Blank(l, s, i, e) && LineEnds(s, e)
  {}

  /** The pattern for an agent line matches at p exactly when one stands there, and to its end. */
  lemma AgentAtMeans(l: Layout, s: string, p: nat)
    requires IsLayout(l) && p <= |s|
    ensures AgentAt(l, s, p).Some? ==> AgentLine(l, s, p, AgentAt(l, s, p).value)
    ensures forall e: nat | AgentLine(l, s, p, e) :: AgentAt(l, s, p).Some? && e <= AgentAt(l, s, p).value
  {
    var i := p + |l.agent|;
    OccursReads(s, p, l.agent);
    if i <= |s| {
      SpacesMatch(l, s, i);
      forall e: nat
        ensures SpaceToLineEnd(l, s, i, e) <==> Blank(l, s, i, e) && LineEnds(s, e)
      {
        BlankIsSpace(l, s, i, e);
      }
    }
  }

  lemma {:induction false} RunMeans(l: Layout, s: string, i: nat)
    requires i <= |s|
    ensures Blank(l, s, i, RunEnd(l, s, i)) && (RunEnd(l, s, i) == |s| || !l.space(s[RunEnd(l, s, i)]))
    decreases |s| - i
  {
    if i < |s| && l.space(s[i]) {
      RunMeans(l, s, i + 1);
    }
  }

  /** The run of space ends where the title starts. */
  lemma TitleAt(l: Layout, s: string, i: nat, r: nat)
    requires IsLayout(l) && Blank(l, s, i, r) && Reads(s, r, l.summary)
    ensures RunEnd(l, s, i) == r
  {
    RunMeans(l, s, i);
    assert s[r + 0] == l.summary[0];
  }

  lemma SummaryAtMeans(l: Layout, s: string, q: nat)
    requires IsLayout(l) && q <= |s|
    ensures SummaryAt(l, s, q).Some? ==> exists r: nat :: SummaryLine(l, s, q, r, SummaryAt(l, s, q).value)
    ensures forall r: nat, e: nat | SummaryLine(l, s, q, r, e) ::
              SummaryAt(l, s, q).Some? && e <= SummaryAt(l, s, q).value
  {
    if HeadingAt(l, s, q) {
      var j := RunEnd(l, s, q + 2);
      RunMeans(l, s, q + 2);
      OccursReads(s, j, l.summary);
      if j + |l.summary| <= |s| {
        SpacesMatch(l, s, j + |l.summary|);
      }
      if SummaryAt(l, s, q).Some? {
        BlankIsSpace(l, s, j + |l.summary|, SummaryAt(l, s, q).value);
        assert SummaryLine(l, s, q, j, SummaryAt(l, s, q).value);
      }
      forall r: nat, e: nat | SummaryLine(l, s, q, r, e)
        ensures SummaryAt(l, s, q).Some? && e <= SummaryAt(l, s, q).value
      {
        TitleAt(l, s, q + 2, r);
        BlankIsSpace(l, s, j + |l.summary|, e);
      }
    }
  }

  lemma HeadingMeans(l: Layout, s: string, q: nat)
    requires q <= |s|
    ensures HeadingAt(l, s, q) <==> HeadingLine(l, s, q)
  {}

  // ----- the searches -----

  lemma {:induction false} FindAgentIsFirst(l: Layout, s: string, i: nat)
    requires i <= |s|
    ensures forall p: nat | i <= p <= |s| && AgentAt(l, s, p).Some? ::
              FindAgent(l, s, i).Some? && FindAgent(l, s, i).value <= p
    decreases |s| - i
  {
    if i < |s| && AgentAt(l, s, i).None? {
      FindAgentIsFirst(l, s, i + 1);
    }
  }

  lemma {:induction false} FindSummaryIsFirst(l: Layout, s: string, i: nat)
    requires i <= |s|
    ensures forall q: nat | i <= q <= |s| && SummaryAt(l, s, q).Some? ::
              FindSummary(l, s, i).Some? && FindSummary(l, s, i).value <= q
    decreases |s| - i
  {
    if i < |s| && SummaryAt(l, s, i).None? {
      FindSummaryIsFirst(l, s, i + 1);
    }
  }

  lemma NoEarlierAgent(l: Layout, s: string)
    requires IsLayout(l)
    ensures forall p: nat, e: nat | AgentLine(l, s, p, e) ::
              FindAgent(l, s, 0).Some? && FindAgent(l, s, 0).value <= p
  {
    FindAgentIsFirst(l, s, 0);
    forall p: nat, e: nat | AgentLine(l, s, p, e)
      ensures FindAgent(l, s, 0).Some? && FindAgent(l, s, 0).value <= p
    {
      AgentAtMeans(l, s, p);
    }
  }

  lemma NoEarlierSummary(l: Layout, s: string, i: nat)
    requires IsLayout(l) && i <= |s|
    ensures forall q: nat, r: nat, e: nat | SummaryLine(l, s, q, r, e) && i <= q ::
              FindSummary(l, s, i).Some? && FindSummary(l, s, i).value <= q
  {
    FindSummaryIsFirst(l, s, i);
    forall q: nat, r: nat, e: nat | SummaryLine(l, s, q, r, e) && i <= q
      ensures FindSummary(l, s, i).Some? && FindSummary(l, s, i).value <= q
    {
      SummaryAtMeans(l, s, q);
    }
  }

  lemma AgentSearch(l: Layout, s: string)
    requires IsLayout(l)
    ensures FindAgent(l, s, 0).Some? ==>
              FirstAgent(l, s, FindAgent(l, s, 0).value, AgentAt(l, s, FindAgent(l, s, 0).value).value)
    ensures forall p: nat, e: nat | FirstAgent(l, s, p, e) ::
              FindAgent(l, s, 0) == Some(p) && AgentAt(l, s, p) == Some(e)
  {
    NoEarlierAgent(l, s);
    if FindAgent(l, s, 0).Some? {
      var p := FindAgent(l, s, 0).value;
      AgentAtMeans(l, s, p);
      assert AgentLine(l, s, p, AgentAt(l, s, p).value);
    }
  }

  lemma FoundSummaryIsFirst(l: Layout, s: string, i: nat, q: nat, e: nat)
    requires IsLayout(l) && i <= |s| && FindSummary(l, s, i) == Some(q) && SummaryAt(l, s, q) == Some(e)
    ensures FirstSummary(l, s, i, q, e)
  {
    NoEarlierSummary(l, s, i);
    SummaryAtMeans(l, s, q);
  }

  lemma FirstSummaryIsFound(l: Layout, s: string, i: nat, q: nat, e: nat)
    requires IsLayout(l) && i <= |s| && FirstSummary(l, s, i, q, e)
    ensures FindSummary(l, s, i) == Some(q) && SummaryAt(l, s, q) == Some(e)
  {
    NoEarlierSummary(l, s, i);
    SummaryAtMeans(l, s, q);
    var found := FindSummary(l, s, i).value;
    SummaryAtMeans(l, s, found);
  }

  lemma HeadingSearch(l: Layout, s: string, from: nat, to: nat)
    requires from <= |s|
    ensures FindHeading(l, s, from) == to <==> EndsSection(l, s, from, to)
  {
    forall x | 0 <= x <= |s|
      ensures HeadingAt(l, s, x) <==> HeadingLine(l, s, x)
    {
      HeadingMeans(l, s, x);
    }
    if EndsSection(l, s, from, to) {
      HeadingFound(l, s, from, to);
    } else {
      HeadingMatch(l, s, from);
    }
  }

  /** The script finds exactly the Summary section of a text. */
  lemma SummaryBoundsIsExact(l: Layout, s: string, from: nat, to: nat)
    requires IsLayout(l)
    ensures SummaryBounds(l, s) == Some(Bounds(from, to)) <==> IsSummarySection(l, s, from, to)
  {
    AgentSearch(l, s);
    if SummaryBounds(l, s) == Some(Bounds(from, to)) {
      var p := FindAgent(l, s, 0).value;
      var e := AgentAt(l, s, p).value;
      FoundSummaryIsFirst(l, s, e, FindSummary(l, s, e).value, from);
      HeadingSearch(l, s, from, to);
    }
    if IsSummarySection(l, s, from, to) {
      var p: nat, e: nat, q: nat :| FirstAgent(l, s, p, e) && FirstSummary(l, s, e, q, from);
      FirstSummaryIsFound(l, s, e, q, from);
      HeadingSearch(l, s, from, to);
    }
  }

  /** A body changes only if it has an agent line with a Summary heading behind it. */
  lemma ChangeNeedsSection(l: Layout, body: string, generated: string)
    requires IsLayout(l) && UpdateBody(l, body, generated) != body
    ensures exists p: nat, e: nat, q: nat, r: nat, from: nat ::
              AgentLine(l, body, p, e) && e <= q && SummaryLine(l, body, q, r, from)
  {
    var b := SummaryBounds(l, body).value;
    SummaryBoundsIsExact(l, body, b.from, b.to);
    var p: nat, e: nat, q: nat :| FirstAgent(l, body, p, e) && FirstSummary(l, body, e, q, b.from);
    var r: nat :| SummaryLine(l, body, q, r, b.from);
    assert AgentLine(l, body, p, e);
  }

  // ----- blocks and strips -----

  /** A line break, with or without a carriage return, from i to j. */
  predicate IsBreak(s: string, i: nat, j: nat) {
    && j <= |s|
    && ((j == i + 1 && s[i] == '\n') || (j == i + 2 && s[i] == '\r' && s[i + 1] == '\n'))
  }

  /** At most one line break: as much of it as there is. */
  ghost predicate IsOptionalBreak(s: string, i: nat, j: nat) {
    IsBreak(s, i, j) || (i == j && forall k: nat :: !IsBreak(s, i, k))
  }

  /** A line break at c and the end marker behind it, at d. */
  predicate EndsBlock(l: Layout, s: string, c: nat, d: nat) { IsBreak(s, c, d) && Reads(s, d, l.end) }

  /** A start marker that ends its line, with a line break in front of it if there is one; the
      block's text starts at b. */
  ghost predicate OpensText(l: Layout, s: string, a: nat, b: nat) {
    IsOptionalBreak(s, 0, a) && Reads(s, a, l.start) && IsBreak(s, a + |l.start|, b)
  }

  /** The first end marker from b on that starts a line stands at d, the line break before it at c. */
  ghost predicate FirstEnd(l: Layout, s: string, b: nat, c: nat, d: nat) {
    b <= c && EndsBlock(l, s, c, d) && forall x: nat, y: nat | b <= x && EndsBlock(l, s, x, y) :: c <= x
  }

  /** A generated block at the start of s that takes n characters, up to and including one line break
      behind the end marker. */
  ghost predicate IsBlockPrefix(l: Layout, s: string, n: nat) {
    exists a: nat, b: nat, c: nat, d: nat ::
      OpensText(l, s, a, b) && FirstEnd(l, s, b, c, d) && IsOptionalBreak(s, d + |l.end|, n)
  }

  lemma NewlineIsBreak(s: string, i: nat)
    ensures forall j: nat :: IsBreak(s, i, j) <==> NewlineAt(s, i) > 0 && j == i + NewlineAt(s, i)
    ensures forall j: nat :: IsOptionalBreak(s, i, j) <==> j == i + NewlineAt(s, i)
  {
    assert NewlineAt(s, i) > 0 ==> IsBreak(s, i, i + NewlineAt(s, i));
  }

  lemma EndAtMeans(l: Layout, s: string, c: nat)
    ensures forall d: nat :: EndsBlock(l, s, c, d) <==> EndAt(l, s, c) && d == c + NewlineAt(s, c)
  {
    NewlineIsBreak(s, c);
    OccursReads(s, c + NewlineAt(s, c), l.end);
  }

  lemma {:induction false} FindEndIsFirst(l: Layout, s: string, i: nat)
    requires i <= |s|
    ensures forall c: nat | i <= c <= |s| && EndAt(l, s, c) ::
              FindEnd(l, s, i).Some? && FindEnd(l, s, i).value <= c
    decreases |s| - i
  {
    if i < |s| && !EndAt(l, s, i) {
      FindEndIsFirst(l, s, i + 1);
    }
  }

  lemma NoEarlierEnd(l: Layout, s: string, b: nat)
    requires b <= |s|
    ensures forall x: nat, y: nat | b <= x && EndsBlock(l, s, x, y) ::
              FindEnd(l, s, b).Some? && FindEnd(l, s, b).value <= x
  {
    FindEndIsFirst(l, s, b);
    forall x: nat, y: nat | b <= x && EndsBlock(l, s, x, y)
      ensures FindEnd(l, s, b).Some? && FindEnd(l, s, b).value <= x
    {
      EndAtMeans(l, s, x);
    }
  }

  lemma EndSearch(l: Layout, s: string, b: nat, c: nat, d: nat)
    requires b <= |s|
    ensures FindEnd(l, s, b) == Some(c) && d == c + NewlineAt(s, c) <==> FirstEnd(l, s, b, c, d)
  {
    NoEarlierEnd(l, s, b);
    EndAtMeans(l, s, c);
    if FindEnd(l, s, b).Some? {
      var found := FindEnd(l, s, b).value;
      EndAtMeans(l, s, found);
      assert EndsBlock(l, s, found, found + NewlineAt(s, found));
    }
  }

  lemma OpeningMeans(l: Layout, s: string, a: nat, b: nat)
    ensures OpensText(l, s, a, b) <==>
            && a == NewlineAt(s, 0) && OccursAt(s, a, l.start) && NewlineAt(s, a + |l.start|) > 0
            && b == a + |l.start| + NewlineAt(s, a + |l.start|)
  {
    NewlineIsBreak(s, 0);
    NewlineIsBreak(s, a + |l.start|);
    OccursReads(s, a, l.start);
  }

  /** The pattern for a block matches exactly the blocks. */
  lemma BlockAtIsExact(l: Layout, s: string, n: nat)
    ensures BlockAt(l, s) == Some(n) <==> IsBlockPrefix(l, s, n)
  {
    if BlockAt(l, s) == Some(n) {
      BlockIsPrefix(l, s, n);
    }
    if IsBlockPrefix(l, s, n) {
      var a: nat, b: nat, c: nat, d: nat :|
        OpensText(l, s, a, b) && FirstEnd(l, s, b, c, d) && IsOptionalBreak(s, d + |l.end|, n);
      PrefixIsBlock(l, s, n, a, b, c, d);
    }
  }

  lemma PrefixIsBlock(l: Layout, s: string, n: nat, a: nat, b: nat, c: nat, d: nat)
    requires OpensText(l, s, a, b) && FirstEnd(l, s, b, c, d) && IsOptionalBreak(s, d + |l.end|, n)
    ensures BlockAt(l, s) == Some(n)
  {
    OpeningMeans(l, s, a, b);
    EndSearch(l, s, b, c, d);
    BreakEnds(s, d + |l.end|, n);
  }

  lemma BreakEnds(s: string, i: nat, j: nat)
    requires IsOptionalBreak(s, i, j)
    ensures j == i + NewlineAt(s, i)
  {
    NewlineIsBreak(s, i);
  }

  lemma BlockIsPrefix(l: Layout, s: string, n: nat)
    requires BlockAt(l, s) == Some(n)
    ensures IsBlockPrefix(l, s, n)
  {
    var a := NewlineAt(s, 0);
    var b := a + |l.start| + NewlineAt(s, a + |l.start|);
    OpeningMeans(l, s, a, b);
    var c := FindEnd(l, s, b).value;
    var d := c + NewlineAt(s, c);
    EndSearch(l, s, b, c, d);
    NewlineIsBreak(s, d + |l.end|);
    assert OpensText(l, s, a, b) && FirstEnd(l, s, b, c, d) && IsOptionalBreak(s, d + |l.end|, n);
  }

  /** Stripping takes away the space at both ends and nothing else. */
  lemma StripMeans(l: Layout, s: string)
    ensures exists i: nat, j: nat ::
              && i <= j <= |s| && Strip(l, s) == s[i..j] && Blank(l, s, 0, i) && Blank(l, s, j, |s|)
              && (i < j ==> !l.space(s[i]) && !l.space(s[j - 1]))
  {
    var i := StripLeftMeans(l, s);
    var k := StripRightMeans(l, s[i..]);
    assert s[i..][..k] == s[i..i + k];
    assert Blank(l, s, i + k, |s|) by {
      assert forall x: nat | i + k <= x < |s| :: s[x] == s[i..][x - i];
    }
    assert i < i + k ==> s[i..][0] == s[i] && s[i..][k - 1] == s[i + k - 1];
  }

  lemma {:induction false} StripLeftMeans(l: Layout, s: string) returns (i: nat)
    ensures i <= |s| && StripLeft(l, s) == s[i..] && Blank(l, s, 0, i) && (i < |s| ==> !l.space(s[i]))
  {
    i := 0;
    if s != "" && l.space(s[0]) {
      var k := StripLeftMeans(l, s[1..]);
      i := k + 1;
      assert forall x: nat | 0 < x < i :: s[x] == s[1..][x - 1];
    }
  }

  lemma {:induction false} StripRightMeans(l: Layout, s: string) returns (j: nat)
    ensures j <= |s| && StripRight(l, s) == s[..j] && Blank(l, s, j, |s|) && (0 < j ==> !l.space(s[j - 1]))
  {
    j := |s|;
    if s != "" && l.space(s[|s| - 1]) {
      j := StripRightMeans(l, s[..|s| - 1]);
      assert forall x: nat | j <= x < |s| - 1 :: s[x] == s[..|s| - 1][x];
    }
  }

  /** What the script looks for. */
  lemma ScriptTexts()
    ensures SCRIPT_LAYOUT.agent == "AGENT:" && SCRIPT_LAYOUT.summary == "Summary"
    ensures forall c | c == ' ' || c == '\t' || c == '\n' || c == '\r' :: SCRIPT_LAYOUT.space(c)
    ensures forall c | '!' <= c <= '~' :: !SCRIPT_LAYOUT.space(c)
    ensures SCRIPT_LAYOUT.start == Marker("start -->") && SCRIPT_LAYOUT.end == Marker("end -->")
  {}

  lemma MarkerText(tail: string)
    ensures Marker(tail) == "<!-- agent-server-rest-api-contract-summary:" + tail
  {
    assert "-rest-api-contract" + ("-summary:" + tail) == "-rest-api-contract-summary:" + tail;
  }
}
