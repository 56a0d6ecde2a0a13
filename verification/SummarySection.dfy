/** The generated block of a pull request's Summary section, as
    update_pr_body_with_rest_api_summary.py finds, removes and writes it. */
module SummarySection {
  import opened Wrappers
  import opened Text

  /** The characters of `\s` and of `str.strip()`. */
  predicate IsSpace(c: char) {
    || '\t' <= c <= '\r' || '\U{1c}' <= c <= ' ' || c == '\U{85}' || c == '\U{a0}' || c == '\U{1680}'
    || '\U{2000}' <= c <= '\U{200a}' || c == '\U{2028}' || c == '\U{2029}' || c == '\U{202f}' || c == '\U{205f}'
    || c == '\U{3000}'
  }

  /** The fixed texts of the script and what it takes for space. What follows holds for anything
      in their place that IsLayout describes. */
  datatype Layout = Layout(space: char -> bool, agent: string, summary: string, start: string, end: string)

  const SCRIPT_LAYOUT: Layout :=
    Layout(c => IsSpace(c), "AGENT:", "Summary", Marker("start -->"), Marker("end -->"))

  function Marker(tail: string): string { "<!-- agent-server" + ("-rest-api-contract" + ("-summary:" + tail)) }

  predicate IsWord(space: char -> bool, w: string) { w != "" && w[0] != '#' && !space(w[0]) && '\n' !in w }

  predicate IsLayout(l: Layout) {
    && IsWord(l.space, l.agent) && IsWord(l.space, l.summary) && IsWord(l.space, l.start) && IsWord(l.space, l.end)
    && '#' !in l.summary && l.space('\n') && l.space('\r') && !l.space('#') && !OccursAt(l.start, 0, l.end)
  }

  lemma ScriptLayoutIsLayout()
    ensures IsLayout(SCRIPT_LAYOUT) && |SCRIPT_LAYOUT.end| < |SCRIPT_LAYOUT.start|
  {
    MarkerIsWord(SCRIPT_LAYOUT.space, "start -->");
    MarkerIsWord(SCRIPT_LAYOUT.space, "end -->");
    MarkersDiffer("start -->", "end -->");
  }

  lemma MarkersDiffer(a: string, b: string)
    requires a != "" && b != "" && a[0] != b[0]
    ensures !OccursAt(Marker(a), 0, Marker(b))
  {
    var n := |Marker("")|;
    assert Marker(a)[n] == a[0] && Marker(b)[n] == b[0];
    Differ(Marker(a), Marker(b), n);
  }

  lemma Differ(s: string, w: string, n: nat)
    requires n < |s| && n < |w| && s[n] != w[n]
    ensures !OccursAt(s, 0, w)
  {
    assert s[0 + n] != w[n];
  }

  lemma MarkerIsWord(space: char -> bool, tail: string)
    requires '\n' !in tail && !space('<')
    ensures IsWord(space, Marker(tail))
  {
    NoNewline("-summary:", tail);
    NoNewline("-rest-api-contract", "-summary:" + tail);
    NoNewline("<!-- agent-server", "-rest-api-contract" + ("-summary:" + tail));
  }

  lemma NoNewline(a: string, b: string)
    requires '\n' !in a && '\n' !in b
    ensures '\n' !in a + b
  {}

  // ----- the patterns -----

  predicate LineStart(s: string, i: nat)
    requires i <= |s|
  {
    i == 0 || s[i - 1] == '\n'
  }

  /** The end of `\s*$` at i: as much space as possible, back to the last line end within it. */
  function SpacesToLineEnd(l: Layout, s: string, i: nat): (r: Option<nat>)
    requires i <= |s|
    ensures r.Some? ==> i <= r.value <= |s|
    decreases |s| - i
  {
    if i == |s| then Some(i)
    else if l.space(s[i]) then
      var r := SpacesToLineEnd(l, s, i + 1);
      if r.Some? then r else if s[i] == '\n' then Some(i) else None
    else None
  }

  /** The end of `\s*` at i. */
  function RunEnd(l: Layout, s: string, i: nat): (r: nat)
    requires i <= |s|
    ensures i <= r <= |s|
    decreases |s| - i
  {
    if i < |s| && l.space(s[i]) then RunEnd(l, s, i + 1) else i
  }

  /** AGENT_SECTION_RE at i: where the match ends. */
  function AgentAt(l: Layout, s: string, i: nat): (r: Option<nat>)
    requires i <= |s|
    ensures r.Some? ==> i + |l.agent| <= r.value <= |s|
  {
    if LineStart(s, i) && OccursAt(s, i, l.agent) then SpacesToLineEnd(l, s, i + |l.agent|) else None
  }

  /** NEXT_HEADING_RE at i. */
  predicate HeadingAt(l: Layout, s: string, i: nat)
    requires i <= |s|
  {
    LineStart(s, i) && i + 2 < |s| && s[i] == '#' && s[i + 1] == '#' && l.space(s[i + 2])
  }

  /** SUMMARY_HEADING_RE at i: where the match ends. */
  function SummaryAt(l: Layout, s: string, i: nat): (r: Option<nat>)
    requires i <= |s|
    ensures r.Some? ==> i <= r.value <= |s|
  {
    if HeadingAt(l, s, i) then
      var j := RunEnd(l, s, i + 2);
      if OccursAt(s, j, l.summary) then SpacesToLineEnd(l, s, j + |l.summary|) else None
    else None
  }

  /** The searches, from i on: the first position that matches. */
  function FindAgent(l: Layout, s: string, i: nat): (r: Option<nat>)
    requires i <= |s|
    ensures r.Some? ==> i <= r.value <= |s| && AgentAt(l, s, r.value).Some?
    decreases |s| - i
  {
    if AgentAt(l, s, i).Some? then Some(i) else if i == |s| then None else FindAgent(l, s, i + 1)
  }

  function FindSummary(l: Layout, s: string, i: nat): (r: Option<nat>)
    requires i <= |s|
    ensures r.Some? ==> i <= r.value <= |s| && SummaryAt(l, s, r.value).Some?
    decreases |s| - i
  {
    if SummaryAt(l, s, i).Some? then Some(i) else if i == |s| then None else FindSummary(l, s, i + 1)
  }

  /** The next heading, or the end of the text. */
  function FindHeading(l: Layout, s: string, i: nat): (r: nat)
    requires i <= |s|
    ensures i <= r <= |s|
    decreases |s| - i
  {
    if i == |s| || HeadingAt(l, s, i) then i else FindHeading(l, s, i + 1)
  }

  datatype Bounds = Bounds(from: nat, to: nat)

  /** `_summary_bounds`. */
  function SummaryBounds(l: Layout, s: string): (r: Option<Bounds>)
    ensures r.Some? ==> r.value.from <= r.value.to <= |s|
  {
    var p := FindAgent(l, s, 0);
    if p.None? then None
    else
      var q := FindSummary(l, s, AgentAt(l, s, p.value).value);
      if q.None? then None
      else
        var from := SummaryAt(l, s, q.value).value;
        Some(Bounds(from, FindHeading(l, s, from)))
  }

  // ----- the generated block -----

  /** The length of `\r?\n` at i; 0 if it is not there. */
  function NewlineAt(s: string, i: nat): (n: nat)
    ensures n <= 2 && (n > 0 ==> i + n <= |s| && s[i + n - 1] == '\n')
  {
    if i < |s| && s[i] == '\n' then 1
    else if i + 1 < |s| && s[i] == '\r' && s[i + 1] == '\n' then 2
    else 0
  }

  /** `\r?\n` and the end marker at i. */
  predicate EndAt(l: Layout, s: string, i: nat) {
    NewlineAt(s, i) > 0 && OccursAt(s, i + NewlineAt(s, i), l.end)
  }

  /** The first end marker from i on. */
  function FindEnd(l: Layout, s: string, i: nat): (r: Option<nat>)
    requires i <= |s|
    ensures r.Some? ==> i <= r.value && EndAt(l, s, r.value)
    decreases |s| - i
  {
    if EndAt(l, s, i) then Some(i) else if i == |s| then None else FindEnd(l, s, i + 1)
  }

  /** GENERATED_BLOCK_RE at the start of s: where the match ends. */
  function BlockAt(l: Layout, s: string): (r: Option<nat>)
    ensures r.Some? ==> r.value <= |s|
  {
    var lead := NewlineAt(s, 0);
    var open := lead + |l.start|;
    if !OccursAt(s, lead, l.start) || NewlineAt(s, open) == 0 then None
    else
      var close := FindEnd(l, s, open + NewlineAt(s, open));
      if close.None? then None
      else
        var after := close.value + NewlineAt(s, close.value) + |l.end|;
        Some(after + NewlineAt(s, after))
  }

  /** `GENERATED_BLOCK_RE.sub("\n", s)`. */
  function ReplaceBlocks(l: Layout, s: string): string
    decreases |s|
  {
    if s == "" then ""
    else
      var block := BlockAt(l, s);
      if block.Some? && block.value > 0 then "\n" + ReplaceBlocks(l, s[block.value..])
      else [s[0]] + ReplaceBlocks(l, s[1..])
  }

  function StripLeft(l: Layout, s: string): string { if s != "" && l.space(s[0]) then StripLeft(l, s[1..]) else s }

  function StripRight(l: Layout, s: string): (r: string)
    ensures r <= s && (r != "" ==> !l.space(r[|r| - 1]))
  {
    if s != "" && l.space(s[|s| - 1]) then StripRight(l, s[..|s| - 1]) else s
  }

  function Strip(l: Layout, s: string): (r: string)
    ensures r != "" ==> !l.space(r[|r| - 1])
  {
    StripRight(l, StripLeft(l, s))
  }

  /** The section without generated blocks, `cleaned_section`. */
  function Cleaned(l: Layout, section: string): string { StripRight(l, ReplaceBlocks(l, section)) }

  function Block(l: Layout, summary: string): string { l.start + "\n" + summary + "\n" + l.end }

  /** What a run puts in the place of a section. */
  function Replacement(l: Layout, cleaned: string, summary: string): string {
    if summary != "" then
      if Strip(l, cleaned) != "" then cleaned + "\n\n" + Block(l, summary) + "\n\n"
      else "\n\n" + Block(l, summary) + "\n\n"
    else if cleaned != "" then cleaned + "\n"
    else "\n"
  }

  /** `update_body`. */
  function UpdateBody(l: Layout, body: string, generated: string): string {
    var summary, bounds := Strip(l, generated), SummaryBounds(l, body);
    if summary == "" && !Contains(body, l.start) then body
    else if bounds.None? then body
    else
      var cleaned := Cleaned(l, body[bounds.value.from..bounds.value.to]);
      body[..bounds.value.from] + Replacement(l, cleaned, summary) + body[bounds.value.to..]
  }

  // ----- what the patterns match -----

  /** From i to e there is only space, and a line ends at e. */
  predicate SpaceToLineEnd(l: Layout, s: string, i: nat, e: nat) {
    i <= e <= |s| && (e == |s| || s[e] == '\n') && forall x | i <= x < e :: l.space(s[x])
  }

  /** `\s*$` matches space up to a line end, and the longest such stretch: none ends later. */
  lemma {:induction false} SpacesMatch(l: Layout, s: string, i: nat)
    requires l.space('\n') && i <= |s|
    ensures SpacesToLineEnd(l, s, i).Some? ==> SpaceToLineEnd(l, s, i, SpacesToLineEnd(l, s, i).value)
    ensures forall e: nat | SpaceToLineEnd(l, s, i, e) ::
              SpacesToLineEnd(l, s, i).Some? && e <= SpacesToLineEnd(l, s, i).value
    decreases |s| - i
  {
    if i < |s| && l.space(s[i]) {
      SpacesMatch(l, s, i + 1);
      forall e: nat | SpaceToLineEnd(l, s, i, e)
        ensures SpacesToLineEnd(l, s, i).Some? && e <= SpacesToLineEnd(l, s, i).value
      {
        if e > i {
          assert SpaceToLineEnd(l, s, i + 1, e);
        }
      }
    }
  }

  lemma {:induction false} HeadingMatch(l: Layout, s: string, i: nat)
    requires i <= |s|
    ensures FindHeading(l, s, i) == |s| || HeadingAt(l, s, FindHeading(l, s, i))
    ensures forall x | i <= x < FindHeading(l, s, i) :: !HeadingAt(l, s, x)
    decreases |s| - i
  {
    if i < |s| && !HeadingAt(l, s, i) {
      HeadingMatch(l, s, i + 1);
    }
  }

  /** The section starts at a line end, or at the end of the text, and ends at a heading or there. */
  lemma BoundsMatch(l: Layout, s: string, b: Bounds)
    requires IsLayout(l) && SummaryBounds(l, s) == Some(b)
    ensures b.from == |s| || s[b.from] == '\n'
    ensures b.to == |s| || HeadingAt(l, s, b.to)
    ensures forall x | b.from <= x < b.to :: !HeadingAt(l, s, x)
  {
    var p := FindAgent(l, s, 0).value;
    var q := FindSummary(l, s, AgentAt(l, s, p).value).value;
    SummaryParts(l, s, q, b.from);
    HeadingMatch(l, s, b.from);
  }

  lemma SummaryParts(l: Layout, s: string, q: nat, n: nat)
    requires IsLayout(l) && q <= |s| && SummaryAt(l, s, q) == Some(n)
    ensures HeadingAt(l, s, q) && OccursAt(s, RunEnd(l, s, q + 2), l.summary) && !l.space(s[RunEnd(l, s, q + 2)])
    ensures RunEnd(l, s, q + 2) + |l.summary| <= n <= |s| && (n == |s| || s[n] == '\n')
    ensures forall x | RunEnd(l, s, q + 2) + |l.summary| <= x < n :: l.space(s[x])
  {
    assert l.summary[0] == s[RunEnd(l, s, q + 2)];
    SpacesMatch(l, s, RunEnd(l, s, q + 2) + |l.summary|);
  }

  // ----- texts that agree up to a line end -----

  /** s and t are the same up to n, where t has a newline and s has one too or ends. */
  predicate Agree(s: string, t: string, n: nat) {
    n <= |s| && (n < |s| ==> s[n] == '\n') && n < |t| && t[n] == '\n' && forall x | 0 <= x < n :: s[x] == t[x]
  }

  lemma WordAt(s: string, i: nat, w: string)
    requires OccursAt(s, i, w)
    ensures forall x | i <= x < i + |w| :: s[x] in w
  {
    assert forall x | i <= x < i + |w| :: s[x] == w[x - i];
  }

  /** A word that starts by the newline ends by it. */
  lemma WordEnds(s: string, n: nat, i: nat, w: string)
    requires n < |s| && s[n] == '\n' && i <= n && w != "" && '\n' !in w
    ensures OccursAt(s, i, w) ==> i + |w| <= n
  {
    if OccursAt(s, i, w) {
      WordAt(s, i, w);
    }
  }

  lemma WordAgrees(s: string, t: string, n: nat, i: nat, w: string)
    requires Agree(s, t, n) && i <= n && w != "" && '\n' !in w
    ensures OccursAt(s, i, w) <==> OccursAt(t, i, w)
  {
    if n < |s| {
      WordEnds(s, n, i, w);
    }
    WordEnds(t, n, i, w);
  }

  lemma {:induction false} SpacesAgree(l: Layout, s: string, t: string, n: nat, i: nat, q: nat)
    requires Agree(s, t, n) && i <= q < n && !l.space(s[q])
    ensures SpacesToLineEnd(l, s, i) == SpacesToLineEnd(l, t, i)
    decreases q - i
  {
    if i < q {
      SpacesAgree(l, s, t, n, i + 1, q);
    }
  }

  lemma {:induction false} RunsAgree(l: Layout, s: string, t: string, n: nat, i: nat, q: nat)
    requires Agree(s, t, n) && i <= q < n && !l.space(s[q])
    ensures RunEnd(l, s, i) == RunEnd(l, t, i) <= q
    decreases q - i
  {
    if i < q {
      RunsAgree(l, s, t, n, i + 1, q);
    }
  }

  lemma AgentSame(l: Layout, s: string, t: string, n: nat, i: nat, q: nat)
    requires l.agent != "" && '\n' !in l.agent && Agree(s, t, n) && i + |l.agent| <= q < n && !l.space(s[q])
    ensures AgentAt(l, s, i) == AgentAt(l, t, i)
  {
    WordAgrees(s, t, n, i, l.agent);
    SpacesAgree(l, s, t, n, i + |l.agent|, q);
  }

  /** The first match of AGENT_SECTION_RE is the same if some text stands between it and n. */
  lemma {:induction false} AgentAgrees(l: Layout, s: string, t: string, n: nat, i: nat, p: nat, q: nat)
    requires l.agent != "" && '\n' !in l.agent && Agree(s, t, n) && p + |l.agent| <= q < n && !l.space(s[q])
    requires i <= p && FindAgent(l, s, i) == Some(p)
    ensures FindAgent(l, t, i) == Some(p)
    decreases p - i
  {
    AgentSame(l, s, t, n, i, q);
    if i < p {
      AgentAgrees(l, s, t, n, i + 1, p, q);
    }
  }

  lemma HeadingAgrees(l: Layout, s: string, t: string, n: nat, q: nat)
    requires Agree(s, t, n) && q + 2 < n
    ensures HeadingAt(l, s, q) <==> HeadingAt(l, t, q)
  {}

  lemma BeforeHeading(l: Layout, s: string, j: nat, q: nat)
    requires IsLayout(l) && j <= q < |s| && s[q] == '#' && OccursAt(s, j, l.summary)
    ensures j + |l.summary| <= q
  {
    WordAt(s, j, l.summary);
  }

  lemma TitleAgrees(l: Layout, s: string, t: string, n: nat, j: nat, q: nat)
    requires IsLayout(l) && Agree(s, t, n) && j <= q < n && s[q] == '#'
    ensures OccursAt(s, j, l.summary) <==> OccursAt(t, j, l.summary)
    ensures OccursAt(s, j, l.summary) ==>
              SpacesToLineEnd(l, s, j + |l.summary|) == SpacesToLineEnd(l, t, j + |l.summary|)
  {
    WordAgrees(s, t, n, j, l.summary);
    if OccursAt(s, j, l.summary) {
      BeforeHeading(l, s, j, q);
      SpacesAgree(l, s, t, n, j + |l.summary|, q);
    }
  }

  /** A heading in front of another one matches SUMMARY_HEADING_RE in both texts or in neither. */
  lemma SummaryAgrees(l: Layout, s: string, t: string, n: nat, i: nat, q: nat)
    requires IsLayout(l) && Agree(s, t, n) && i < q < n && HeadingAt(l, s, q)
    ensures SummaryAt(l, s, i) == SummaryAt(l, t, i)
  {
    if s[i] == '#' {
      assert q != i + 1;
      HeadingAgrees(l, s, t, n, i);
      RunsAgree(l, s, t, n, i + 2, q);
      TitleAgrees(l, s, t, n, RunEnd(l, s, i + 2), q);
    }
  }

  lemma {:induction false} SummaryFound(l: Layout, s: string, t: string, n: nat, i: nat, q: nat)
    requires IsLayout(l) && Agree(s, t, n) && i <= q < n && FindSummary(l, s, i) == Some(q)
    requires SummaryAt(l, t, q).Some?
    ensures FindSummary(l, t, i) == Some(q)
    decreases q - i
  {
    if i < q {
      SummaryAgrees(l, s, t, n, i, q);
      SummaryFound(l, s, t, n, i + 1, q);
    }
  }

  lemma {:induction false} SpacesThrough(l: Layout, s: string, i: nat, n: nat)
    requires l.space('\n') && i <= n < |s| && s[n] == '\n' && forall x | i <= x < n :: l.space(s[x])
    ensures SpacesToLineEnd(l, s, i) == SpacesToLineEnd(l, s, n) && SpacesToLineEnd(l, s, n).Some?
    ensures SpacesToLineEnd(l, s, n).value >= n
    decreases n - i
  {
    if i < n {
      SpacesThrough(l, s, i + 1, n);
    }
  }

  /** The match that ended at n ends at n or at a later line end of the same space in t. */
  lemma SummaryMoves(l: Layout, s: string, t: string, n: nat, q: nat)
    requires IsLayout(l) && Agree(s, t, n) && q < n && SummaryAt(l, s, q) == Some(n)
    ensures SummaryAt(l, t, q) == SpacesToLineEnd(l, t, n) && SpacesToLineEnd(l, t, n).Some?
  {
    SummaryParts(l, s, q, n);
    var j := RunEnd(l, s, q + 2);
    HeadingAgrees(l, s, t, n, q);
    RunsAgree(l, s, t, n, q + 2, j);
    WordAgrees(s, t, n, j, l.summary);
    SpacesThrough(l, t, j + |l.summary|, n);
  }

  // ----- headings -----

  /** No heading in a text that starts a line. */
  predicate NoHeading(l: Layout, s: string) { forall i | 0 <= i <= |s| :: !HeadingAt(l, s, i) }

  lemma NoHeadingConcat(l: Layout, a: string, b: string)
    requires a != "" && a[|a| - 1] == '\n' && NoHeading(l, a) && NoHeading(l, b)
    ensures NoHeading(l, a + b)
  {
    forall i | 0 <= i <= |a + b|
      ensures !HeadingAt(l, a + b, i)
    {
      if HeadingAt(l, a + b, i) {
        if i >= |a| {
          assert HeadingAt(l, b, i - |a|);
        } else {
          assert i + 2 < |a|;
          assert HeadingAt(l, a, i);
        }
      }
    }
  }

  lemma {:induction false} HeadingFound(l: Layout, s: string, i: nat, n: nat)
    requires i <= n <= |s| && (n == |s| || HeadingAt(l, s, n))
    requires forall x | i <= x < n :: !HeadingAt(l, s, x)
    ensures FindHeading(l, s, i) == n
    decreases n - i
  {
    if i < n {
      HeadingFound(l, s, i + 1, n);
    }
  }
}
