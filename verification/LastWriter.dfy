/** What repeated updates of a pull request body leave behind: the last summary wins. */
module LastWriter {
  import opened Wrappers
  import opened Text
  import opened SummarySection
  import opened WrittenBlock
  import opened GeneratedBlock

  function Author(l: Layout, body: string, b: Bounds): string
    requires b.from <= b.to <= |body|
  {
    Cleaned(l, body[b.from..b.to])
  }

  /** Text an author wrote in the Summary section: some text, no line that ends in a start marker
      which lost its end marker, and no line that is a heading once a newline follows it. */
  predicate IsAuthorText(l: Layout, c: string) {
    c != "" && !OpensBlock(l, c) && NoHeading(l, c + "\n")
  }

  predicate Ready(l: Layout, body: string) {
    var bounds := SummaryBounds(l, body);
    bounds.Some? && IsAuthorText(l, Author(l, body, bounds.value))
  }

  /** A summary without the end marker and without headings. */
  predicate Plain(l: Layout, generated: string) {
    !Contains(Strip(l, generated), l.end) && NoHeading(l, Strip(l, generated) + "\n")
  }

  // ----- the section found again -----

  /** A text that agrees with the body up to where the section starts has its section start there,
      or at a later line end of the same space. */
  lemma BoundsMove(l: Layout, body: string, t: string, from: nat, again: Bounds)
    requires IsLayout(l) && SummaryBounds(l, body).Some? && SummaryBounds(l, body).value.from == from
    requires Agree(body, t, from) && SpacesToLineEnd(l, t, from) == Some(again.from)
    requires FindHeading(l, t, again.from) == again.to
    ensures SummaryBounds(l, t) == Some(again)
  {
    var p := FindAgent(l, body, 0).value;
    var e := AgentAt(l, body, p).value;
    var q := FindSummary(l, body, e).value;
    SummaryParts(l, body, q, from);
    AgentAgrees(l, body, t, from, 0, p, q);
    AgentSame(l, body, t, from, p, q);
    SummaryMoves(l, body, t, from, q);
    SummaryFound(l, body, t, from, e, q);
  }

  /** The section ends where a text without headings ends. */
  lemma SectionEnds(l: Layout, pre: string, text: string, post: string, m: nat)
    requires text != "" && text[0] == '\n' == text[|text| - 1] && NoHeading(l, text)
    requires post == "" || HeadingAt(l, post, 0)
    requires |pre| <= m <= |pre| + |text|
    ensures FindHeading(l, pre + text + post, m) == |pre| + |text|
  {
    var t, n := pre + text + post, |pre| + |text|;
    forall x | m <= x < n
      ensures !HeadingAt(l, t, x)
    {
      if HeadingAt(l, t, x) {
        assert t[n - 1] == '\n' && t[|pre|] == '\n';
        assert HeadingAt(l, text, x - |pre|);
      }
    }
    HeadingFound(l, t, m, n);
  }

  // ----- no heading is written -----

  lemma WordLine(l: Layout, w: string)
    requires IsWord(l.space, w)
    ensures NoHeading(l, w + "\n")
  {}

  lemma BlankLine(l: Layout)
    ensures NoHeading(l, "\n")
  {}

  /** The lines a run writes after the author's last line hold no heading. */
  lemma WrittenHasNoHeading(l: Layout, summary: string)
    requires IsLayout(l) && NoHeading(l, summary + "\n")
    ensures NoHeading(l, Written(l, summary))
  {
    var a, b, c, d := "\n", l.start + "\n", summary + "\n", l.end + "\n";
    BlankLine(l);
    WordLine(l, l.start);
    WordLine(l, l.end);
    NoHeadingConcat(l, d, a);
    NoHeadingConcat(l, c, d + a);
    NoHeadingConcat(l, b, c + (d + a));
    NoHeadingConcat(l, a, b + (c + (d + a)));
    WrittenLines(l.start, summary, l.end);
  }

  lemma WrittenLines(start: string, summary: string, end: string)
    ensures "\n" + ((start + "\n") + ((summary + "\n") + ((end + "\n") + "\n")))
         == "\n" + (start + "\n" + summary + "\n" + end) + "\n\n"
  {}

  lemma TailHasNoHeading(l: Layout, c: string, generated: string)
    requires IsLayout(l) && NoHeading(l, c + "\n") && Plain(l, generated)
    ensures NoHeading(l, c + Tail(l, generated))
  {
    if Strip(l, generated) != "" {
      var w := Written(l, Strip(l, generated));
      WrittenHasNoHeading(l, Strip(l, generated));
      NoHeadingConcat(l, c + "\n", w);
      assert (c + "\n") + w == c + ("\n" + w);
    }
  }

  // ----- author text and what is written after it -----

  lemma AuthorShape(l: Layout, body: string, b: Bounds)
    requires IsLayout(l) && SummaryBounds(l, body) == Some(b) && Author(l, body, b) != ""
    ensures b.from < b.to && body[b.from] == '\n' == Author(l, body, b)[0]
    ensures !l.space(Author(l, body, b)[|Author(l, body, b)| - 1])
  {
    var section := body[b.from..b.to];
    BoundsMatch(l, body, b);
    if section != "" {
      assert section[0] == '\n';
      assert ReplaceBlocks(l, section)[0] == '\n';
    }
  }

  lemma ContainsSuffix(c: string, k: nat, w: string)
    requires k <= |c| && !Contains(c, w)
    ensures !Contains(c[k..], w)
  {
    forall i | 0 <= i <= |c[k..]|
      ensures !OccursAt(c[k..], i, w)
    {
      assert !OccursAt(c, k + i, w);
      assert forall x: nat | x < |c[k..]| :: c[k..][x] == c[k + x];
      if i + |w| <= |c[k..]| {
        var j :| 0 <= j < |w| && c[(k + i) + j] != w[j];
        assert c[k..][i + j] != w[j];
      }
    }
  }

  lemma OpensSuffix(l: Layout, c: string, k: nat)
    requires k <= |c| && !OpensBlock(l, c)
    ensures !OpensBlock(l, c[k..])
  {
    forall i | 0 <= i <= |c[k..]|
      ensures !MarkerAt(l, c[k..], i)
    {
      assert !MarkerAt(l, c, k + i);
      MarkerInSuffix(l, c, k, i);
    }
  }

  lemma MarkerInSuffix(l: Layout, c: string, k: nat, i: nat)
    requires k <= |c|
    ensures MarkerAt(l, c[k..], i) ==> MarkerAt(l, c, k + i)
  {
    var t := c[k..];
    assert forall x: nat | x < |t| :: t[x] == c[k + x];
    assert (c + "\n")[k..] == t + "\n";
    assert forall x: nat | x < |t + "\n"| :: (t + "\n")[x] == (c + "\n")[k + x];
    if OccursAt(t, i, l.start) {
      forall j | 0 <= j < |l.start|
        ensures c[(k + i) + j] == l.start[j]
      {
        assert t[i + j] == l.start[j];
      }
    }
  }

  lemma NoHeadingSuffix(l: Layout, c: string, k: nat)
    requires k < |c| && c[k] == '\n' && NoHeading(l, c + "\n")
    ensures NoHeading(l, c[k..] + "\n")
  {
    forall i | 0 <= i <= |c[k..] + "\n"|
      ensures !HeadingAt(l, c[k..] + "\n", i)
    {
      if HeadingAt(l, c[k..] + "\n", i) {
        assert c + "\n" == c[..k] + (c[k..] + "\n");
        assert HeadingAt(l, c + "\n", k + i);
      }
    }
  }

  lemma AuthorTextSuffix(l: Layout, c: string, k: nat)
    requires IsAuthorText(l, c) && k < |c| && c[k] == '\n'
    ensures IsAuthorText(l, c[k..])
  {
    OpensSuffix(l, c, k);
    NoHeadingSuffix(l, c, k);
  }

  /** A tail after author text c that brings no heading ... */
  predicate Fits(l: Layout, c: string, tail: string) {
    tail != "" && tail[|tail| - 1] == '\n' && NoHeading(l, c + tail)
  }

  /** ... and of which nothing is left when blocks are removed, whichever part of c it follows. */
  ghost predicate Vanishes(clean: string -> string, c: string, tail: string) {
    forall k: nat | k < |c| :: clean(c[k..] + tail) == c[k..]
  }

  function Cleaner(l: Layout): string -> string { s => Cleaned(l, s) }

  lemma TailEnds(l: Layout, generated: string)
    ensures Tail(l, generated) != "" && Tail(l, generated)[|Tail(l, generated)| - 1] == '\n'
  {
    WrittenPlaced(l, Strip(l, generated));
  }

  lemma TailVanishes(l: Layout, c: string, generated: string)
    requires IsLayout(l) && IsAuthorText(l, c) && !l.space(c[|c| - 1]) && !Contains(Strip(l, generated), l.end)
    ensures Vanishes(Cleaner(l), c, Tail(l, generated))
  {
    forall k: nat | k < |c|
      ensures Cleaner(l)(c[k..] + Tail(l, generated)) == c[k..]
    {
      OpensSuffix(l, c, k);
      TailCleaned(l, c[k..], generated);
    }
  }

  lemma TailFits(l: Layout, c: string, generated: string)
    requires IsLayout(l) && IsAuthorText(l, c) && !l.space(c[|c| - 1]) && Plain(l, generated)
    ensures Fits(l, c, Tail(l, generated)) && Vanishes(Cleaner(l), c, Tail(l, generated))
  {
    TailEnds(l, generated);
    TailHasNoHeading(l, c, generated);
    TailVanishes(l, c, generated);
  }

  // ----- what the next run finds -----

  /** Where the section starts in t, which has author text c at `from`: at a line end in the space
      c starts with. */
  lemma StartsInAuthorText(l: Layout, t: string, from: nat, c: string) returns (k: nat)
    requires l.space('\n') && c != "" && c[0] == '\n' && !l.space(c[|c| - 1]) && from + |c| < |t|
    requires forall x: nat | x < |c| :: t[from + x] == c[x]
    ensures k < |c| && c[k] == '\n' && SpacesToLineEnd(l, t, from) == Some(from + k)
  {
    assert t[from + 0] == '\n';
    SpacesThrough(l, t, from, from);
    SpacesMatch(l, t, from);
    assert t[from + (|c| - 1)] == c[|c| - 1];
    k := SpacesToLineEnd(l, t, from).value - from;
    assert t[from + k] == c[k];
  }

  /** t agrees with the body up to `from`, has c there, and no heading before `to`. */
  predicate Continues(l: Layout, body: string, from: nat, t: string, c: string, to: nat) {
    && Agree(body, t, from) && c != "" && c[0] == '\n' && !l.space(c[|c| - 1]) && from + |c| < |t|
    && (forall x: nat | x < |c| :: t[from + x] == c[x])
    && (forall m | from <= m < from + |c| :: FindHeading(l, t, m) == to)
  }

  lemma PatternsAgain(l: Layout, body: string, from: nat, t: string, c: string, to: nat) returns (k: nat)
    requires l.space('\n') && Continues(l, body, from, t, c, to)
    ensures k < |c| && c[k] == '\n' && Agree(body, t, from)
    ensures SpacesToLineEnd(l, t, from) == Some(from + k) && FindHeading(l, t, from + k) == to
  {
    k := StartsInAuthorText(l, t, from, c);
  }

  function Finder(l: Layout): string -> Option<Bounds> { s => SummaryBounds(l, s) }

  function Continuer(l: Layout, body: string, from: nat, c: string): (string, nat) -> bool {
    (t: string, to: nat) => Continues(l, body, from, t, c, to)
  }

  /** A text that continues the body with c has its section start in c. */
  ghost predicate Refinds(find: string -> Option<Bounds>, continues: (string, nat) -> bool, from: nat, c: string) {
    forall t, to: nat | continues(t, to) ::
      exists k: nat | k < |c| :: c[k] == '\n' && find(t) == Some(Bounds(from + k, to))
  }

  lemma ScriptRefinds(l: Layout, body: string, b: Bounds, c: string)
    requires IsLayout(l) && SummaryBounds(l, body) == Some(b)
    ensures Refinds(Finder(l), Continuer(l, body, b.from, c), b.from, c)
  {
    forall t, to: nat | Continuer(l, body, b.from, c)(t, to)
      ensures exists k: nat | k < |c| :: c[k] == '\n' && Finder(l)(t) == Some(Bounds(b.from + k, to))
    {
      var k := PatternsAgain(l, body, b.from, t, c, to);
      BoundsMove(l, body, t, b.from, Bounds(b.from + k, to));
    }
  }

  /** The body with author text c and a tail in its section. */
  function Rebuilt(body: string, b: Bounds, c: string, tail: string): string
    requires b.from <= b.to <= |body|
  {
    body[..b.from] + (c + tail) + body[b.to..]
  }

  lemma RebuiltAgrees(body: string, b: Bounds, c: string, tail: string)
    requires b.from < b.to <= |body| && c != "" && tail != "" && body[b.from] == '\n' == c[0]
    ensures Agree(body, Rebuilt(body, b, c, tail), b.from)
    ensures b.from + |c| < |Rebuilt(body, b, c, tail)|
    ensures forall x: nat | x < |c| :: Rebuilt(body, b, c, tail)[b.from + x] == c[x]
  {}

  lemma RebuiltEnds(l: Layout, body: string, b: Bounds, c: string, tail: string)
    requires b.from <= b.to <= |body| && (body[b.to..] == "" || HeadingAt(l, body[b.to..], 0))
    requires c != "" && c[0] == '\n' && tail != "" && tail[|tail| - 1] == '\n' && NoHeading(l, c + tail)
    ensures b.from + |c + tail| <= |Rebuilt(body, b, c, tail)|
    ensures forall m | b.from <= m < b.from + |c| :: FindHeading(l, Rebuilt(body, b, c, tail), m) == b.from + |c + tail|
  {
    assert (c + tail)[0] == '\n' == (c + tail)[|c + tail| - 1];
    forall m | b.from <= m < b.from + |c|
      ensures FindHeading(l, Rebuilt(body, b, c, tail), m) == b.from + |c + tail|
    {
      SectionEnds(l, body[..b.from], c + tail, body[b.to..], m);
    }
  }

  lemma PostHeading(l: Layout, body: string, b: Bounds)
    requires IsLayout(l) && SummaryBounds(l, body) == Some(b)
    ensures body[b.to..] == "" || HeadingAt(l, body[b.to..], 0)
  {
    BoundsMatch(l, body, b);
  }

  lemma RebuiltContinues(l: Layout, body: string, b: Bounds, c: string, tail: string)
    requires b.from < b.to <= |body| && body[b.from] == '\n' && (body[b.to..] == "" || HeadingAt(l, body[b.to..], 0))
    requires c != "" && c[0] == '\n' && !l.space(c[|c| - 1]) && Fits(l, c, tail)
    ensures Continuer(l, body, b.from, c)(Rebuilt(body, b, c, tail), b.from + |c + tail|)
  {
    RebuiltAgrees(body, b, c, tail);
    RebuiltEnds(l, body, b, c, tail);
  }

  /** The section is the rest of c and the tail; what `clean` makes of that is the rest of c. */
  lemma CleanedAgain(clean: string -> string, body: string, b: Bounds, c: string, tail: string, k: nat)
    requires b.from <= b.to <= |body| && k < |c| && Vanishes(clean, c, tail)
    ensures b.from + |c + tail| <= |Rebuilt(body, b, c, tail)|
    ensures Rebuilt(body, b, c, tail)[b.from + k..b.from + |c + tail|] == c[k..] + tail
    ensures clean(Rebuilt(body, b, c, tail)[b.from + k..b.from + |c + tail|]) == c[k..]
  {
    SectionText(body[..b.from], c, tail, body[b.to..], k);
  }

  lemma SectionText(pre: string, c: string, tail: string, post: string, k: nat)
    requires k <= |c|
    ensures (pre + (c + tail) + post)[|pre| + k..|pre| + |c + tail|] == c[k..] + tail
  {}

  lemma RebuiltOfRebuilt(body: string, b: Bounds, c: string, tail: string, other: string, k: nat)
    requires b.from <= b.to <= |body| && k <= |c|
    ensures b.from + |c + tail| <= |Rebuilt(body, b, c, tail)|
    ensures Rebuilt(Rebuilt(body, b, c, tail), Bounds(b.from + k, b.from + |c + tail|), c[k..], other)
         == Rebuilt(body, b, c, other)
  {
    SamePieces(body[..b.from], c, tail, other, body[b.to..], k);
  }

  lemma SamePieces(pre: string, c: string, tail: string, other: string, post: string, k: nat)
    requires k <= |c|
    ensures var t := pre + (c + tail) + post;
            t[..|pre| + k] + (c[k..] + other) + t[|pre| + |c + tail|..] == pre + (c + other) + post
  {
    var t := pre + (c + tail) + post;
    assert t[..|pre| + k] == pre + c[..k];
    assert t[|pre| + |c + tail|..] == post;
    assert c[..k] + c[k..] == c;
  }

  /** The next run finds a section with the rest of the author's text, and rebuilding that
      section is rebuilding the one of the body. */
  lemma FoundAgain(find: string -> Option<Bounds>, continues: (string, nat) -> bool, clean: string -> string,
                   body: string, b: Bounds, c: string, tail: string, other: string)
    returns (again: Bounds, k: nat)
    requires b.from < b.to <= |body| && Refinds(find, continues, b.from, c) && Vanishes(clean, c, tail)
    requires continues(Rebuilt(body, b, c, tail), b.from + |c + tail|)
    ensures k < |c| && c[k] == '\n' && again.from <= again.to <= |Rebuilt(body, b, c, tail)|
    ensures find(Rebuilt(body, b, c, tail)) == Some(again)
    ensures Rebuilt(body, b, c, tail)[again.from..again.to] == c[k..] + tail
    ensures clean(Rebuilt(body, b, c, tail)[again.from..again.to]) == c[k..]
    ensures Rebuilt(Rebuilt(body, b, c, tail), again, c[k..], other) == Rebuilt(body, b, c, other)
  {
    k :| k < |c| && c[k] == '\n' && find(Rebuilt(body, b, c, tail)) == Some(Bounds(b.from + k, b.from + |c + tail|));
    again := Bounds(b.from + k, b.from + |c + tail|);
    CleanedAgain(clean, body, b, c, tail, k);
    RebuiltOfRebuilt(body, b, c, tail, other, k);
  }

  // ----- one run after another -----

  /** `update_body` on a section with author text. */
  lemma UpdateRebuilds(l: Layout, body: string, b: Bounds, c: string, generated: string)
    requires SummaryBounds(l, body) == Some(b) && Author(l, body, b) == c && c != ""
    ensures UpdateBody(l, body, generated)
         == if Strip(l, generated) == "" && !Contains(body, l.start) then body
            else Rebuilt(body, b, c, Tail(l, generated))
  {
    var summary := Strip(l, generated);
    StripKeepsText(l, c);
    if summary != "" {
      TailShape(c, Block(l, summary));
    }
  }

  lemma TailShape(c: string, block: string)
    ensures c + "\n\n" + block + "\n\n" == c + ("\n" + ("\n" + block + "\n\n"))
  {}

  lemma RebuiltTwice(l: Layout, body: string, b: Bounds, c: string, tail: string, other: string)
    returns (again: Bounds, x: string)
    requires IsLayout(l) && SummaryBounds(l, body) == Some(b) && Author(l, body, b) == c && IsAuthorText(l, c)
    requires Fits(l, c, tail) && Vanishes(Cleaner(l), c, tail)
    ensures again.from <= again.to <= |Rebuilt(body, b, c, tail)| && IsAuthorText(l, x)
    ensures Finder(l)(Rebuilt(body, b, c, tail)) == Some(again)
    ensures Rebuilt(body, b, c, tail)[again.from..again.to] == x + tail
    ensures Cleaner(l)(Rebuilt(body, b, c, tail)[again.from..again.to]) == x
    ensures Rebuilt(Rebuilt(body, b, c, tail), again, x, other) == Rebuilt(body, b, c, other)
  {
    AuthorShape(l, body, b);
    PostHeading(l, body, b);
    ScriptRefinds(l, body, b, c);
    RebuiltContinues(l, body, b, c, tail);
    var k;
    again, k := FoundAgain(Finder(l), Continuer(l, body, b.from, c), Cleaner(l), body, b, c, tail, other);
    x := c[k..];
    AuthorTextSuffix(l, c, k);
  }

  lemma RunOn(l: Layout, t: string, again: Bounds, x: string, second: string)
    requires again.from <= again.to <= |t| && IsAuthorText(l, x)
    requires Finder(l)(t) == Some(again) && Cleaner(l)(t[again.from..again.to]) == x
    ensures Ready(l, t)
    ensures Strip(l, second) != "" ==> UpdateBody(l, t, second) == Rebuilt(t, again, x, Tail(l, second))
  {
    UpdateRebuilds(l, t, again, x, second);
  }

  /** Last writer wins: a summary written by an earlier run leaves no trace, and the body stays
      in the state the next run needs. The second summary is not empty. */
  lemma LastWriterWins(l: Layout, body: string, first: string, second: string)
    requires IsLayout(l) && Ready(l, body) && Plain(l, first)
    ensures Ready(l, UpdateBody(l, body, first))
    ensures Strip(l, second) != "" ==>
              UpdateBody(l, UpdateBody(l, body, first), second) == UpdateBody(l, body, second)
  {
    var b := SummaryBounds(l, body).value;
    var c := Author(l, body, b);
    AuthorShape(l, body, b);
    TailFits(l, c, first);
    UpdateRebuilds(l, body, b, c, first);
    UpdateRebuilds(l, body, b, c, second);
    var again, x := RebuiltTwice(l, body, b, c, Tail(l, first), Tail(l, second));
    RunOn(l, Rebuilt(body, b, c, Tail(l, first)), again, x, second);
  }

  function UpdateAll(update: (string, string) -> string, body: string, summaries: seq<string>): string {
    if summaries == [] then body
    else update(UpdateAll(update, body, summaries[..|summaries| - 1]), summaries[|summaries| - 1])
  }

  lemma {:induction false} LastAbsorbs(update: (string, string) -> string, ready: string -> bool, plain: string -> bool,
                                       body: string, summaries: seq<string>, last: string)
    requires forall t, s | ready(t) && plain(s) :: ready(update(t, s)) && update(update(t, s), last) == update(t, last)
    requires ready(body) && forall i | 0 <= i < |summaries| :: plain(summaries[i])
    ensures ready(UpdateAll(update, body, summaries))
    ensures update(UpdateAll(update, body, summaries), last) == update(body, last)
  {
    if summaries != [] {
      LastAbsorbs(update, ready, plain, body, summaries[..|summaries| - 1], last);
    }
  }

  /** Over any number of runs the body is what the last summary alone makes of it. */
  lemma LastOfManyWins(l: Layout, body: string, summaries: seq<string>, last: string)
    requires IsLayout(l) && Ready(l, body) && Strip(l, last) != ""
    requires forall i | 0 <= i < |summaries| :: Plain(l, summaries[i])
    ensures UpdateBody(l, UpdateAll((t, s) => UpdateBody(l, t, s), body, summaries), last) == UpdateBody(l, body, last)
  {
    var update := (t, s) => UpdateBody(l, t, s);
    forall t, s | Ready(l, t) && Plain(l, s)
      ensures Ready(l, update(t, s)) && update(update(t, s), last) == update(t, last)
    {
      LastWriterWins(l, t, s, last);
    }
    LastAbsorbs(update, t => Ready(l, t), s => Plain(l, s), body, summaries, last);
  }

  // ----- one block -----

  lemma OpensDropped(l: Layout, s: string, i: nat)
    requires i <= |s| && BlockAt(l, s[i..]).Some?
    ensures OpensAt(l, s, i)
  {
    var t, n := s[i..], NewlineAt(s[i..], 0);
    assert NewlineAt(s, i) == n;
    assert NewlineAt(t, n + |l.start|) == NewlineAt(s, i + n + |l.start|);
    forall k | 0 <= k < |l.start|
      ensures s[i + n + k] == l.start[k]
    {
      assert t[n + k] == l.start[k];
    }
  }

  lemma OccursBehind(a: string, b: string, j: nat, w: string)
    requires j >= |a| && OccursAt(a + b, j, w)
    ensures OccursAt(b, j - |a|, w)
  {
    forall k | 0 <= k < |w|
      ensures b[j - |a| + k] == w[k]
    {
      assert (a + b)[j + k] == w[k];
    }
  }

  /** The section is author text x and the block text w: a block is matched behind x, with or without
      the newline in front of it, and nowhere else, and it is all of w but its last newline; and the
      start marker stands only there unless x itself mentions it. */
  ghost predicate IsTextAndBlock(l: Layout, section: string, x: string, w: string) {
    && section == (x + "\n") + w && section[|x| + 1..] == w && w != "" && BlockAt(l, w) == Some(|w| - 1)
    && (forall i: nat | i <= |section| && BlockAt(l, section[i..]).Some? :: |x| + 1 <= i <= |x| + 2)
    && (!Contains(x, l.start) ==> forall i: nat :: OccursAt(section, i, l.start) <==> i == |x| + 2)
  }

  lemma MarkerBehind(l: Layout, x: string, w: string, j: nat)
    requires l.start != "" && l.start[0] != '\n'
    requires forall i: nat :: OccursAt(w, i, l.start) <==> i == 1
    requires j >= |x| && OccursAt((x + "\n") + w, j, l.start)
    ensures j == |x| + 2
  {
    assert ((x + "\n") + w)[|x|] == '\n' && ((x + "\n") + w)[j + 0] == l.start[0];
    OccursBehind(x + "\n", w, j, l.start);
  }

  lemma MarkerPlace(l: Layout, x: string, w: string, i: nat)
    requires l.start != "" && '\n' !in l.start && !Contains(x, l.start)
    requires forall i: nat :: OccursAt(w, i, l.start) <==> i == 1
    ensures OccursAt((x + "\n") + w, i, l.start) <==> i == |x| + 2
  {
    var section := (x + "\n") + w;
    assert OccursAt(w, 1, l.start);
    forall k | 0 <= k < |l.start|
      ensures section[|x| + 2 + k] == l.start[k]
    {
      assert w[1 + k] == l.start[k];
    }
    if i <= |x| {
      NotWithin(section, 0, x, l.start, i);
    } else if OccursAt(section, i, l.start) {
      MarkerBehind(l, x, w, i);
    }
  }

  lemma BlocksBehind(l: Layout, x: string, w: string, i: nat)
    requires IsLayout(l) && !OpensBlock(l, x) && x != "" && !l.space(x[|x| - 1])
    requires w != "" && w[0] == '\n' && forall i: nat :: OccursAt(w, i, l.start) <==> i == 1
    requires i <= |(x + "\n") + w| && BlockAt(l, ((x + "\n") + w)[i..]).Some?
    ensures |x| + 1 <= i <= |x| + 2
  {
    OpensDropped(l, (x + "\n") + w, i);
    if i <= |x| {
      NoneOpens(l, x, w, i);
    } else {
      MarkerBehind(l, x, w, i + NewlineAt((x + "\n") + w, i));
    }
  }

  lemma TextAndBlock(l: Layout, x: string, w: string)
    requires IsLayout(l) && !OpensBlock(l, x) && x != "" && !l.space(x[|x| - 1])
    requires IsBlockText(l, w) && forall i: nat :: OccursAt(w, i, l.start) <==> i == 1
    ensures IsTextAndBlock(l, (x + "\n") + w, x, w)
  {
    var section := (x + "\n") + w;
    forall i: nat | i <= |section| && BlockAt(l, section[i..]).Some?
      ensures |x| + 1 <= i <= |x| + 2
    {
      BlocksBehind(l, x, w, i);
    }
    if !Contains(x, l.start) {
      forall i: nat
        ensures OccursAt(section, i, l.start) <==> i == |x| + 2
      {
        MarkerPlace(l, x, w, i);
      }
    }
  }

  lemma SectionAfterUpdate(l: Layout, body: string, generated: string) returns (again: Bounds, x: string)
    requires IsLayout(l) && Ready(l, body) && Plain(l, generated) && Strip(l, generated) != ""
    ensures SummaryBounds(l, UpdateBody(l, body, generated)) == Some(again)
    ensures IsAuthorText(l, x) && !l.space(x[|x| - 1])
    ensures UpdateBody(l, body, generated)[again.from..again.to] == (x + "\n") + Written(l, Strip(l, generated))
  {
    var b := SummaryBounds(l, body).value;
    var c := Author(l, body, b);
    AuthorShape(l, body, b);
    TailFits(l, c, generated);
    UpdateRebuilds(l, body, b, c, generated);
    again, x := RebuiltTwice(l, body, b, c, Tail(l, generated), "");
    CleanedLast(l, Rebuilt(body, b, c, Tail(l, generated))[again.from..again.to]);
    TailGrouped(l, x, generated);
  }

  lemma TailGrouped(l: Layout, x: string, generated: string)
    requires Strip(l, generated) != ""
    ensures x + Tail(l, generated) == (x + "\n") + Written(l, Strip(l, generated))
  {
    Regroup(x, "\n", Written(l, Strip(l, generated)));
  }

  lemma CleanedLast(l: Layout, section: string)
    ensures Cleaned(l, section) != "" ==> !l.space(Cleaned(l, section)[|Cleaned(l, section)| - 1])
  {}

  lemma AuthorAndBlock(l: Layout, x: string, generated: string)
    requires IsLayout(l) && |l.end| < |l.start| && IsAuthorText(l, x) && !l.space(x[|x| - 1]) && Plain(l, generated)
    requires Strip(l, generated) != "" && !Contains(Strip(l, generated), l.start)
    ensures IsTextAndBlock(l, (x + "\n") + Written(l, Strip(l, generated)), x, Written(l, Strip(l, generated)))
  {
    WrittenIsBlock(l, Strip(l, generated));
    WrittenMarkerOnce(l, Strip(l, generated));
    TextAndBlock(l, x, Written(l, Strip(l, generated)));
  }

  /** The section that the next run finds is author text and exactly one block, the one just
      written. */
  lemma OneBlockRemains(l: Layout, body: string, generated: string) returns (again: Bounds, x: string)
    requires IsLayout(l) && |l.end| < |l.start| && Ready(l, body) && Plain(l, generated)
    requires Strip(l, generated) != "" && !Contains(Strip(l, generated), l.start)
    ensures SummaryBounds(l, UpdateBody(l, body, generated)) == Some(again) && IsAuthorText(l, x)
    ensures IsTextAndBlock(l, UpdateBody(l, body, generated)[again.from..again.to], x, Written(l, Strip(l, generated)))
  {
    again, x := SectionAfterUpdate(l, body, generated);
    AuthorAndBlock(l, x, generated);
  }

  lemma Regroup(a: string, b: string, c: string)
    ensures a + (b + c) == a + b + c
  {}
}
