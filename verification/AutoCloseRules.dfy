/** The decisions of auto_close_duplicate_issues.py on one issue: which notice counts,
    which later comments count, and what is then requested of GitHub. */
module AutoCloseRules {
  import opened Wrappers
  import Text

  /** A `created_at` value: missing, not a timestamp, or a moment. */
  datatype Stamp = Absent | Bad | Moment(time: int)

  /** The duplicate-check marker found in a comment body. */
  datatype Notice = Notice(canonical: nat, autoClose: bool)

  datatype User = User(id: Option<int>, login: Option<string>, kind: string)

  /** `vetoMarker` says the body contains the veto marker; `ours` that this script posted it. */
  datatype Comment = Comment(id: Option<int>, createdAt: Stamp, notice: Option<Notice>, vetoMarker: bool,
                             user: Option<User>, ours: bool)

  datatype Reaction = Reaction(user: Option<User>, content: string)

  function UserId(user: Option<User>): Option<int> {
    if user.Some? then user.value.id else None
  }

  const AUTOMATION_LOGINS: set<string> := {"all-hands-bot"}

  /** `is_non_bot_comment`. */
  predicate IsHuman(comment: Comment) {
    UserId(comment.user).Some? && comment.user.value.login.Some? &&
    var login := Text.Lower(comment.user.value.login.value);
    comment.user.value.kind != "Bot" && !("[bot]" <= login[if |login| < 5 then 0 else |login| - 5..])
    && login !in AUTOMATION_LOGINS
  }

  predicate HasReaction(reactions: seq<Reaction>, user: Option<int>, content: string) {
    user.Some? &&
    exists i | 0 <= i < |reactions| :: UserId(reactions[i].user) == user && reactions[i].content == content
  }

  predicate HasVetoNote(comments: seq<Comment>) {
    exists i | 0 <= i < |comments| :: comments[i].vetoMarker
  }

  // ----- the notice that counts -----

  predicate IsCandidate(comment: Comment) {
    comment.notice.Some? && comment.notice.value.autoClose
  }

  /** Whether a candidate replaces the one found so far. */
  predicate Replaces(found: Comment, comment: Comment) {
    !comment.createdAt.Absent? &&
    (found.createdAt.Absent? ||
     (found.createdAt.Moment? && comment.createdAt.Moment? && comment.createdAt.time >= found.createdAt.time))
  }

  /** The position of the comment `find_latest_auto_close_comment` settles on. */
  function Chosen(comments: seq<Comment>): (k: Option<nat>)
    ensures k.Some? ==> k.value < |comments| && IsCandidate(comments[k.value])
  {
    if comments == [] then None
    else
      var last := |comments| - 1;
      var k := Chosen(comments[..last]);
      if !IsCandidate(comments[last]) then k
      else if k.None? || Replaces(comments[k.value], comments[last]) then Some(last)
      else k
  }

  /** `find_latest_auto_close_comment`, with its three loop variables. */
  method FindLatestAutoCloseComment(comments: seq<Comment>) returns (latest: Option<Comment>, canonical: Option<nat>)
    ensures latest == (if Chosen(comments).Some? then Some(comments[Chosen(comments).value]) else None)
    ensures canonical == (if latest.Some? then Some(latest.value.notice.value.canonical) else None)
  {
    latest, canonical := None, None;
    var latestCreatedAt := Absent;
    for i := 0 to |comments|
      invariant latest == (if Chosen(comments[..i]).Some? then Some(comments[Chosen(comments[..i]).value]) else None)
      invariant latest.Some? ==> IsCandidate(latest.value) && latestCreatedAt == latest.value.createdAt
      invariant canonical == (if latest.Some? then Some(latest.value.notice.value.canonical) else None)
    {
      var comment := comments[i];
      assert comments[..i + 1][..i] == comments[..i];
      if !IsCandidate(comment) {
        continue;
      }
      if latest.Some? {
        if comment.createdAt.Absent? {
          continue;
        }
        if !latestCreatedAt.Absent? {
          if comment.createdAt.Bad? || latestCreatedAt.Bad? || comment.createdAt.time < latestCreatedAt.time {
            continue;
          }
        }
      }
      latest, canonical, latestCreatedAt := Some(comment), Some(comment.notice.value.canonical), comment.createdAt;
    }
    assert comments[..|comments|] == comments;
  }

  predicate TimedCandidate(comment: Comment) { IsCandidate(comment) && comment.createdAt.Moment? }

  /** Position k holds a latest notice; among equally late ones, the last listed. */
  predicate IsLatestNotice(comments: seq<Comment>, k: nat) {
    k < |comments| && TimedCandidate(comments[k]) &&
    forall i | 0 <= i < |comments| && TimedCandidate(comments[i]) ::
      comments[i].createdAt.time <= comments[k].createdAt.time &&
      (i > k ==> comments[i].createdAt.time < comments[k].createdAt.time)
  }

  /** The first candidate that has a timestamp at all has a well-formed one. */
  predicate FirstStampParses(comments: seq<Comment>) {
    if comments == [] then true
    else if IsCandidate(comments[0]) && !comments[0].createdAt.Absent? then comments[0].createdAt.Moment?
    else FirstStampParses(comments[1..])
  }

  predicate AnyTimed(comments: seq<Comment>) {
    exists i | 0 <= i < |comments| :: TimedCandidate(comments[i])
  }

  predicate AnyStamped(comments: seq<Comment>) {
    exists i | 0 <= i < |comments| :: IsCandidate(comments[i]) && !comments[i].createdAt.Absent?
  }

  lemma {:induction false} FirstStampPrefix(comments: seq<Comment>, comment: Comment)
    ensures AnyStamped(comments) ==> FirstStampParses(comments + [comment]) == FirstStampParses(comments)
    ensures !AnyStamped(comments) ==> FirstStampParses(comments)
    ensures !AnyStamped(comments) ==>
              FirstStampParses(comments + [comment]) == !(IsCandidate(comment) && comment.createdAt.Bad?)
  {
    if comments == [] {
      assert [] + [comment] == [comment] && [comment][1..] == [];
    } else {
      assert (comments + [comment])[1..] == comments[1..] + [comment];
      FirstStampPrefix(comments[1..], comment);
      assert AnyStamped(comments[1..]) ==> AnyStamped(comments) by {
        if i :| 0 <= i < |comments[1..]| && IsCandidate(comments[1..][i]) && !comments[1..][i].createdAt.Absent? {
          assert comments[i + 1] == comments[1..][i];
        }
      }
      if i :| 0 <= i < |comments| && IsCandidate(comments[i]) && !comments[i].createdAt.Absent? && i > 0 {
        assert comments[1..][i - 1] == comments[i];
      }
    }
  }

  predicate Settled(comments: seq<Comment>, k: Option<nat>)
    requires k.Some? ==> k.value < |comments|
  {
    if AnyStamped(comments) then
      k.Some? && if FirstStampParses(comments) then IsLatestNotice(comments, k.value)
                 else comments[k.value].createdAt.Bad?
    else k.Some? ==> comments[k.value].createdAt.Absent?
  }

  lemma AnyStampedSnoc(comments: seq<Comment>, comment: Comment)
    ensures AnyStamped(comments + [comment]) <==>
            AnyStamped(comments) || (IsCandidate(comment) && !comment.createdAt.Absent?)
  {
    var longer := comments + [comment];
    if i :| 0 <= i < |comments| && IsCandidate(comments[i]) && !comments[i].createdAt.Absent? {
      assert longer[i] == comments[i];
    }
    assert longer[|comments|] == comment;
  }

  lemma IsLatestNoticeSnoc(comments: seq<Comment>, comment: Comment, k: nat)
    requires IsLatestNotice(comments, k)
    requires TimedCandidate(comment) ==> comment.createdAt.time < comments[k].createdAt.time
    ensures IsLatestNotice(comments + [comment], k)
  {}

  /** What the scan has settled on: a latest notice while the first stamp parses, and
      otherwise a comment that no later one can replace. */
  lemma {:induction false} ChosenState(comments: seq<Comment>)
    ensures Settled(comments, Chosen(comments))
  {
    if comments != [] {
      var last := |comments| - 1;
      var rest, comment := comments[..last], comments[last];
      assert comments == rest + [comment];
      ChosenState(rest);
      FirstStampPrefix(rest, comment);
      AnyStampedSnoc(rest, comment);
      var k := Chosen(rest);
      if Chosen(comments) == k {
        if AnyStamped(rest) && FirstStampParses(rest) {
          IsLatestNoticeSnoc(rest, comment, k.value);
        }
      } else if TimedCandidate(comment) {
        NewLatest(rest, comment);
      }
    }
  }

  lemma NewLatest(rest: seq<Comment>, comment: Comment)
    requires Settled(rest, Chosen(rest)) && TimedCandidate(comment)
    requires Chosen(rest).Some? ==> Replaces(rest[Chosen(rest).value], comment)
    ensures IsLatestNotice(rest + [comment], |rest|)
  {
    forall i | 0 <= i < |rest| && TimedCandidate(rest[i])
      ensures rest[i].createdAt.time <= comment.createdAt.time
    {
      assert AnyStamped(rest);
    }
  }

  /** When some candidate's timestamp parses, the notice used is a latest one, ties going
      to the later-listed comment, if and only if the first stamped candidate parses. A
      malformed first stamp blocks the scan for good. */
  lemma LatestNoticeUsed(comments: seq<Comment>)
    requires AnyTimed(comments)
    ensures Chosen(comments).Some?
    ensures IsLatestNotice(comments, Chosen(comments).value) <==> FirstStampParses(comments)
  {
    var i :| 0 <= i < |comments| && TimedCandidate(comments[i]);
    assert AnyStamped(comments);
    ChosenState(comments);
  }

  /** Such a list: after a candidate with a malformed stamp no timed one is ever chosen, so the
      notice used is not a latest one whatever follows. */
  lemma BadStampBlocks(bad: Comment, rest: seq<Comment>)
    requires IsCandidate(bad) && bad.createdAt.Bad? && AnyTimed(rest)
    ensures var comments := [bad] + rest;
            Chosen(comments).Some? && comments[Chosen(comments).value].createdAt.Bad?
            && !IsLatestNotice(comments, Chosen(comments).value)
  {
    var comments := [bad] + rest;
    var i :| 0 <= i < |rest| && TimedCandidate(rest[i]);
    assert comments[i + 1] == rest[i];
    LatestNoticeUsed(comments);
    ChosenState(comments);
  }

  // ----- later human comments -----

  predicate IsNewer(comment: Comment, noticeTime: int) {
    comment.createdAt.Moment? && IsHuman(comment) && comment.createdAt.time > noticeTime
  }

  /** The `newer_comments` loop. */
  method NewerComments(comments: seq<Comment>, noticeTime: int) returns (newer: seq<Comment>)
    ensures forall c :: c in newer <==> c in comments && IsNewer(c, noticeTime)
  {
    newer := [];
    for i := 0 to |comments|
      invariant forall c :: c in newer <==> c in comments[..i] && IsNewer(c, noticeTime)
    {
      var comment := comments[i];
      if comment.createdAt.Moment? && IsHuman(comment) && comment.createdAt.time > noticeTime {
        newer := newer + [comment];
      }
    }
    assert comments[..|comments|] == comments;
  }

  predicate HasNewer(comments: seq<Comment>, noticeTime: int) {
    exists i | 0 <= i < |comments| :: IsNewer(comments[i], noticeTime)
  }

  // ----- the requests -----

  datatype Request = RemoveLabel | PostVeto | PostClosing(canonical: nat) | CloseIssue

  /** The issue as the listing returned it, which may be stale by the time it is handled. */
  datatype Listed = Listed(author: Option<int>, labelled: bool)

  /** The comments allow a decision: a chosen notice with an id and a parsed timestamp that
      is not after the cutoff. */
  predicate Eligible(comments: seq<Comment>, cutoff: int) {
    var k := Chosen(comments);
    k.Some? && comments[k.value].id.Some? && comments[k.value].createdAt.Moment?
    && comments[k.value].createdAt.time <= cutoff
  }

  function NoticeOf(comments: seq<Comment>): Comment
    requires Chosen(comments).Some?
  {
    comments[Chosen(comments).value]
  }

  /** The requests of one issue's step of `main`, in order. */
  function Plan(listed: Listed, comments: seq<Comment>, reactions: seq<Reaction>, cutoff: int): seq<Request>
    requires Eligible(comments, cutoff)
  {
    var unlabel := if listed.labelled then [RemoveLabel] else [];
    if HasReaction(reactions, listed.author, "-1") then
      unlabel + (if HasVetoNote(comments) then [] else [PostVeto])
    else if HasNewer(comments, NoticeOf(comments).createdAt.time) then unlabel
    else [PostClosing(NoticeOf(comments).notice.value.canonical), CloseIssue, RemoveLabel]
  }

  // ----- what the decisions come to -----

  /** Who counts as human: a known account that is no Bot, whose login is not the automation
      account's and, in lower case, does not end in `[bot]`. */
  lemma HumanMeans(c: Comment)
    ensures IsHuman(c) <==>
            && c.user.Some? && c.user.value.id.Some? && c.user.value.login.Some? && c.user.value.kind != "Bot"
            && Text.Lower(c.user.value.login.value) != "all-hands-bot"
            && !exists front :: Text.Lower(c.user.value.login.value) == front + "[bot]"
  {
    if c.user.Some? && c.user.value.login.Some? {
      var login := Text.Lower(c.user.value.login.value);
      if |login| >= 5 && login[|login| - 5..] == "[bot]" {
        assert login == login[..|login| - 5] + "[bot]";
      }
      if front :| login == front + "[bot]" {
        assert login[|login| - 5..] == "[bot]";
      }
    }
  }

  lemma OneLatestNotice(comments: seq<Comment>, j: nat, k: nat)
    requires IsLatestNotice(comments, j) && IsLatestNotice(comments, k)
    ensures j == k
  {}

  /** The notice the script acts on: the latest one, if it has an id and is not after the cutoff, and
      no malformed timestamp stands in front of the first well-formed one. */
  lemma EligibleMeans(comments: seq<Comment>, cutoff: int, k: nat)
    ensures Eligible(comments, cutoff) && Chosen(comments) == Some(k) <==>
            && FirstStampParses(comments) && IsLatestNotice(comments, k)
            && comments[k].id.Some? && comments[k].createdAt.time <= cutoff
  {
    ChosenState(comments);
    if IsLatestNotice(comments, k) {
      assert AnyTimed(comments);
      LatestNoticeUsed(comments);
      if FirstStampParses(comments) {
        OneLatestNotice(comments, k, Chosen(comments).value);
      }
    }
  }

  /** What is requested, case by case: a veto note for a thumbs-down that has none, the closing
      comment and the closing exactly when nothing speaks against them, and the label's removal
      whenever the issue had it or is closed. */
  lemma PlanExact(listed: Listed, comments: seq<Comment>, reactions: seq<Reaction>, cutoff: int)
    requires Eligible(comments, cutoff)
    ensures var plan := Plan(listed, comments, reactions, cutoff);
            var down := HasReaction(reactions, listed.author, "-1");
            var newer := HasNewer(comments, NoticeOf(comments).createdAt.time);
            && (CloseIssue in plan <==> !down && !newer)
            && (PostVeto in plan <==> down && !HasVetoNote(comments))
            && (RemoveLabel in plan <==> listed.labelled || (!down && !newer))
            && (forall n :: PostClosing(n) in plan <==>
                            !down && !newer && n == NoticeOf(comments).notice.value.canonical)
            && (CloseIssue in plan ==> plan[0].PostClosing? && plan[1] == CloseIssue)
            && |plan| <= 3
  {}
}
