/** Serial runs of auto_close_duplicate_issues.py on one issue, interleaved request by
    request with arbitrary activity by others. Requests may fail, with or without having
    taken effect. */
module AutoCloseProtocol {
  import opened Wrappers
  import opened AutoCloseRules

  datatype Config = Config(closeAfter: nat, dryRun: bool)

  /** The issue on GitHub. */
  datatype Remote = Remote(open: bool, labelled: bool, author: Option<int>, comments: seq<Comment>,
                           reactions: map<int, seq<Reaction>>)

  /** Where the script is with this issue. */
  datatype Phase =
    | Idle
    | ListedIssue(listed: Listed)
    | ReadComments(listed: Listed, comments: seq<Comment>)
    | Acting(listed: Listed, comments: seq<Comment>, reactions: seq<Reaction>, plan: seq<Request>)

  datatype State = State(remote: Remote, now: int, cutoff: int, phase: Phase)

  function ReactionsOn(remote: Remote, comment: Comment): seq<Reaction> {
    if comment.id.Some? && comment.id.value in remote.reactions then remote.reactions[comment.id.value] else []
  }

  /** What a request does when it reaches GitHub. The comment the script posts has an
      arbitrary id, time and user. */
  predicate Applied(remote: Remote, request: Request, remote': Remote) {
    match request
    case RemoveLabel => remote' == remote.(labelled := false)
    case CloseIssue => remote' == remote.(open := false)
    case _ =>
      |remote'.comments| == |remote.comments| + 1
      && var posted := remote'.comments[|remote.comments|];
         posted.ours && posted.notice.None? && posted.vetoMarker == request.PostVeto?
         && remote' == remote.(comments := remote.comments + [posted])
  }

  /** Others may comment, react and un-react, relabel, close and reopen; comments stay. */
  predicate OthersStep(remote: Remote, remote': Remote) {
    && remote'.author == remote.author
    && remote.comments <= remote'.comments
    && forall i | |remote.comments| <= i < |remote'.comments| :: !remote'.comments[i].ours
  }

  datatype Event =
    | Others
    | List(start: int)
    | FetchComments
    | FetchReactions
    | Perform
    | Lose(applied: bool)
    | Finish

  predicate Next(config: Config, s: State, event: Event, s': State) {
    match event
    case Others =>
      && OthersStep(s.remote, s'.remote)
      && s'.now >= s.now && s'.cutoff == s.cutoff && s'.phase == s.phase
    case List(start) =>
      && s.phase.Idle? && start <= s.now
      && s'.phase.ListedIssue? && s'.phase.listed.author == s.remote.author
      && s' == s.(cutoff := start - config.closeAfter, phase := s'.phase)
    case FetchComments =>
      && s.phase.ListedIssue?
      && s' == s.(phase := if Eligible(s.remote.comments, s.cutoff)
                           then ReadComments(s.phase.listed, s.remote.comments) else Idle)
    case FetchReactions =>
      && s.phase.ReadComments? && Eligible(s.phase.comments, s.cutoff)
      && var reactions := ReactionsOn(s.remote, NoticeOf(s.phase.comments));
         var plan := if config.dryRun then [] else Plan(s.phase.listed, s.phase.comments, reactions, s.cutoff);
         s' == s.(phase := Acting(s.phase.listed, s.phase.comments, reactions, plan))
    case Perform =>
      && s.phase.Acting? && s.phase.plan != []
      && Applied(s.remote, s.phase.plan[0], s'.remote)
      && s' == s.(remote := s'.remote, phase := s.phase.(plan := s.phase.plan[1..]))
    case Lose(applied) =>
      && !s.phase.Idle?
      && (if applied then s.phase.Acting? && s.phase.plan != [] && Applied(s.remote, s.phase.plan[0], s'.remote)
          else s'.remote == s.remote)
      && s' == s.(remote := s'.remote, phase := Idle)
    case Finish =>
      && s.phase.Acting? && s.phase.plan == []
      && s' == s.(phase := Idle)
  }

  predicate Init(s: State) {
    s.phase.Idle? && forall i | 0 <= i < |s.remote.comments| :: !s.remote.comments[i].ours
  }

  /** A run of any length: `events[i]` leads from `trace[i]` to `trace[i + 1]`. */
  predicate Run(config: Config, trace: seq<State>, events: seq<Event>) {
    && |trace| == |events| + 1 && Init(trace[0])
    && forall i | 0 <= i < |events| :: Next(config, trace[i], events[i], trace[i + 1])
  }

  // ----- what every step keeps -----

  /** The veto notes this script has posted on the issue. */
  function VetoNotes(comments: seq<Comment>): nat {
    if comments == [] then 0
    else VetoNotes(comments[..|comments| - 1]) +
         if comments[|comments| - 1].ours && comments[|comments| - 1].vetoMarker then 1 else 0
  }

  predicate HasClosingComment(comments: seq<Comment>) {
    exists i | 0 <= i < |comments| :: comments[i].ours && !comments[i].vetoMarker
  }

  /** What remains to be requested, at any point of any plan. */
  predicate KnownPlan(plan: seq<Request>) {
    plan in {[], [RemoveLabel], [RemoveLabel, PostVeto], [PostVeto], [CloseIssue, RemoveLabel]} ||
    (|plan| == 3 && plan == [plan[0], CloseIssue, RemoveLabel] && plan[0].PostClosing?)
  }

  lemma PlanShape(listed: Listed, comments: seq<Comment>, reactions: seq<Reaction>, cutoff: int)
    requires Eligible(comments, cutoff)
    ensures var plan := Plan(listed, comments, reactions, cutoff);
            && KnownPlan(plan) && plan != [CloseIssue, RemoveLabel]
            && (PostVeto in plan ==> !HasVetoNote(comments))
            && (CloseIssue in plan ==> !HasReaction(reactions, listed.author, "-1")
                                       && !HasNewer(comments, NoticeOf(comments).createdAt.time))
  {
    assert [RemoveLabel] + [PostVeto] == [RemoveLabel, PostVeto] && [] + [PostVeto] == [PostVeto];
    assert [RemoveLabel] + [] == [RemoveLabel];
  }

  lemma PlanTail(plan: seq<Request>)
    requires KnownPlan(plan) && plan != []
    ensures KnownPlan(plan[1..]) && (PostVeto in plan[1..] ==> plan == [RemoveLabel, PostVeto])
    ensures plan[1..] == [CloseIssue, RemoveLabel] ==> plan[0].PostClosing?
  {
    assert |plan| == 1 ==> plan[1..] == [];
    assert plan == [RemoveLabel, PostVeto] ==> plan[1..] == [PostVeto];
    assert plan == [CloseIssue, RemoveLabel] ==> plan[1..] == [RemoveLabel];
    assert |plan| == 3 ==> plan[1..] == [CloseIssue, RemoveLabel];
  }

  ghost predicate PlanFits(s: State)
    requires s.phase.Acting?
  {
    var plan := s.phase.plan;
    && KnownPlan(plan)
    && (PostVeto in plan ==> VetoNotes(s.remote.comments) == 0)
    && (plan == [CloseIssue, RemoveLabel] ==> HasClosingComment(s.remote.comments))
  }

  ghost predicate Inv(config: Config, s: State) {
    && VetoNotes(s.remote.comments) <= 1
    && (!s.phase.Idle? ==> s.cutoff <= s.now - config.closeAfter && s.phase.listed.author == s.remote.author)
    && (s.phase.ReadComments? || s.phase.Acting? ==>
          s.phase.comments <= s.remote.comments && Eligible(s.phase.comments, s.cutoff))
    && (s.phase.ReadComments? ==> VetoNotes(s.phase.comments) == VetoNotes(s.remote.comments))
    && (s.phase.Acting? ==> PlanFits(s) && (config.dryRun ==> s.phase.plan == []))
  }

  lemma {:induction false} OthersAddNoVeto(before: seq<Comment>, after: seq<Comment>)
    requires before <= after
    requires forall i | |before| <= i < |after| :: !after[i].ours
    ensures VetoNotes(after) == VetoNotes(before)
    ensures HasClosingComment(before) ==> HasClosingComment(after)
    decreases |after|
  {
    if |before| < |after| {
      OthersAddNoVeto(before, after[..|after| - 1]);
    } else {
      assert before == after;
    }
  }

  lemma VetoNotesSnoc(comments: seq<Comment>, posted: Comment)
    ensures VetoNotes(comments + [posted]) == VetoNotes(comments) + if posted.ours && posted.vetoMarker then 1 else 0
    ensures HasClosingComment(comments) ==> HasClosingComment(comments + [posted])
    ensures posted.ours && !posted.vetoMarker ==> HasClosingComment(comments + [posted])
  {
    var longer := comments + [posted];
    assert longer[..|longer| - 1] == comments && longer[|comments|] == posted;
    if i :| 0 <= i < |comments| && comments[i].ours && !comments[i].vetoMarker {
      assert longer[i] == comments[i];
    }
  }

  lemma {:induction false} NoMarkerNoVeto(comments: seq<Comment>)
    requires !HasVetoNote(comments)
    ensures VetoNotes(comments) == 0
  {
    if comments != [] {
      var last := |comments| - 1;
      assert !comments[last].vetoMarker;
      forall i | 0 <= i < last
        ensures !comments[..last][i].vetoMarker
      {
        assert comments[..last][i] == comments[i];
      }
      NoMarkerNoVeto(comments[..last]);
    }
  }

  lemma {:induction false} NoneOursNoVeto(comments: seq<Comment>)
    requires forall i | 0 <= i < |comments| :: !comments[i].ours
    ensures VetoNotes(comments) == 0
  {
    OthersAddNoVeto([], comments);
  }

  lemma AppliedKeeps(config: Config, s: State, remote': Remote)
    requires Inv(config, s) && s.phase.Acting? && s.phase.plan != []
    requires Applied(s.remote, s.phase.plan[0], remote')
    ensures Inv(config, s.(remote := remote', phase := s.phase.(plan := s.phase.plan[1..])))
    ensures Inv(config, s.(remote := remote', phase := Idle))
  {
    var plan := s.phase.plan;
    if plan[0].PostVeto? || plan[0].PostClosing? {
      VetoNotesSnoc(s.remote.comments, remote'.comments[|s.remote.comments|]);
    }
    PlanTail(plan);
  }

  lemma StepKeeps(config: Config, s: State, event: Event, s': State)
    requires Inv(config, s) && Next(config, s, event, s')
    ensures Inv(config, s')
  {
    match event
    case Others => OthersAddNoVeto(s.remote.comments, s'.remote.comments);
    case FetchReactions =>
      if !HasVetoNote(s.phase.comments) {
        NoMarkerNoVeto(s.phase.comments);
      }
      PlanShape(s.phase.listed, s.phase.comments, s'.phase.reactions, s.cutoff);
    case Perform => AppliedKeeps(config, s, s'.remote);
    case Lose(applied) =>
      if applied {
        AppliedKeeps(config, s, s'.remote);
      }
    case _ =>
  }

  lemma {:induction false} InvHolds(config: Config, trace: seq<State>, events: seq<Event>, k: nat)
    requires Run(config, trace, events) && k < |trace|
    ensures Inv(config, trace[k])
  {
    if k == 0 {
      NoneOursNoVeto(trace[0].remote.comments);
    } else {
      InvHolds(config, trace, events, k - 1);
      assert Next(config, trace[k - 1], events[k - 1], trace[k]);
      StepKeeps(config, trace[k - 1], events[k - 1], trace[k]);
    }
  }

  /** Over every run, at most one veto note is ever posted on an issue. */
  lemma AtMostOneVetoNote(config: Config, trace: seq<State>, events: seq<Event>, k: nat)
    requires Run(config, trace, events) && k < |trace|
    ensures VetoNotes(trace[k].remote.comments) <= 1
  {
    InvHolds(config, trace, events, k);
  }

  /** A dry run leaves GitHub alone: only others change the issue. */
  lemma DryRunChangesNothing(config: Config, trace: seq<State>, events: seq<Event>, k: nat)
    requires Run(config, trace, events) && k < |events| && config.dryRun && !events[k].Others?
    ensures trace[k + 1].remote == trace[k].remote
  {
    InvHolds(config, trace, events, k);
    assert Next(config, trace[k], events[k], trace[k + 1]);
  }

  // ----- why an issue is closed -----

  /** What the script holds at step k was read earlier, in this order, from the issue itself. */
  ghost predicate Grounded(config: Config, trace: seq<State>, k: nat)
    requires k < |trace|
  {
    var s := trace[k];
    match s.phase
    case ReadComments(_, comments) => exists i | 0 <= i < k :: trace[i].remote.comments == comments
    case Acting(listed, comments, reactions, plan) =>
      Eligible(comments, s.cutoff) &&
      (exists i, j | 0 <= i < j < k ::
         trace[i].remote.comments == comments
         && ReactionsOn(trace[j].remote, NoticeOf(comments)) == reactions) &&
      (CloseIssue in plan ==>
         !HasReaction(reactions, listed.author, "-1") && !HasNewer(comments, NoticeOf(comments).createdAt.time))
    case _ => true
  }

  lemma {:induction false} GroundedHolds(config: Config, trace: seq<State>, events: seq<Event>, k: nat)
    requires Run(config, trace, events) && k < |trace|
    ensures Grounded(config, trace, k)
  {
    if k > 0 {
      GroundedHolds(config, trace, events, k - 1);
      var s, s' := trace[k - 1], trace[k];
      assert Next(config, s, events[k - 1], s');
      match events[k - 1]
      case FetchComments => assert s'.phase.ReadComments? ==> trace[k - 1].remote.comments == s'.phase.comments;
      case FetchReactions =>
        var comments := s.phase.comments;
        var i :| 0 <= i < k - 1 && trace[i].remote.comments == comments;
        assert ReactionsOn(trace[k - 1].remote, NoticeOf(comments)) == s'.phase.reactions;
        PlanShape(s.phase.listed, comments, s'.phase.reactions, s.cutoff);
      case Others => GroundedStays(config, trace, k);
      case Perform => GroundedStays(config, trace, k);
      case _ =>
    }
  }

  lemma GroundedStays(config: Config, trace: seq<State>, k: nat)
    requires 0 < k < |trace| && Grounded(config, trace, k - 1)
    requires trace[k].cutoff == trace[k - 1].cutoff
    requires trace[k].phase == trace[k - 1].phase ||
             (trace[k - 1].phase.Acting? && trace[k - 1].phase.plan != [] &&
              trace[k].phase == trace[k - 1].phase.(plan := trace[k - 1].phase.plan[1..]))
    ensures Grounded(config, trace, k)
  {
    if trace[k].phase.ReadComments? {
      var i :| 0 <= i < k - 1 && trace[i].remote.comments == trace[k].phase.comments;
      assert i < k;
    } else if trace[k].phase.Acting? {
      var comments, reactions := trace[k].phase.comments, trace[k].phase.reactions;
      var i, j :| 0 <= i < j < k - 1 && trace[i].remote.comments == comments
                  && ReactionsOn(trace[j].remote, NoticeOf(comments)) == reactions;
      assert j < k;
    }
  }

  /** The request to close is being carried out at step k. */
  predicate Closes(trace: seq<State>, events: seq<Event>, k: nat)
    requires |trace| == |events| + 1 && k < |events|
  {
    (events[k].Perform? || events[k] == Lose(true))
    && trace[k].phase.Acting? && trace[k].phase.plan != [] && trace[k].phase.plan[0] == CloseIssue
  }

  /** The reads behind a closing: the comments as they were at step i and the reactions on
      the chosen notice as they were at a later step j. */
  predicate JustifiedBy(config: Config, trace: seq<State>, i: nat, j: nat, k: nat)
    requires i < j < k < |trace|
  {
    var comments, author := trace[i].remote.comments, trace[k].remote.author;
    && Chosen(comments).Some? && IsLatestNotice(comments, Chosen(comments).value)
    && NoticeOf(comments).createdAt.time + config.closeAfter <= trace[k].now
    && !HasReaction(ReactionsOn(trace[j].remote, NoticeOf(comments)), author, "-1")
    && !HasNewer(comments, NoticeOf(comments).createdAt.time)
    && comments <= trace[k].remote.comments
  }

  /** Over every run, the script closes an issue only if what it read said so: the notice it
      settled on is a latest one and old enough, the issue's author had not thumbed it down,
      and no human comment later than the notice was there when the comments were read. Any such comment was
      made after that read. The closing comment is already posted. */
  lemma CloseIsJustified(config: Config, trace: seq<State>, events: seq<Event>, k: nat) returns (i: nat, j: nat)
    requires Run(config, trace, events) && k < |events| && Closes(trace, events, k)
    ensures i < j < k && JustifiedBy(config, trace, i, j, k)
    ensures forall c | 0 <= c < |trace[k].remote.comments| &&
                       IsNewer(trace[k].remote.comments[c], NoticeOf(trace[i].remote.comments).createdAt.time) ::
              c >= |trace[i].remote.comments|
    ensures HasClosingComment(trace[k].remote.comments)
  {
    InvHolds(config, trace, events, k);
    GroundedHolds(config, trace, events, k);
    var s := trace[k];
    var comments, reactions := s.phase.comments, s.phase.reactions;
    i, j :| 0 <= i < j < k && trace[i].remote.comments == comments
            && ReactionsOn(trace[j].remote, NoticeOf(comments)) == reactions;
    assert CloseIssue in s.phase.plan;
    assert TimedCandidate(NoticeOf(comments));
    ChosenState(comments);
  }

  /** The script never closes an issue by any other step. */
  lemma OnlyCloseIssueCloses(config: Config, trace: seq<State>, events: seq<Event>, k: nat)
    requires Run(config, trace, events) && k < |events| && !events[k].Others?
    requires trace[k].remote.open && !trace[k + 1].remote.open
    ensures Closes(trace, events, k)
  {
    assert Next(config, trace[k], events[k], trace[k + 1]);
  }
}
