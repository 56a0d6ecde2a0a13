/** What the auto-close bot achieves: over a run in which no request fails it carries out all it
    planned, so a duplicate nobody objects to is closed and a veto is recorded. */
module AutoCloseOutcome {
  import opened Wrappers
  import opened AutoCloseRules
  import opened AutoCloseProtocol
  import Text

  /** The bot takes up the issue at step a and is done with it at step z, without a failure. */
  predicate Session(config: Config, trace: seq<State>, events: seq<Event>, a: nat, z: nat) {
    && Run(config, trace, events) && a < z < |events| && events[a].List? && events[z].Finish?
    && forall k | a < k < z :: !events[k].Lose? && !events[k].List? && !events[k].Finish?
  }

  // ----- everything planned is done -----

  predicate Performs(trace: seq<State>, events: seq<Event>, k: nat, request: Request)
    requires |trace| == |events| + 1
  {
    && k < |events| && events[k].Perform? && trace[k].phase.Acting? && trace[k].phase.plan != []
    && trace[k].phase.plan[0] == request
  }

  /** The requests carried out from step i up to step j, in order. */
  function Performed(trace: seq<State>, events: seq<Event>, i: nat, j: nat): seq<Request>
    requires |trace| == |events| + 1 && j <= |events|
    decreases j
  {
    if j <= i then []
    else
      var s := trace[j - 1];
      Performed(trace, events, i, j - 1) +
      if events[j - 1].Perform? && s.phase.Acting? && s.phase.plan != [] then [s.phase.plan[0]] else []
  }

  /** The reads behind a plan: the comments at step f, the reactions at step r. */
  predicate Read(trace: seq<State>, events: seq<Event>, a: nat, f: nat, r: nat)
    requires |trace| == |events| + 1
  {
    && a < f < r < |events| && events[f].FetchComments? && events[r].FetchReactions?
    && Eligible(trace[f].remote.comments, trace[f].cutoff)
  }

  function ReactionsRead(trace: seq<State>, f: nat, r: nat): seq<Reaction>
    requires f < |trace| && r < |trace| && Chosen(trace[f].remote.comments).Some?
  {
    ReactionsOn(trace[r].remote, NoticeOf(trace[f].remote.comments))
  }

  /** The plan made from them, with the issue as it was listed. */
  function PlanMade(trace: seq<State>, events: seq<Event>, a: nat, f: nat, r: nat, listed: Listed): seq<Request>
    requires |trace| == |events| + 1 && Read(trace, events, a, f, r)
  {
    Plan(listed, trace[f].remote.comments, ReactionsRead(trace, f, r), trace[f].cutoff)
  }

  /** Where the session stands at step j: the reads so far, and what is done and still to be done. */
  ghost predicate SoFar(trace: seq<State>, events: seq<Event>, a: nat, j: nat)
    requires |trace| == |events| + 1 && a < j < |trace|
  {
    match trace[j].phase
    case Idle => true
    case ListedIssue(listed) => trace[j].cutoff == trace[a + 1].cutoff
    case ReadComments(listed, comments) =>
      exists f | a < f < j ::
        ReadAt(trace, events, f, comments) && trace[j].cutoff == trace[f].cutoff == trace[a + 1].cutoff
    case Acting(listed, comments, reactions, plan) =>
      exists f: nat, r: nat | f < r < j :: Carried(trace, events, a, f, r, j)
  }

  predicate ReadAt(trace: seq<State>, events: seq<Event>, f: nat, comments: seq<Comment>)
    requires |trace| == |events| + 1
  {
    f < |events| && events[f].FetchComments? && trace[f].remote.comments == comments
  }

  /** What is done and what is left make up the plan. */
  predicate Carried(trace: seq<State>, events: seq<Event>, a: nat, f: nat, r: nat, j: nat)
    requires |trace| == |events| + 1 && a < j < |trace|
  {
    && trace[j].phase.Acting? && Read(trace, events, a, f, r) && r < j
    && trace[f].cutoff == trace[a + 1].cutoff
    && PlanMade(trace, events, a, f, r, trace[j].phase.listed)
         == Performed(trace, events, r + 1, j) + trace[j].phase.plan
  }

  lemma CommentsReadNext(trace: seq<State>, events: seq<Event>, a: nat, j: nat)
    requires |trace| == |events| + 1 && a < j < |events| && trace[j].phase.ListedIssue?
    requires events[j].FetchComments? && trace[j + 1].cutoff == trace[j].cutoff == trace[a + 1].cutoff
    requires trace[j + 1].phase.Idle? ||
             trace[j + 1].phase == ReadComments(trace[j].phase.listed, trace[j].remote.comments)
    ensures SoFar(trace, events, a, j + 1)
  {
    assert ReadAt(trace, events, j, trace[j].remote.comments);
  }

  lemma ReactionsReadNext(config: Config, trace: seq<State>, events: seq<Event>, a: nat, j: nat)
    requires |trace| == |events| + 1 && a < j < |events| && SoFar(trace, events, a, j) && !config.dryRun
    requires Next(config, trace[j], events[j], trace[j + 1]) && events[j].FetchReactions?
    ensures SoFar(trace, events, a, j + 1)
  {
    var comments := trace[j].phase.comments;
    var f :| a < f < j && ReadAt(trace, events, f, comments)
             && trace[j].cutoff == trace[f].cutoff == trace[a + 1].cutoff;
    PlanBegins(trace, events, a, f, j);
  }

  lemma PlanBegins(trace: seq<State>, events: seq<Event>, a: nat, f: nat, r: nat)
    requires |trace| == |events| + 1 && Read(trace, events, a, f, r) && trace[f].cutoff == trace[a + 1].cutoff
    requires trace[r + 1].phase.Acting?
    requires trace[r + 1].phase.plan == PlanMade(trace, events, a, f, r, trace[r + 1].phase.listed)
    ensures Carried(trace, events, a, f, r, r + 1)
  {
    assert [] + trace[r + 1].phase.plan == trace[r + 1].phase.plan;
  }

  lemma PlanGoesOn(trace: seq<State>, events: seq<Event>, a: nat, f: nat, r: nat, j: nat)
    requires |trace| == |events| + 1 && a < j < |events| && Carried(trace, events, a, f, r, j)
    requires trace[j + 1].phase.Acting? && trace[j + 1].phase.listed == trace[j].phase.listed
    requires if events[j].Perform? then trace[j].phase.plan != [] && trace[j + 1].phase.plan == trace[j].phase.plan[1..]
             else trace[j + 1].phase.plan == trace[j].phase.plan
    ensures Carried(trace, events, a, f, r, j + 1)
  {
    StillThePlan(trace, events, r + 1, j);
  }

  lemma StillThePlan(trace: seq<State>, events: seq<Event>, i: nat, j: nat)
    requires |trace| == |events| + 1 && i <= j < |events| && trace[j].phase.Acting? && trace[j + 1].phase.Acting?
    requires if events[j].Perform? then trace[j].phase.plan != [] && trace[j + 1].phase.plan == trace[j].phase.plan[1..]
             else trace[j + 1].phase.plan == trace[j].phase.plan
    ensures Performed(trace, events, i, j + 1) + trace[j + 1].phase.plan
         == Performed(trace, events, i, j) + trace[j].phase.plan
  {
    var plan, done := trace[j].phase.plan, Performed(trace, events, i, j);
    if events[j].Perform? {
      assert done + [plan[0]] + plan[1..] == done + plan;
    } else {
      assert done + [] == done;
    }
  }

  lemma ActingNext(config: Config, trace: seq<State>, events: seq<Event>, a: nat, j: nat)
    requires |trace| == |events| + 1 && a < j < |events| && SoFar(trace, events, a, j)
    requires Next(config, trace[j], events[j], trace[j + 1]) && trace[j].phase.Acting?
    requires events[j].Others? || events[j].Perform?
    ensures SoFar(trace, events, a, j + 1)
  {
    var f: nat, r: nat :| f < r < j && Carried(trace, events, a, f, r, j);
    PlanGoesOn(trace, events, a, f, r, j);
  }

  lemma OthersNext(trace: seq<State>, events: seq<Event>, a: nat, j: nat)
    requires |trace| == |events| + 1 && a < j < |events| && SoFar(trace, events, a, j) && !trace[j].phase.Acting?
    requires trace[j + 1].phase == trace[j].phase && trace[j + 1].cutoff == trace[j].cutoff
    ensures SoFar(trace, events, a, j + 1)
  {
    if trace[j].phase.ReadComments? {
      var f :| a < f < j && ReadAt(trace, events, f, trace[j].phase.comments)
               && trace[j].cutoff == trace[f].cutoff == trace[a + 1].cutoff;
      assert f < j + 1;
    }
  }

  lemma {:induction false} SoFarHolds(config: Config, trace: seq<State>, events: seq<Event>, a: nat, z: nat, j: nat)
    requires Session(config, trace, events, a, z) && !config.dryRun && a < j <= z
    ensures SoFar(trace, events, a, j)
    decreases j
  {
    var k := j - 1;
    assert Next(config, trace[k], events[k], trace[j]);
    if k > a {
      SoFarHolds(config, trace, events, a, z, k);
      match events[k]
      case Others =>
        if trace[k].phase.Acting? {
          ActingNext(config, trace, events, a, k);
        } else {
          OthersNext(trace, events, a, k);
        }
      case FetchComments => CommentsReadNext(trace, events, a, k);
      case FetchReactions => ReactionsReadNext(config, trace, events, a, k);
      case Perform => ActingNext(config, trace, events, a, k);
      case _ =>
    }
  }

  /** A session carries out exactly the plan it made from what it read, in order. */
  lemma SessionDoesItsPlan(config: Config, trace: seq<State>, events: seq<Event>, a: nat, z: nat)
    returns (f: nat, r: nat, listed: Listed)
    requires Session(config, trace, events, a, z) && !config.dryRun
    ensures Read(trace, events, a, f, r) && r < z && trace[f].cutoff == events[a].start - config.closeAfter
    ensures listed.author == trace[a].remote.author
    ensures Performed(trace, events, r + 1, z) == PlanMade(trace, events, a, f, r, listed)
  {
    SoFarHolds(config, trace, events, a, z, z);
    assert Next(config, trace[a], events[a], trace[a + 1]);
    assert Next(config, trace[z], events[z], trace[z + 1]);
    f, r :| f < r < z && Carried(trace, events, a, f, r, z);
    listed := trace[z].phase.listed;
    assert Performed(trace, events, r + 1, z) + [] == Performed(trace, events, r + 1, z);
    InvHolds(config, trace, events, z);
    AuthorStays(config, trace, events, a, z);
  }

  lemma {:induction false} AuthorStays(config: Config, trace: seq<State>, events: seq<Event>, i: nat, j: nat)
    requires Run(config, trace, events) && i <= j < |trace|
    ensures trace[j].remote.author == trace[i].remote.author && trace[i].remote.comments <= trace[j].remote.comments
    decreases j
  {
    if i < j {
      AuthorStays(config, trace, events, i, j - 1);
      assert Next(config, trace[j - 1], events[j - 1], trace[j]);
      StepAddsComments(config, trace[j - 1], events[j - 1], trace[j]);
    }
  }

  lemma StepAddsComments(config: Config, s: State, event: Event, s': State)
    requires Next(config, s, event, s')
    ensures s'.remote.author == s.remote.author && s.remote.comments <= s'.remote.comments
  {}

  lemma {:induction false} WhenPerformed(trace: seq<State>, events: seq<Event>, i: nat, j: nat, request: Request)
    returns (k: nat)
    requires |trace| == |events| + 1 && j <= |events| && request in Performed(trace, events, i, j)
    ensures i <= k < j && Performs(trace, events, k, request)
    decreases j
  {
    if request in Performed(trace, events, i, j - 1) {
      k := WhenPerformed(trace, events, i, j - 1, request);
    } else {
      k := j - 1;
    }
  }

  // ----- the outcome, in terms of what was read -----

  /** The author of the issue has reacted with a thumbs-down. */
  predicate ThumbedDown(reactions: seq<Reaction>, author: Option<int>) {
    author.Some? &&
    exists i | 0 <= i < |reactions| ::
      reactions[i].content == "-1" && reactions[i].user.Some? && reactions[i].user.value.id == author
  }

  /** An account that is no bot, has an id and a login, has commented after that time. */
  predicate HumanSpoke(comments: seq<Comment>, time: int) {
    exists i | 0 <= i < |comments| ::
      && comments[i].createdAt.Moment? && time < comments[i].createdAt.time && IsHuman(comments[i])
  }

  predicate Vetoed(comments: seq<Comment>) { exists i | 0 <= i < |comments| :: comments[i].vetoMarker }

  lemma SaysTheSame(comments: seq<Comment>, reactions: seq<Reaction>, author: Option<int>, time: int)
    ensures HasReaction(reactions, author, "-1") <==> ThumbedDown(reactions, author)
    ensures HasNewer(comments, time) <==> HumanSpoke(comments, time)
    ensures HasVetoNote(comments) <==> Vetoed(comments)
  {
    if ThumbedDown(reactions, author) {
      var i :| 0 <= i < |reactions| && reactions[i].content == "-1" && reactions[i].user.Some?
               && reactions[i].user.value.id == author;
      assert UserId(reactions[i].user) == author && reactions[i].content == "-1";
    }
    if HumanSpoke(comments, time) {
      var i :| 0 <= i < |comments| && comments[i].createdAt.Moment? && time < comments[i].createdAt.time
               && IsHuman(comments[i]);
      assert IsNewer(comments[i], time);
    }
  }

  /** At step k the issue is closed, and at an earlier step after r the closing comment that names
      the canonical issue was requested. */
  ghost predicate ClosedAt(trace: seq<State>, events: seq<Event>, r: nat, k: nat, canonical: nat)
    requires |trace| == |events| + 1
  {
    && r < k < |events| && Closes(trace, events, k) && !trace[k + 1].remote.open
    && exists i | r < i < |events| :: Performs(trace, events, i, PostClosing(canonical))
  }

  lemma PerformedCloses(config: Config, trace: seq<State>, events: seq<Event>, r: nat, z: nat, canonical: nat)
    returns (k: nat)
    requires Run(config, trace, events) && z <= |events|
    requires CloseIssue in Performed(trace, events, r + 1, z)
    requires PostClosing(canonical) in Performed(trace, events, r + 1, z)
    ensures k < z && ClosedAt(trace, events, r, k, canonical)
  {
    k := WhenPerformed(trace, events, r + 1, z, CloseIssue);
    var i := WhenPerformed(trace, events, r + 1, z, PostClosing(canonical));
    assert Next(config, trace[k], events[k], trace[k + 1]);
  }

  lemma PerformedVeto(config: Config, trace: seq<State>, events: seq<Event>, r: nat, z: nat)
    requires Run(config, trace, events) && z < |trace| && PostVeto in Performed(trace, events, r + 1, z)
    ensures Vetoed(trace[z].remote.comments)
  {
    var k := WhenPerformed(trace, events, r + 1, z, PostVeto);
    assert Next(config, trace[k], events[k], trace[k + 1]);
    var at := |trace[k].remote.comments|;
    AuthorStays(config, trace, events, k + 1, z);
    assert trace[z].remote.comments[at] == trace[k + 1].remote.comments[at];
  }

  lemma VetoStays(config: Config, trace: seq<State>, events: seq<Event>, f: nat, z: nat)
    requires Run(config, trace, events) && f <= z < |trace| && Vetoed(trace[f].remote.comments)
    ensures Vetoed(trace[z].remote.comments)
  {
    AuthorStays(config, trace, events, f, z);
    var i :| 0 <= i < |trace[f].remote.comments| && trace[f].remote.comments[i].vetoMarker;
    assert trace[z].remote.comments[i].vetoMarker;
  }

  /** What a session comes to. It read the comments when a latest notice n was old enough. If the
      author had thumbed the notice down, a veto note is on the issue in the end; if not, and no human
      had commented after the notice, the issue was closed as a duplicate of the notice's issue; and
      if one had, it was not closed by the session. */
  lemma SessionOutcome(config: Config, trace: seq<State>, events: seq<Event>, a: nat, z: nat)
    returns (f: nat, r: nat, n: nat)
    requires Session(config, trace, events, a, z) && !config.dryRun
    ensures a < f < r < z && IsLatestNotice(trace[f].remote.comments, n)
    ensures var comments := trace[f].remote.comments;
            var notice, author := comments[n], trace[a].remote.author;
            && notice.createdAt.time <= events[a].start - config.closeAfter
            && (ThumbedDown(ReactionsOn(trace[r].remote, notice), author) ==> Vetoed(trace[z].remote.comments))
            && (!ThumbedDown(ReactionsOn(trace[r].remote, notice), author)
                && !HumanSpoke(comments, notice.createdAt.time)
                ==> exists k | r < k < z :: ClosedAt(trace, events, r, k, notice.notice.value.canonical))
            && (ThumbedDown(ReactionsOn(trace[r].remote, notice), author)
                || HumanSpoke(comments, notice.createdAt.time)
                ==> CloseIssue !in Performed(trace, events, r + 1, z))
  {
    var listed;
    f, r, listed := SessionDoesItsPlan(config, trace, events, a, z);
    var comments, reactions := trace[f].remote.comments, ReactionsRead(trace, f, r);
    n := Chosen(comments).value;
    EligibleMeans(comments, trace[f].cutoff, n);
    PlanExact(listed, comments, reactions, trace[f].cutoff);
    SaysTheSame(comments, reactions, listed.author, comments[n].createdAt.time);
    if ThumbedDown(reactions, listed.author) {
      if Vetoed(comments) {
        VetoStays(config, trace, events, f, z);
      } else {
        PerformedVeto(config, trace, events, r, z);
      }
    } else if !HumanSpoke(comments, comments[n].createdAt.time) {
      var k := PerformedCloses(config, trace, events, r, z, comments[n].notice.value.canonical);
    }
  }
}
