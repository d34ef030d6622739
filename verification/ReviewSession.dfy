/**
 The review, approve and generate screen as a session machine. Every rerun of the script reads the session keys,
 applies at most one step of each stage, and either stops early or reaches the buttons. A generation job lives in
 the session across reruns and is polled once per rerun. Widget values and API answers are arbitrary inputs.
 */
module ReviewSession {
  import opened Common
  import opened ReviewCorrections

  datatype Comparison = Comparison(draft: nat, contactReady: bool)

  /** A recorded approval: its identity, the draft it is for, and the corrections it was given with. */
  datatype Approval = Approval(id: nat, draft: nat, corrections: seq<Correction>)

  datatype Documents = Documents(draft: nat, approval: Approval, deterministicSummary: bool)

  /** A generation job: the draft and approval it was started for; a revision job installs its approval on success. */
  datatype Job = Job(id: nat, draft: nat, approval: Approval, revision: bool)

  datatype Session = Session(
    signature: Option<nat>,
    comparison: Option<Comparison>,
    approval: Option<Approval>,
    approved: seq<Correction>,
    documents: Option<Documents>,
    job: Option<Job>)

  /** The API's answer about a job; a malformed one says it succeeded but carries an invalid result. */
  datatype JobReply = Unreachable | Pending | Failed | Malformed | Done(deterministicSummary: bool)

  /** The answer to a request that starts a job; an unreachable one started nothing. */
  datatype Started = Started(job: nat, reply: JobReply)

  /** A retry first records a new revision of the approval, then starts a job for it. */
  datatype Retry = Retry(revision: Option<nat>, started: Started)

  /** One rerun's inputs: a button is None when it was not pressed or its request was refused. */
  datatype Screen = Screen(
    signature: nat,
    compare: Option<Comparison>,
    corrections: seq<Correction>,
    problem: bool,
    approve: Option<nat>,
    poll: JobReply,
    tooLong: bool,
    generate: Option<Started>,
    retry: Option<Retry>)

  /** A started job with what the session and the screen held at that moment. */
  datatype Start = Start(job: Job, onScreen: seq<Correction>, before: Session)

  /** The session after a stage, whether the rerun stops there, and the jobs it started. */
  datatype Outcome = Outcome(session: Session, stopped: bool, starts: seq<Start>)

  const EMPTY := Session(None, None, None, [], None, None)

  // ------------------------------------------------------------------ the stages of a rerun

  function Sign(s: Session, signature: nat): Session {
    var kept := if s.signature.Some? && s.signature.value != signature
                then s.(comparison := None, approval := None, documents := None) else s;
    kept.(signature := Some(signature))
  }

  function BeginReview(s: Session, c: Comparison): Session {
    s.(comparison := Some(c), approval := None, documents := None)
  }

  function Approve(s: Session, x: Screen): Session
    requires s.comparison.Some?
  {
    if x.approve.None? || x.problem then s
    else s.(approval := Some(Approval(x.approve.value, s.comparison.value.draft, x.corrections)),
            approved := x.corrections, documents := None)
  }

  /** A finished job leaves the session; a successful one installs its documents, a revision its approval too. */
  function Settle(s: Session, reply: JobReply): Session
    requires s.job.Some?
  {
    var job, rest := s.job.value, s.(job := None);
    match reply
    case Pending => s
    case Done(deterministic) =>
      rest.(approval := if job.revision then Some(job.approval) else s.approval,
            documents := Some(Documents(job.draft, job.approval, deterministic)))
    case _ => rest
  }

  function Poll(s: Session, x: Screen): Outcome {
    if s.job.None? then Outcome(s, false, [])
    else if x.poll.Pending? then
      if x.tooLong then Outcome(s.(job := None), false, []) else Outcome(s, true, [])
    else Outcome(Settle(s, x.poll), x.poll.Malformed?, [])
  }

  function StartJob(s: Session, x: Screen, draft: nat, approval: Approval, revision: bool, started: Started): Outcome {
    if started.reply.Unreachable? then Outcome(s, false, [])
    else
      var job := Job(started.job, draft, approval, revision);
      var running := s.(job := Some(job));
      Outcome(Settle(running, started.reply), started.reply.Pending?, [Start(job, x.corrections, s)])
  }

  function Generate(s: Session, x: Screen, draft: nat, approval: Approval): Outcome {
    if x.generate.None? || s.job.Some? then Outcome(s, false, [])
    else StartJob(s, x, draft, approval, false, x.generate.value)
  }

  /** The revision repeats the corrections recorded at the last approval. */
  function RetrySummary(s: Session, x: Screen, draft: nat): Outcome {
    if x.retry.None? || x.retry.value.revision.None? then Outcome(s, false, [])
    else StartJob(s, x, draft, Approval(x.retry.value.revision.value, draft, s.approved), true, x.retry.value.started)
  }

  /** The two buttons below the poll; approval is the one read before it. */
  function Buttons(s: Session, x: Screen, draft: nat, approval: Approval): Outcome {
    var running := s.job.Some?;
    var g := Generate(s, x, draft, approval);
    if g.stopped || g.session.documents.None? || !g.session.documents.value.deterministicSummary || running then g
    else
      var r := RetrySummary(g.session, x, draft);
      Outcome(r.session, r.stopped, g.starts + r.starts)
  }

  function Rerun(s: Session, x: Screen): Outcome {
    var signed := Sign(s, x.signature);
    if x.compare.Some? then Outcome(BeginReview(signed, x.compare.value), true, [])
    else if signed.comparison.None? || !signed.comparison.value.contactReady then Outcome(signed, true, [])
    else
      var a := Approve(signed, x);
      if a.approval.None? then Outcome(a, true, [])
      else if a.documents.None? && x.corrections != a.approved then Outcome(a, true, [])
      else
        var p := Poll(a, x);
        if p.stopped then p else Buttons(p.session, x, a.comparison.value.draft, a.approval.value)
  }

  /** A rerun of the screen, or a pipeline job opened for review elsewhere (None when it could not be opened). */
  datatype Event = Rendered(screen: Screen) | Opened(comparison: Option<Comparison>)

  function Step(s: Session, e: Event): Outcome {
    match e
    case Rendered(x) => Rerun(s, x)
    case Opened(None) => Outcome(s, true, [])
    case Opened(Some(c)) => Outcome(BeginReview(s, c), true, [])
  }

  function Run(s: Session, events: seq<Event>): Session {
    if |events| == 0 then s else Step(Run(s, events[..|events| - 1]), events[|events| - 1]).session
  }

  // ------------------------------------------------------------------ what every run keeps

  /** Documents imply an approval, which implies a comparison. */
  ghost predicate Chained(s: Session) {
    && (s.documents.Some? ==> s.approval.Some?)
    && (s.approval.Some? ==> s.comparison.Some?)
  }

  /** Until documents exist, the approval is for the draft under review, with the corrections remembered for it. */
  ghost predicate Current(s: Session) {
    s.documents.None? && s.approval.Some? ==>
      s.comparison.Some? && s.approval.value.draft == s.comparison.value.draft &&
        s.approval.value.corrections == s.approved
  }

  lemma ButtonsKeep(s: Session, x: Screen, draft: nat, approval: Approval)
    requires Chained(s) && Current(s) && s.approval.Some?
    ensures var o := Buttons(s, x, draft, approval).session; Chained(o) && Current(o)
  {
  }

  lemma StepKeeps(s: Session, e: Event)
    requires Chained(s) && Current(s)
    ensures Chained(Step(s, e).session) && Current(Step(s, e).session)
  {
    hide Buttons;
    if e.Rendered? {
      var x := e.screen;
      var signed := Sign(s, x.signature);
      if x.compare.None? && signed.comparison.Some? && signed.comparison.value.contactReady {
        var a := Approve(signed, x);
        if a.approval.Some? {
          var p := Poll(a, x).session;
          ButtonsKeep(p, x, a.comparison.value.draft, a.approval.value);
        }
      }
    }
  }

  /** Every reachable session is chained, and its approval is current until documents exist. */
  lemma {:induction false} RunKeeps(events: seq<Event>)
    ensures Chained(Run(EMPTY, events)) && Current(Run(EMPTY, events))
  {
    if |events| != 0 {
      hide Step, Chained, Current;
      RunKeeps(events[..|events| - 1]);
      StepKeeps(Run(EMPTY, events[..|events| - 1]), events[|events| - 1]);
    } else {
      assert Run(EMPTY, events) == EMPTY;
    }
  }

  /** The moment a job starts with no documents on the screen, its approval is the recorded one, for the draft under
      review, and was given with exactly the corrections now on the screen. */
  ghost predicate Faithful(start: Start) {
    start.before.documents.None? ==>
      && !start.job.revision
      && start.before.approval == Some(start.job.approval)
      && start.before.comparison.Some?
      && start.job.draft == start.job.approval.draft == start.before.comparison.value.draft
      && start.job.approval.corrections == start.onScreen
  }

  lemma {:induction false} StartsAreFaithful(events: seq<Event>, e: Event)
    ensures forall start :: start in Step(Run(EMPTY, events), e).starts ==>
      Faithful(start) && (start.job.revision ==> start.before.documents.Some?) && start.before.job.None?
  {
    hide Run;
    RunKeeps(events);
    RerunStarts(Run(EMPTY, events), e);
  }

  lemma RerunStarts(s: Session, e: Event)
    requires Chained(s) && Current(s)
    ensures forall start :: start in Step(s, e).starts ==>
      Faithful(start) && (start.job.revision ==> start.before.documents.Some?) && start.before.job.None?
  {
    hide Buttons, Faithful, Poll, Sign, Approve;
    if e.Rendered? {
      var x := e.screen;
      var signed := Sign(s, x.signature);
      if x.compare.None? && signed.comparison.Some? && signed.comparison.value.contactReady {
        var a := Approve(signed, x);
        assert Chained(a) && Current(a) by { FrontKeeps(s, x); }
        if a.approval.Some? && (a.documents.None? ==> x.corrections == a.approved) {
          var p := Poll(a, x);
          assert p.starts == [] by { PollStartsNothing(a, x); }
          if !p.stopped {
            PollKeeps(a, x);
            ButtonsStarts(p.session, x, a.comparison.value.draft, a.approval.value);
          }
        }
      }
    }
  }

  lemma FrontKeeps(s: Session, x: Screen)
    requires Chained(s) && Current(s) && Sign(s, x.signature).comparison.Some?
    ensures var a := Approve(Sign(s, x.signature), x);
      Chained(a) && Current(a) && a.comparison == Sign(s, x.signature).comparison
  {
  }

  lemma PollStartsNothing(s: Session, x: Screen)
    ensures Poll(s, x).starts == []
  {
  }

  lemma PollKeeps(s: Session, x: Screen)
    requires !Poll(s, x).stopped && Current(s) && s.approval.Some? && s.comparison.Some?
    requires s.documents.None? ==> x.corrections == s.approved
    ensures var p := Poll(s, x).session;
      && p.comparison == s.comparison && p.job.None?
      && (p.documents.None? ==> p.approval == s.approval && s.documents.None?)
  {
  }

  lemma ButtonsStarts(s: Session, x: Screen, draft: nat, approval: Approval)
    requires s.comparison.Some? && s.comparison.value.draft == draft && s.job.None?
    requires s.documents.None? ==>
      s.approval == Some(approval) && approval.draft == draft && approval.corrections == x.corrections
    ensures forall start :: start in Buttons(s, x, draft, approval).starts ==>
      Faithful(start) && (start.job.revision ==> start.before.documents.Some?) && start.before.job.None?
  {
    var g := Generate(s, x, draft, approval);
    assert forall start :: start in g.starts ==> Faithful(start) && !start.job.revision && start.before.job.None?;
    if g.session.documents.Some? && !g.stopped {
      assert g.session.job.None?;
      var r := RetrySummary(g.session, x, draft);
      assert forall start :: start in r.starts ==> start.before == g.session;
    }
  }

  /** No job is left when the buttons are drawn: the poll settled it, gave it up or stopped the rerun. */
  lemma PollClearsTheJob(s: Session, x: Screen)
    requires !Poll(s, x).stopped
    ensures Poll(s, x).session.job.None?
  {
  }

  // ------------------------------------------------------------------ whose documents are on the screen

  /** Everything belongs to the draft under review; a job, to one draft. */
  ghost predicate DraftsAgree(s: Session) {
    && (s.job.Some? ==> s.job.value.approval.draft == s.job.value.draft)
    && (s.comparison.Some? ==>
      var draft := s.comparison.value.draft;
      && (s.approval.Some? ==> s.approval.value.draft == draft)
      && (s.documents.Some? ==> s.documents.value.draft == s.documents.value.approval.draft == draft)
      && (s.job.Some? ==> s.job.value.draft == draft))
  }

  /** The comparison an event brings in. */
  function Incoming(e: Event): Option<Comparison> {
    if e.Rendered? then e.screen.compare else e.comparison
  }

  /** A job is still running for another draft than the one the event brings in. */
  ghost predicate Strands(s: Session, e: Event) {
    s.job.Some? && Incoming(e).Some? && Incoming(e).value.draft != s.job.value.draft
  }

  lemma StartAgrees(s: Session, x: Screen, draft: nat, approval: Approval, revision: bool, started: Started)
    requires Chained(s) && DraftsAgree(s) && s.comparison.Some? && s.approval.Some?
    requires s.comparison.value.draft == approval.draft == draft
    ensures var o := StartJob(s, x, draft, approval, revision, started).session;
      DraftsAgree(o) && Chained(o) && o.approval.Some? && o.comparison == s.comparison
  {
  }

  lemma ButtonsAgree(s: Session, x: Screen, draft: nat, approval: Approval)
    requires Chained(s) && DraftsAgree(s) && s.comparison.Some? && s.approval.Some?
    requires s.comparison.value.draft == approval.draft == draft
    ensures DraftsAgree(Buttons(s, x, draft, approval).session)
  {
    hide StartJob, Chained;
    if x.generate.Some? { StartAgrees(s, x, draft, approval, false, x.generate.value); }
    var g := Generate(s, x, draft, approval).session;
    if x.retry.Some? && x.retry.value.revision.Some? {
      StartAgrees(g, x, draft, Approval(x.retry.value.revision.value, draft, g.approved), true, x.retry.value.started);
    }
  }

  lemma PollAgrees(s: Session, x: Screen)
    requires DraftsAgree(s) && Chained(s) && s.approval.Some?
    ensures var p := Poll(s, x).session;
      DraftsAgree(p) && Chained(p) && p.approval.Some? && p.comparison == s.comparison
  {
  }

  /** One event breaks the agreement exactly when it brings in a comparison for another draft while a job runs:
      the running job is not dropped with the rest. */
  lemma AgreementIsKeptExactly(s: Session, e: Event)
    requires Chained(s) && DraftsAgree(s)
    ensures DraftsAgree(Step(s, e).session) <==> !Strands(s, e)
  {
    hide Buttons, Poll;
    if e.Rendered? && e.screen.compare.None? {
      var x := e.screen;
      var signed := Sign(s, x.signature);
      if signed.comparison.Some? && signed.comparison.value.contactReady {
        var a := Approve(signed, x);
        if a.approval.Some? {
          PollAgrees(a, x);
          ButtonsAgree(Poll(a, x).session, x, a.comparison.value.draft, a.approval.value);
        }
      }
    }
  }

  /** The documents on the screen are for the draft under review in every run that strands no job. */
  lemma {:induction false} UnstrandedRunsAgree(events: seq<Event>)
    requires forall i :: 0 <= i < |events| ==> !Strands(Run(EMPTY, events[..i]), events[i])
    ensures DraftsAgree(Run(EMPTY, events))
  {
    if |events| == 0 {
      assert Run(EMPTY, events) == EMPTY;
    } else {
      hide Step, DraftsAgree, Strands, Chained;
      var rest, last := events[..|events| - 1], events[|events| - 1];
      forall i | 0 <= i < |rest| ensures !Strands(Run(EMPTY, rest[..i]), rest[i]) {
        assert rest[..i] == events[..i];
      }
      UnstrandedRunsAgree(rest);
      RunKeeps(rest);
      AgreementIsKeptExactly(Run(EMPTY, rest), last);
      assert events[..|rest|] == rest && events[|rest|] == last;
    }
  }

  /** And a stranded job can always put its documents under the new draft: approve it, and let the job succeed. */
  lemma StrandedJobIsShown(s: Session, e: Event)
    requires Strands(s, e) && Incoming(e).value.contactReady
    ensures exists x :: var after := Rerun(Step(s, e).session, x).session;
      after.documents.Some? && after.comparison.Some? && after.documents.value.draft != after.comparison.value.draft
  {
    var next := Step(s, e).session;
    var signature := if next.signature.Some? then next.signature.value else 0;
    var x := Screen(signature, None, [], false, Some(0), Done(false), false, None, None);
    var after := Rerun(next, x).session;
    assert Poll(Approve(Sign(next, signature), x), x).session.documents.Some?;
    assert after.documents.Some? && after.documents.value.draft != after.comparison.value.draft;
  }

  // ------------------------------------------------------------------ which approval the documents were made under

  /** The documents, and those a running job will bring, are made under the recorded approval. */
  ghost predicate Matched(s: Session) {
    && (s.documents.Some? ==> s.approval == Some(s.documents.value.approval))
    && (s.job.Some? && !s.job.value.revision && s.approval.Some? ==> s.approval.value == s.job.value.approval)
  }

  /** The API's answers to the poll and to the requests that start jobs. */
  datatype Answers = Answers(poll: JobReply, tooLong: bool, started: Started, retry: Retry)

  function Answer(x: Screen, a: Answers): Screen {
    x.(poll := a.poll, tooLong := a.tooLong,
       generate := if x.generate.Some? then Some(a.started) else None,
       retry := if x.retry.Some? then Some(a.retry) else None)
  }

  /** The session the rerun polls with, if it gets that far. */
  function Polled(s: Session, x: Screen): Option<Session> {
    var signed := Sign(s, x.signature);
    if x.compare.Some? || signed.comparison.None? || !signed.comparison.value.contactReady then None
    else
      var a := Approve(signed, x);
      if a.approval.None? || (a.documents.None? && x.corrections != a.approved) then None else Some(a)
  }

  /** A job runs for another approval than the one the rerun polls with, and either it will not replace that
      approval, or Generate is pressed with the one it replaces. */
  ghost predicate Overtaken(s: Session, x: Screen) {
    && s.job.Some? && Polled(s, x).Some?
    && Polled(s, x).value.approval.value != s.job.value.approval
    && (!s.job.value.revision || x.generate.Some?)
  }

  lemma ButtonsMatch(s: Session, x: Screen, draft: nat, approval: Approval)
    requires Matched(s) && s.approval == Some(approval) && s.job.None?
    ensures Matched(Buttons(s, x, draft, approval).session)
  {
  }

  /** When Generate is not pressed, the approval read before the poll does not matter. */
  lemma ButtonsIgnoreApproval(s: Session, x: Screen, draft: nat, a: Approval, b: Approval)
    requires x.generate.None?
    ensures Buttons(s, x, draft, a) == Buttons(s, x, draft, b)
  {
  }

  lemma PollMatches(s: Session, x: Screen)
    requires Matched(s) && s.approval.Some? && s.job.Some?
    requires x.generate.Some? && s.job.value.revision ==> s.approval.value == s.job.value.approval
    ensures var p := Poll(s, x).session;
      Matched(p) && p.approval.Some? && (x.generate.Some? ==> p.approval == s.approval)
  {
  }

  lemma RerunMatches(s: Session, x: Screen)
    requires Matched(s) && !Overtaken(s, x)
    ensures Matched(Rerun(s, x).session)
  {
    hide Buttons, Poll;
    if Polled(s, x).Some? {
      var a := Polled(s, x).value;
      assert Matched(a) && a.job == s.job;
      if a.job.Some? { PollMatches(a, x); } else { PollWithoutJob(a, x); }
      var p := Poll(a, x);
      if !p.stopped {
        PollClearsTheJob(a, x);
        var draft, read, now := a.comparison.value.draft, a.approval.value, p.session.approval.value;
        if x.generate.None? { ButtonsIgnoreApproval(p.session, x, draft, read, now); }
        ButtonsMatch(p.session, x, a.comparison.value.draft, p.session.approval.value);
      }
    }
  }

  lemma PollWithoutJob(s: Session, x: Screen)
    requires s.job.None?
    ensures Poll(s, x) == Outcome(s, false, [])
  {
  }

  /** The job succeeds; if it installs its own approval, so does the generation started under the older one. */
  function Worst(s: Session): Answers {
    var reply := if s.job.Some? && s.job.value.revision then Done(false) else Unreachable;
    Answers(Done(false), false, Started(0, reply), Retry(None, Started(0, Unreachable)))
  }

  lemma OvertakenMismatches(s: Session, x: Screen)
    requires Overtaken(s, x)
    ensures !Matched(Rerun(s, Answer(x, Worst(s))).session)
  {
    var y := Answer(x, Worst(s));
    assert Polled(s, x) == Polled(s, y);
    var a := Polled(s, y).value;
    var p := Poll(a, y).session;
    assert p.documents == Some(Documents(a.job.value.draft, a.job.value.approval, false));
  }

  /** A rerun keeps documents and approval together whatever the API answers, exactly when no job is overtaken. */
  lemma MatchIsKeptExactly(s: Session, x: Screen)
    requires Matched(s)
    ensures (forall a :: Matched(Rerun(s, Answer(x, a)).session)) <==> !Overtaken(s, x)
  {
    hide Rerun, Matched;
    if Overtaken(s, x) {
      OvertakenMismatches(s, x);
    } else {
      forall a ensures Matched(Rerun(s, Answer(x, a)).session) {
        assert Polled(s, Answer(x, a)) == Polled(s, x);
        RerunMatches(s, Answer(x, a));
      }
    }
  }

  /** No rerun of the run polls with a job overtaken. */
  ghost predicate NobodyOvertaken(events: seq<Event>) {
    || |events| == 0
    || (var rest, last := events[..|events| - 1], events[|events| - 1];
        NobodyOvertaken(rest) && (last.Rendered? ==> !Overtaken(Run(EMPTY, rest), last.screen)))
  }

  /** In every such run the documents on the screen were made under the recorded approval. */
  lemma {:induction false} UnovertakenRunsMatch(events: seq<Event>)
    requires NobodyOvertaken(events)
    ensures Matched(Run(EMPTY, events))
  {
    if |events| == 0 {
      assert Run(EMPTY, events) == EMPTY;
    } else {
      hide Overtaken, Rerun;
      var rest, last := events[..|events| - 1], events[|events| - 1];
      UnovertakenRunsMatch(rest);
      if last.Rendered? { RerunMatches(Run(EMPTY, rest), last.screen); }
    }
  }

  // ------------------------------------------------------------------ both failures happen

  function Comparing(c: Comparison): Screen {
    Screen(0, Some(c), [], false, None, Pending, false, None, None)
  }

  /** Approves with the given answer; a job already running answers `poll`, and Generate may be pressed. */
  function Approving(id: nat, poll: JobReply, generate: Option<Started>): Screen {
    Screen(0, None, [], false, Some(id), poll, false, generate, None)
  }

  /** A run that leaves a job running: compare, approve and generate. */
  function JobStarts(c: Comparison): seq<Event> {
    [Rendered(Comparing(c)), Rendered(Approving(1, Pending, Some(Started(7, Pending))))]
  }

  lemma RunSnoc(events: seq<Event>, e: Event)
    ensures Run(EMPTY, events + [e]) == Step(Run(EMPTY, events), e).session
  {
    assert (events + [e])[..|events|] == events;
  }

  lemma JobIsRunning(c: Comparison)
    requires c.contactReady
    ensures var a := Approval(1, c.draft, []);
      Run(EMPTY, JobStarts(c)) == Session(Some(0), Some(c), Some(a), [], None, Some(Job(7, c.draft, a, false)))
  {
    var first, second := Rendered(Comparing(c)), Rendered(Approving(1, Pending, Some(Started(7, Pending))));
    RunSnoc([], first);
    RunSnoc([first], second);
    assert [] + [first] == [first] && [first] + [second] == JobStarts(c);
    hide Run;
    assert Step(EMPTY, first).session == Session(Some(0), Some(c), None, [], None, None);
  }

  /** From the empty session: a job starts for one draft, another draft is opened, approved, and shown with the first
      draft's documents. */
  lemma StrandingHappens(c: Comparison, other: Comparison)
    requires c.contactReady && other.contactReady && c.draft != other.draft
    ensures Strands(Run(EMPTY, JobStarts(c)), Opened(Some(other)))
    ensures var last := Run(EMPTY, JobStarts(c) + [Opened(Some(other))] + [Rendered(Approving(2, Done(false), None))]);
      && last.comparison == Some(other) && last.documents.Some? && last.documents.value.draft == c.draft
  {
    JobIsRunning(c);
    var open, approve := Opened(Some(other)), Rendered(Approving(2, Done(false), None));
    RunSnoc(JobStarts(c), open);
    RunSnoc(JobStarts(c) + [open], approve);
    hide Run, JobStarts;
  }

  /** From the empty session: while its job runs the draft is approved again, and the job's documents appear under the
      new approval. */
  lemma OvertakingHappens(c: Comparison)
    requires c.contactReady
    ensures var s, x := Run(EMPTY, JobStarts(c)), Approving(2, Done(false), None);
      && Matched(s) && Overtaken(s, x)
      && var last := Run(EMPTY, JobStarts(c) + [Rendered(x)]);
         && last.documents.Some? && last.documents.value.approval.id == 1
         && last.approval.Some? && last.approval.value.id == 2
  {
    JobIsRunning(c);
    RunSnoc(JobStarts(c), Rendered(Approving(2, Done(false), None)));
    hide Run, JobStarts;
  }
}
