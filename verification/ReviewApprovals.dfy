/**
 What an approval is worth: which rerun records one and for what, and that documents are only ever generated for a
 review without open problems. Problems are read off the rows and their controls, not off the session.
 */
module ReviewApprovals {
  import opened Common
  import opened ReviewCorrections
  import opened ReviewSession

  // ------------------------------------------------------------------ what a complete review is

  /** A decision that cannot be approved: accepted without evidence, or a gap sentence of one to nine characters. */
  predicate Flawed(c: Choice) {
    (c.decision == Accepted && c.evidence == []) || 1 <= |c.gapSentence| <= 9
  }

  ghost predicate Complete(corrections: seq<Correction>) { forall c :: c in corrections ==> !Flawed(c.choice) }

  lemma FlawIsProblem(c: Controls)
    ensures IsProblem(c) <==> Flawed(ChoiceOf(c))
  {
  }

  lemma DefaultsAreSound(row: Row)
    ensures !Flawed(DefaultChoice(row))
  {
  }

  /** The screen reports a problem exactly when a row's decision is flawed, and then the flaw is in the corrections: no
      row is flawed by default. */
  lemma ProblemIsInTheCorrections(rows: seq<Row>, controls: map<string, Controls>)
    requires Covered(rows, controls)
    ensures HasProblem(rows, controls) <==> exists r :: r in rows && Flawed(ChoiceOf(controls[r.key]))
    ensures HasProblem(rows, controls) <==> !Complete(Review(rows, controls))
  {
    ReviewIs(rows, controls);
    hide Review, Flawed, ChoiceOf, IsProblem, DefaultChoice;
    forall r | r in rows ensures IsProblem(controls[r.key]) <==> Flawed(ChoiceOf(controls[r.key])) {
      FlawIsProblem(controls[r.key]);
    }
    if r :| r in rows && Flawed(ChoiceOf(controls[r.key])) {
      DefaultsAreSound(r);
      assert Correction(r.key, ChoiceOf(controls[r.key])) in Review(rows, controls);
    }
  }

  /** A flaw, on the screen: nothing chosen for an accepted row, or too short a sentence where one is asked for. */
  lemma FlawOnScreen(c: Controls)
    ensures Flawed(ChoiceOf(c)) <==>
      || (c.decision == Accepted && c.chosen == [])
      || (c.decision in {Gap, Partial} && 1 <= |c.gapText| <= 9)
  {
  }

  /** A row is in the corrections exactly when the user changed it, with what the controls then say: evidence where the
      requirement is met at least partly, a sentence where there is a gap. */
  lemma RowIsCorrectedExactly(rows: seq<Row>, controls: map<string, Controls>, r: Row)
    requires Keyed(rows) && Covered(rows, controls) && r in rows
    ensures var c, all := controls[r.key], Review(rows, controls);
      var evidence := if c.decision in {Accepted, Partial} then c.chosen else [];
      var sentence := if c.decision in {Gap, Partial} then c.gapText else "";
      var suggested := if r.proposed == [] then Gap else if r.suggestsPartial then Partial else Accepted;
      if c.decision == suggested && evidence == r.proposed && sentence == ""
      then forall k :: k in all ==> k.key != r.key
      else forall k :: k in all && k.key == r.key <==> k == Correction(r.key, Choice(c.decision, evidence, sentence))
  {
    ReviewIs(rows, controls);
    hide Review, Keyed;
    var all, choice := Review(rows, controls), ChoiceOf(controls[r.key]);
    forall k | k in all && k.key == r.key ensures k.choice == choice && choice != DefaultChoice(r) {
      var q :| q in rows && k == Correction(q.key, ChoiceOf(controls[q.key])) && k.choice != DefaultChoice(q);
      SameKeySameRow(rows, q, r);
    }
    if choice != DefaultChoice(r) { assert Correction(r.key, choice) in all; }
  }

  /** The corrections of MUST rows stand before those of optional rows. */
  lemma MustRowsComeFirst(rows: seq<Row>, controls: map<string, Controls>) returns (n: nat)
    requires Keyed(rows) && Covered(rows, controls)
    ensures var all := Review(rows, controls);
      && n <= |all|
      && forall i, r :: 0 <= i < |all| && r in rows && r.key == all[i].key ==> (r.must <==> i < n)
  {
    var must, optional := Part(rows, true), Part(rows, false);
    var all := Review(rows, controls);
    n := |CorrectionsOf(must, controls)|;
    CorrectionsAre(must, controls);
    CorrectionsAre(optional, controls);
    hide CorrectionsOf, Part, Keyed, ChoiceOf, DefaultChoice;
    forall i, r | 0 <= i < |all| && r in rows && r.key == all[i].key ensures r.must <==> i < n {
      var part := if i < n then must else optional;
      assert all[i] in CorrectionsOf(part, controls);
      var q :| q in part && all[i] == Correction(q.key, ChoiceOf(controls[q.key]));
      SameKeySameRow(rows, q, r);
    }
  }

  /** What the screen holds was rendered from some rows and their controls. */
  ghost predicate FromRows(x: Screen) {
    exists rows: seq<Row>, controls: map<string, Controls> :: RenderedFrom(x, rows, controls)
  }

  ghost predicate RenderedFrom(x: Screen, rows: seq<Row>, controls: map<string, Controls>) {
    Covered(rows, controls) && x.corrections == Review(rows, controls) && x.problem == HasProblem(rows, controls)
  }

  lemma ProblemShows(x: Screen)
    requires FromRows(x)
    ensures x.problem <==> !Complete(x.corrections)
  {
    var rows, controls :| RenderedFrom(x, rows, controls);
    ProblemIsInTheCorrections(rows, controls);
  }

  // ------------------------------------------------------------------ which rerun records an approval

  /** The rerun gets to the review of a comparison: none is being made, and the one at hand is for the inputs on the
      screen and ready. */
  predicate AtReview(s: Session, x: Screen) {
    && x.compare.None? && (s.signature.None? || s.signature.value == x.signature)
    && s.comparison.Some? && s.comparison.value.contactReady
  }

  /** The approval of a revision: of the job already running, or of one this rerun started. */
  ghost predicate ByRevision(s: Session, starts: seq<Start>, approval: Approval) {
    || (s.job.Some? && s.job.value.revision && s.job.value.approval == approval)
    || exists i :: 0 <= i < |starts| && starts[i].job.revision && starts[i].job.approval == approval
  }

  /** Approve was pressed on a ready comparison without a problem. */
  predicate Approves(s: Session, x: Screen) { AtReview(s, x) && x.approve.Some? && !x.problem }

  /** The approval given on the screen: for the draft under review, with the corrections shown. */
  function Given(s: Session, x: Screen): Approval
    requires Approves(s, x)
  {
    Approval(x.approve.value, s.comparison.value.draft, x.corrections)
  }

  /** The job left in the session was there before, or was started. */
  ghost predicate JobFrom(s: Session, o: Outcome) {
    || o.session.job == s.job || o.session.job.None?
    || exists i :: 0 <= i < |o.starts| && o.session.job == Some(o.starts[i].job)
  }

  lemma ButtonsApproval(s: Session, x: Screen, draft: nat, approval: Approval)
    ensures var o := Buttons(s, x, draft, approval);
      && o.session.approved == s.approved && o.session.comparison == s.comparison
      && o.session.signature == s.signature
      && (o.session.approval == s.approval ||
          (o.session.approval.Some? && ByRevision(s.(job := None), o.starts, o.session.approval.value)))
      && (forall i :: 0 <= i < |o.starts| ==> o.starts[i].onScreen == x.corrections)
      && (forall i :: 0 <= i < |o.starts| && o.starts[i].job.revision ==>
            o.starts[i].job.approval.corrections == s.approved)
      && (forall i :: 0 <= i < |o.starts| && !o.starts[i].job.revision ==> o.starts[i].job.approval == approval)
      && JobFrom(s, o)
  {
    var g := Generate(s, x, draft, approval);
    var o := Buttons(s, x, draft, approval);
    if |o.starts| > 0 { assert o.starts[0] == o.starts[0]; }
    if |o.starts| > |g.starts| { assert o.starts[|g.starts|] == o.starts[|g.starts|]; }
  }

  lemma PollApproval(s: Session, x: Screen)
    ensures var p := Poll(s, x);
      && p.session.approved == s.approved && p.session.comparison == s.comparison
      && p.session.signature == s.signature && p.starts == []
      && (p.session.job == s.job || p.session.job.None?)
      && (p.session.approval == s.approval ||
          (s.job.Some? && s.job.value.revision && p.session.approval == Some(s.job.value.approval)))
  {
  }

  /** A job is started only at a review: for the approval recorded there, or for a revision of it with the corrections
      it was given with. */
  ghost predicate StartedFor(s: Session, x: Screen, o: Outcome, i: nat)
    requires i < |o.starts|
  {
    && AtReview(s, x) && o.starts[i].onScreen == x.corrections
    && if o.starts[i].job.revision then o.starts[i].job.approval.corrections == o.session.approved
       else Some(o.starts[i].job.approval) == if Approves(s, x) then Some(Given(s, x)) else s.approval
  }

  /** What one rerun does to the approval, for every session: a pressed Approve without a problem records an approval of
      the draft under review with the corrections shown, and nothing but a revision replaces it; without it the
      approval stays, is dropped, or is a revision's. */
  lemma ApprovalIsGivenExactly(s: Session, x: Screen)
    ensures var o := Step(s, Rendered(x));
      && o.session.approved == (if Approves(s, x) then x.corrections else s.approved)
      && (o.session.approval.Some? ==>
           || ByRevision(s, o.starts, o.session.approval.value)
           || o.session.approval == if Approves(s, x) then Some(Given(s, x)) else s.approval)
      && (Approves(s, x) ==> o.session.approval.Some?)
      && (forall i :: 0 <= i < |o.starts| ==> StartedFor(s, x, o, i))
      && JobFrom(s, o)
  {
    hide Poll, Buttons;
    if AtReview(s, x) {
      var a := Approve(Sign(s, x.signature), x);
      assert a.job == s.job;
      if a.approval.Some? && (a.documents.Some? || x.corrections == a.approved) {
        PollApproval(a, x);
        var p := Poll(a, x);
        if !p.stopped {
          PollClearsTheJob(a, x);
          ButtonsApproval(p.session, x, a.comparison.value.draft, a.approval.value);
        }
      }
    }
  }

  /** Inputs that no longer match drop comparison, approval and documents, and nothing is generated. */
  lemma ChangedInputsDropEverything(s: Session, x: Screen)
    requires x.compare.None? && s.signature.Some? && s.signature.value != x.signature
    ensures var o := Step(s, Rendered(x));
      o.session == Session(Some(x.signature), None, None, s.approved, None, s.job) && o.starts == []
  {
  }

  // ------------------------------------------------------------------ what the poll and the buttons do

  /** The rerun gets past the approval without giving one: it stands, and the corrections are the approved ones. */
  predicate PastApproval(s: Session, x: Screen) {
    && AtReview(s, x) && !Approves(s, x) && s.approval.Some?
    && (s.documents.Some? || x.corrections == s.approved)
  }

  /** A job that has answered is over: a success shows its documents, a revision's with its approval, anything else
      changes nothing more. One that has not is waited for unless it takes too long. */
  lemma JobIsPolledOnce(s: Session, x: Screen)
    requires PastApproval(s, x) && s.job.Some? && x.generate.None? && x.retry.None?
    ensures var o, job, now := Step(s, Rendered(x)), s.job.value, s.(signature := Some(x.signature));
      o.starts == [] && o.session ==
        match x.poll
        case Pending => if x.tooLong then now.(job := None) else now
        case Done(deterministic) =>
          now.(job := None, approval := if job.revision then Some(job.approval) else s.approval,
               documents := Some(Documents(job.draft, job.approval, deterministic)))
        case _ => now.(job := None)
  {
  }

  /** The buttons below the poll are reached unless the job is still waited for or its answer made no sense: then the
      rerun ends there, whatever is pressed. */
  lemma PollDecidesButtons(s: Session, x: Screen)
    requires PastApproval(s, x) && s.job.Some? && x.generate.Some? && !x.generate.value.reply.Unreachable?
    ensures Step(s, Rendered(x)).starts == [] <==> x.poll.Malformed? || (x.poll.Pending? && !x.tooLong)
  {
  }

  /** With no job under way, Generate starts one for the recorded approval as soon as the request gets through. */
  lemma GenerateStartsExactly(s: Session, x: Screen)
    requires PastApproval(s, x) && s.job.None? && x.retry.None?
    ensures var o := Step(s, Rendered(x));
      if x.generate.Some? && !x.generate.value.reply.Unreachable?
      then |o.starts| == 1 &&
        o.starts[0].job == Job(x.generate.value.job, s.comparison.value.draft, s.approval.value, false)
      else o.starts == [] && o.session == s.(signature := Some(x.signature))
  {
  }

  /** Retry starts one for a new revision of the approval, if the documents carry a deterministic summary. */
  lemma RetryStartsExactly(s: Session, x: Screen)
    requires PastApproval(s, x) && s.job.None? && x.generate.None?
    ensures var o, r, draft := Step(s, Rendered(x)), x.retry, s.comparison.value.draft;
      if s.documents.Some? && s.documents.value.deterministicSummary &&
        r.Some? && r.value.revision.Some? && !r.value.started.reply.Unreachable?
      then |o.starts| == 1 &&
        o.starts[0].job == Job(r.value.started.job, draft, Approval(r.value.revision.value, draft, s.approved), true)
      else o.starts == [] && o.session == s.(signature := Some(x.signature))
  {
  }

  // ------------------------------------------------------------------ over whole runs

  /** Every list of corrections the session holds is complete. */
  ghost predicate Sound(s: Session) {
    && Complete(s.approved)
    && (s.approval.Some? ==> Complete(s.approval.value.corrections))
    && (s.job.Some? ==> Complete(s.job.value.approval.corrections))
  }

  ghost predicate Truthful(e: Event) { e.Rendered? ==> FromRows(e.screen) }

  lemma StepIsSound(s: Session, e: Event)
    requires Sound(s) && Truthful(e)
    ensures Sound(Step(s, e).session)
    ensures forall i :: 0 <= i < |Step(s, e).starts| ==> Complete(Step(s, e).starts[i].job.approval.corrections)
  {
    if e.Rendered? {
      ProblemShows(e.screen);
      ApprovalIsGivenExactly(s, e.screen);
      hide Step, Complete;
      var o := Step(s, e);
      forall i | 0 <= i < |o.starts| ensures Complete(o.starts[i].job.approval.corrections) {
        assert StartedFor(s, e.screen, o, i);
      }
    }
  }

  lemma {:induction false} RunIsSound(events: seq<Event>)
    requires forall i :: 0 <= i < |events| ==> Truthful(events[i])
    ensures Sound(Run(EMPTY, events))
  {
    if |events| == 0 {
      assert Run(EMPTY, events) == EMPTY;
    } else {
      hide Step, Sound, Truthful;
      RunIsSound(events[..|events| - 1]);
      StepIsSound(Run(EMPTY, events[..|events| - 1]), events[|events| - 1]);
    }
  }

  /** In no run does a job start for a flawed review: the corrections it was approved with are complete, and so is every
      row on the screen when no documents exist yet. */
  lemma OnlyCompleteReviewsAreGenerated(events: seq<Event>, x: Screen, rows: seq<Row>, controls: map<string, Controls>)
    requires forall i :: 0 <= i < |events| ==> Truthful(events[i])
    requires RenderedFrom(x, rows, controls)
    ensures forall start :: start in Step(Run(EMPTY, events), Rendered(x)).starts ==>
      && Complete(start.job.approval.corrections)
      && (start.before.documents.None? ==> forall r :: r in rows ==> !Flawed(ChoiceOf(controls[r.key])))
  {
    RunIsSound(events);
    StepIsSound(Run(EMPTY, events), Rendered(x));
    StartsAreFaithful(events, Rendered(x));
    ProblemIsInTheCorrections(rows, controls);
    var o := Step(Run(EMPTY, events), Rendered(x));
    ApprovalIsGivenExactly(Run(EMPTY, events), x);
    hide Step, Run, RenderedFrom, Flawed, ChoiceOf;
    forall start | start in o.starts
      ensures Complete(start.job.approval.corrections)
      ensures start.before.documents.None? ==> forall r :: r in rows ==> !Flawed(ChoiceOf(controls[r.key]))
    {
      var i :| 0 <= i < |o.starts| && o.starts[i] == start;
      assert StartedFor(Run(EMPTY, events), x, o, i);
    }
  }
}
