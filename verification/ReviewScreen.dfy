/**
 The screen's session keys as the script sets and drops them, one method per function of the script. Each method
 is proved against the session machine; a rerun or an escaping error is a "stopped" result.
 */
module ReviewScreen {
  import opened Common
  import opened ReviewCorrections
  import opened ReviewSession

  datatype Finish = StillRunning | Finished | Raised

  /** The API's answer to opening a pipeline job: a comparison, or an error code. */
  datatype Code = CONCURRENT_UPDATE | JOB_VERSION_CHANGED | DESCRIPTION_INSUFFICIENT | OTHER
  datatype OpenReply = Compared(comparison: Comparison) | Refused(code: Code)

  class SessionKeys {
    var signature: Option<nat>
    var comparison: Option<Comparison>
    var approval: Option<Approval>
    var approved: seq<Correction>
    var documents: Option<Documents>
    var job: Option<Job>

    constructor ()
      ensures State() == EMPTY
    {
      signature, comparison, approval, approved, documents, job := None, None, None, [], None, None;
    }

    ghost function State(): Session
      reads this
    {
      Session(signature, comparison, approval, approved, documents, job)
    }

    /** Applies a finished job; the key is dropped before the result is checked. */
    method FinishDocumentJob(reply: JobReply) returns (finish: Finish)
      requires job.Some? && !reply.Unreachable?
      modifies this
      ensures State() == Settle(old(State()), reply)
      ensures finish == match reply case Pending => StillRunning case Malformed => Raised case _ => Finished
    {
      if reply.Pending? { return StillRunning; }
      var popped := job.value;
      job := None;
      if reply.Failed? { return Finished; }
      if reply.Malformed? { return Raised; }
      if popped.revision { approval := Some(popped.approval); }
      documents := Some(Documents(popped.draft, popped.approval, reply.deterministicSummary));
      finish := Finished;
    }

    method StartDocumentJob(x: Screen, draft: nat, under: Approval, revision: bool, started: Started)
      returns (stopped: bool, ghost starts: seq<Start>)
      modifies this
      ensures Outcome(State(), stopped, starts) == StartJob(old(State()), x, draft, under, revision, started)
    {
      stopped, starts := false, [];
      if started.reply.Unreachable? { return; }
      starts := [Start(Job(started.job, draft, under, revision), x.corrections, State())];
      job := Some(Job(started.job, draft, under, revision));
      var finish := FinishDocumentJob(started.reply);
      // An error raised while finishing is caught by the caller; only a running job reruns the page.
      stopped := finish == StillRunning;
    }

    method PollDocumentJob(x: Screen) returns (stopped: bool)
      modifies this
      ensures Outcome(State(), stopped, []) == Poll(old(State()), x)
    {
      if job.None? { return false; }
      if x.poll.Unreachable? { job := None; return false; }
      var finish := FinishDocumentJob(x.poll);
      if finish == Finished { return false; }
      if finish == Raised { return true; }
      if x.tooLong { job := None; return false; }
      stopped := true;
    }

    method RetrySummary(x: Screen, draft: nat) returns (stopped: bool, ghost starts: seq<Start>)
      modifies this
      ensures Outcome(State(), stopped, starts) == ReviewSession.RetrySummary(old(State()), x, draft)
    {
      stopped, starts := false, [];
      if x.retry.None? || x.retry.value.revision.None? { return; }
      var revision := Approval(x.retry.value.revision.value, draft, approved);
      stopped, starts := StartDocumentJob(x, draft, revision, true, x.retry.value.started);
    }

    /** The rest of the rerun: Generate, then Retry once documents exist. */
    method DrawButtons(x: Screen, draft: nat, under: Approval) returns (stopped: bool, ghost starts: seq<Start>)
      modifies this
      ensures Outcome(State(), stopped, starts) == Buttons(old(State()), x, draft, under)
    {
      hide StartJob, ReviewSession.RetrySummary;
      stopped, starts := false, [];
      var running := job.Some?;
      if x.generate.Some? && !running {
        stopped, starts := StartDocumentJob(x, draft, under, false, x.generate.value);
        if stopped { return; }
      }
      if documents.None? || !documents.value.deterministicSummary || running { return; }
      ghost var more: seq<Start>;
      stopped, more := RetrySummary(x, draft);
      starts := starts + more;
    }

    /** One rerun of the flow, with its early returns. */
    method Render(x: Screen) returns (stopped: bool, ghost starts: seq<Start>)
      modifies this
      ensures Outcome(State(), stopped, starts) == Rerun(old(State()), x)
    {
      hide Poll, Buttons;
      stopped, starts := true, [];
      if signature.Some? && signature.value != x.signature {
        comparison, approval, documents := None, None, None;
      }
      signature := Some(x.signature);
      if x.compare.Some? {
        comparison, approval, documents := x.compare, None, None;
        return;
      }
      if comparison.None? { return; }
      var c := comparison.value;
      if !c.contactReady { return; }
      if x.approve.Some? && !x.problem {
        approval := Some(Approval(x.approve.value, c.draft, x.corrections));
        approved := x.corrections;
        documents := None;
      }
      if approval.None? { return; }
      var under := approval.value;
      var locked := documents.Some?;
      if !locked && x.corrections != approved { return; }
      stopped := PollDocumentJob(x);
      if stopped { return; }
      stopped, starts := DrawButtons(x, c.draft, under);
    }

    /** Asks at most twice, the second time only after a concurrent update; `final` marks a refusal that stands. */
    method OpenPipelineJobForReview(replies: seq<OpenReply>) returns (asked: nat, ready: bool, final: bool)
      requires |replies| == 2
      modifies this
      ensures asked == (if replies[0] == Refused(CONCURRENT_UPDATE) then 2 else 1)
      ensures ready == replies[asked - 1].Compared?
      ensures State() == Step(old(State()), Opened(if ready then Some(replies[asked - 1].comparison) else None)).session
      ensures final <==> replies[asked - 1] in {Refused(JOB_VERSION_CHANGED), Refused(DESCRIPTION_INSUFFICIENT)}
    {
      for attempt := 0 to 2
        invariant attempt < 2 && State() == old(State())
        invariant attempt == 1 ==> replies[0] == Refused(CONCURRENT_UPDATE)
      {
        match replies[attempt] {
          case Compared(c) =>
            comparison, approval, documents := Some(c), None, None;
            return attempt + 1, true, false;
          case Refused(code) =>
            if code != CONCURRENT_UPDATE || attempt != 0 {
              return attempt + 1, false, code == JOB_VERSION_CHANGED || code == DESCRIPTION_INSUFFICIENT;
            }
        }
      }
      assert false;
    }
  }
}
