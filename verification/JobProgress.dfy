/** The status record of a background job, and what a reader can rely on about
    its progress. */
module JobProgress {
  import opened Bytes
  import opened JobHandoff

  datatype Status = Status(state: JobState, step: nat, total: nat, jobId: Option<JobId>)

  const NO_STATUS := Status(Idle, 0, 0, None)

  /** One lawful change of status: a new job replaces one that is not running, or
      the running job moves on, never backwards, staying below its total until it
      ends, and reaching exactly its total if it succeeds. */
  predicate Advances(a: Status, b: Status) {
    if a.state != Running then
      b.state == Running && b.step == 0 && b.total > 0
    else
      && b.jobId == a.jobId && b.total == a.total
      && match b.state
         case Idle => false
         case Running => a.step <= b.step < b.total
         case Success => b.step == b.total
         case Failed => b.step == a.step
  }

  /** Every change in a history of statuses was lawful. */
  predicate Lawful(history: seq<Status>) {
    forall i :: 0 < i < |history| ==> Advances(history[i - 1], history[i])
  }

  /** In a lawful history the steps of one job never decrease: between two
      statuses of a job with no other start between them. */
  lemma {:induction false} StepsNeverDecrease(history: seq<Status>, i: nat, j: nat)
    requires Lawful(history) && i <= j < |history|
    requires history[i].state == Running && history[i].step < history[i].total
    requires forall k :: i < k < j ==> history[k].state == Running
    requires history[j].state != Idle
    ensures history[i].step <= history[j].step
    ensures history[i].jobId == history[j].jobId && history[i].total == history[j].total
    ensures history[j].state == Running ==> history[j].step < history[j].total
    ensures history[j].state == Success ==> history[j].step == history[j].total
    decreases j - i
  {
    if i < j {
      assert Advances(history[j - 1], history[j]);
      StepsNeverDecrease(history, i, j - 1);
    }
  }

  class BackgroundJob {
    var status: Status

    /** Every status ever held, oldest first; what any reader may have seen. */
    ghost var history: seq<Status>

    ghost predicate Recorded()
      reads this
    {
      history != [] && history[|history| - 1] == status
    }

    /** The job is running and everything so far was lawful. */
    ghost predicate OnCourse()
      reads this
    {
      Recorded() && Lawful(history) && status.state == Running && status.step < status.total
    }

    constructor ()
      ensures Recorded() && Lawful(history) && status == NO_STATUS
    {
      status := NO_STATUS;
      history := [NO_STATUS];
    }

    /** Refused while a job is running, and then nothing changes. */
    method StartJob(id: JobId, total: nat) returns (started: bool)
      requires Recorded() && Lawful(history) && total > 0
      modifies this
      ensures Recorded() && Lawful(history)
      ensures started <==> old(status.state) != Running
      ensures if started then status == Status(Running, 0, total, Some(id)) && history == old(history) + [status]
              else status == old(status) && history == old(history)
    {
      if status.state == Running {
        return false;
      }
      status := Status(Running, 0, total, Some(id));
      history := history + [status];
      return true;
    }

    method MarkStep(step: nat)
      modifies this
      ensures status == old(status).(step := step) && history == old(history) + [status]
      ensures old(OnCourse()) && old(status.step) <= step < old(status.total) ==> OnCourse()
    {
      status := status.(step := step);
      history := history + [status];
    }

    method MarkFailed()
      modifies this
      ensures old(OnCourse()) ==> Recorded() && Lawful(history)
      ensures status == old(status).(state := Failed) && history == old(history) + [status]
    {
      status := status.(state := Failed);
      history := history + [status];
    }

    method MarkSuccess()
      modifies this
      ensures old(OnCourse()) ==> Recorded() && Lawful(history)
      ensures status == old(status).(state := Success, step := old(status).total) && history == old(history) + [status]
    {
      status := status.(state := Success, step := status.total);
      history := history + [status];
    }
  }
}
