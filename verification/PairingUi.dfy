/** The wizard's own half of the hand-off, in place: binding a started job and
    polling for its success, as `JobHandoff` breaks them into atomic sections. */
module PairingUi {
  import opened Bytes
  import opened JobHandoff

  class PairingUi<N, E, L> {
    var job: Job<E, L>
    var jobId: Option<JobId>
    var jobName: Option<N>
    var successNotified: bool
    var fired: seq<Callback<N, E, L>>

    ghost var http: HttpTask<N, E, L>
    ghost var task: JobTask<N, E, L>
    ghost var started: map<JobId, Request<N, E, L>>
    ghost var succeeded: set<JobId>

    /** The system with the main loop between two polls. */
    ghost function Abstract(): System<N, E, L>
      reads this
    {
      System(job, Binding(jobId, jobName, successNotified), http, task, Polling, fired, started, succeeded)
    }

    constructor ()
      ensures Abstract() == Initial<N, E, L>()
    {
      job := Job(Idle, None, None, None);
      jobId, jobName, successNotified := None, None, false;
      fired := [];
      http, task, started, succeeded := HttpIdle, NoTask, map[], {};
    }

    /** The last section of a start request: name and id together, then the flag. */
    method BindJob(id: JobId, name: N)
      requires http == Recording(id, name)
      modifies this`jobId, this`jobName, this`successNotified, this`http
      ensures Abstract() == Take(old(Abstract()), Bind)
      ensures jobId == Some(id) && jobName == Some(name) && !successNotified
    {
      jobName := Some(name);
      jobId := Some(id);
      successNotified := false;
      http := HttpIdle;
    }

    /** Fires the callback at most once, from a snapshot of the job it was armed for. */
    method PollJobs()
      requires jobId.Some? <==> jobName.Some?
      modifies this`successNotified, this`fired
      ensures Abstract() == Poll(old(Abstract()))
      ensures fired == old(fired) || (|fired| == |old(fired)| + 1 && successNotified && !old(successNotified))
      ensures fired != old(fired) <==>
              !old(successNotified) && jobId.Some? && job.state == Success && job.id == jobId
    {
      var armed := !successNotified && jobId.Some?;
      var armedId, armedName := jobId, jobName;
      if armed && job.state == Success {
        var st := job;
        if st.id == armedId {
          var notify := false;
          if !successNotified && jobId == st.id {
            successNotified := true;
            notify := true;
          }
          if notify {
            fired := fired + [Callback(armedId.value, armedName.value, st.early, st.late)];
          }
        }
      }
    }
  }
}
