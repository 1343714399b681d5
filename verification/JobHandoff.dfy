/**
 The hand-off of a finished background job to the main loop. Three tasks take
 part: the HTTP server starts a job and binds its id, the job's own task runs it,
 and the main loop polls for its success. Each section under one of the two
 mutexes is one atomic step; the steps of the three tasks interleave freely.

 The same protocol serves both kinds of job. `Name` is what the HTTP task binds
 together with the id; `Early` is the part of the result the job stores in a
 section of its own before the success section stores the rest, `Late`. For a
 keypad link they are the display name, nothing, and the MAC and family; for a
 lock link nothing, the slot, and the name, MAC and model.
 */
module JobHandoff {
  import opened Bytes

  type JobId = nat

  datatype Request<Name, Early, Late> = Request(name: Name, early: Early, late: Late)

  datatype JobState = Idle | Running | Success | Failed

  /** The job object, guarded by its own mutex. */
  datatype Job<Early, Late> = Job(state: JobState, id: Option<JobId>, early: Option<Early>, late: Option<Late>)

  /** The wizard's bookkeeping, guarded by the jobs mutex. */
  datatype Binding<Name> = Binding(id: Option<JobId>, name: Option<Name>, notified: bool)

  /** Where the HTTP task is between the sections of one start request. */
  datatype HttpTask<Name, Early, Late> =
    | HttpIdle
    | Launching(id: JobId, request: Request<Name, Early, Late>)
    | Recording(id: JobId, name: Name)

  /** Where the job's task is; it is gone once it has reported an outcome. */
  datatype JobTask<Name, Early, Late> =
    | NoTask
    | Working(id: JobId, request: Request<Name, Early, Late>)
    | EarlyStored(id: JobId, request: Request<Name, Early, Late>)

  /** Where the main loop is between the sections of one poll. */
  datatype MainTask<Name, Early, Late> =
    | Polling
    | Armed(id: JobId, name: Name)
    | SawSuccess(id: JobId, name: Name)
    | Matched(id: JobId, name: Name, early: Option<Early>, late: Option<Late>)
    | Firing(id: JobId, name: Name, early: Option<Early>, late: Option<Late>)

  datatype Callback<Name, Early, Late> = Callback(id: JobId, name: Name, early: Option<Early>, late: Option<Late>)

  datatype System<Name, Early, Late> = System(
    job: Job<Early, Late>,
    binding: Binding<Name>,
    http: HttpTask<Name, Early, Late>,
    task: JobTask<Name, Early, Late>,
    main: MainTask<Name, Early, Late>,
    fired: seq<Callback<Name, Early, Late>>,
    // the past: what each id was started with, and which ids reached success
    started: map<JobId, Request<Name, Early, Late>>,
    succeeded: set<JobId>)

  datatype Step<Name, Early, Late> =
    | Start(id: JobId, request: Request<Name, Early, Late>)
    | Launch(taskCreated: bool)
    | Bind
    | StoreEarly
    | Succeed
    | Fail
    | PollArm
    | PollState
    | PollSnapshot
    | PollClaim
    | PollFire

  function Initial<N, E, L>(): System<N, E, L> {
    System(Job(Idle, None, None, None), Binding(None, None, false), HttpIdle, NoTask, Polling, [], map[], {})
  }

  /** One atomic section. A step whose task is not at that point does nothing. */
  function Take<N, E, L>(s: System<N, E, L>, step: Step<N, E, L>): System<N, E, L> {
    match step
    case Start(id, request) =>
      if !s.http.HttpIdle? || s.job.state == Running then s  // refused: the current job is untouched
      else
        s.(job := Job(Running, Some(id), None, None), http := Launching(id, request),
           started := s.started[id := request])
    case Launch(taskCreated) =>
      if !s.http.Launching? then s
      else if taskCreated then
        s.(task := Working(s.http.id, s.http.request), http := Recording(s.http.id, s.http.request.name))
      else
        s.(job := s.job.(state := Failed), http := HttpIdle)
    case Bind =>
      if !s.http.Recording? then s
      else s.(binding := Binding(Some(s.http.id), Some(s.http.name), false), http := HttpIdle)
    case StoreEarly =>
      if !s.task.Working? then s
      else s.(job := s.job.(early := Some(s.task.request.early)), task := EarlyStored(s.task.id, s.task.request))
    case Succeed =>
      if !s.task.EarlyStored? then s
      else
        s.(job := s.job.(state := Success, late := Some(s.task.request.late)), task := NoTask,
           succeeded := s.succeeded + {s.task.id})
    case Fail =>
      if s.task.NoTask? then s
      else s.(job := s.job.(state := Failed), task := NoTask)
    case PollArm =>
      if !s.main.Polling? || s.binding.notified || s.binding.id.None? || s.binding.name.None? then s
      else s.(main := Armed(s.binding.id.value, s.binding.name.value))
    case PollState =>
      if !s.main.Armed? then s
      else s.(main := if s.job.state == Success then SawSuccess(s.main.id, s.main.name) else Polling)
    case PollSnapshot =>
      if !s.main.SawSuccess? then s
      else
        s.(main := if s.job.id == Some(s.main.id)
                   then Matched(s.main.id, s.main.name, s.job.early, s.job.late) else Polling)
    case PollClaim =>
      if !s.main.Matched? then s
      else if !s.binding.notified && s.binding.id == Some(s.main.id) then
        s.(binding := s.binding.(notified := true),
           main := Firing(s.main.id, s.main.name, s.main.early, s.main.late))
      else s.(main := Polling)
    case PollFire =>
      if !s.main.Firing? then s
      else
        s.(fired := s.fired + [Callback(s.main.id, s.main.name, s.main.early, s.main.late)], main := Polling)
  }

  /** One whole poll with no other task between its sections. */
  function Poll<N, E, L>(s: System<N, E, L>): System<N, E, L> {
    Take(Take(Take(Take(Take(s, PollArm), PollState), PollSnapshot), PollClaim), PollFire)
  }

  function Run<N, E, L>(steps: seq<Step<N, E, L>>): System<N, E, L> {
    if steps == [] then Initial() else Take(Run(steps[..|steps| - 1]), steps[|steps| - 1])
  }

  /** No id is handed out twice. */
  predicate DistinctIds<N, E, L>(steps: seq<Step<N, E, L>>) {
    forall i, j :: 0 <= i < j < |steps| && steps[i].Start? && steps[j].Start? ==> steps[i].id != steps[j].id
  }

  // ----- Invariant -----------------------------------------------------------

  /** A job of that id was started under that name. */
  predicate NamedAs<N(==), E, L>(s: System<N, E, L>, id: JobId, name: N) {
    id in s.started && s.started[id].name == name
  }

  /** These are the results of the job of that id, which succeeded. */
  predicate ResultsOf<N, E(==), L(==)>(s: System<N, E, L>, id: JobId, early: Option<E>, late: Option<L>) {
    && id in s.started && id in s.succeeded
    && early == Some(s.started[id].early) && late == Some(s.started[id].late)
  }

  /** The job object belongs to the newest job, and only its task can change it. */
  ghost predicate JobFits<N, E, L>(s: System<N, E, L>) {
    && (s.job.id.None? <==> s.job.state == Idle)
    && (s.job.id.Some? ==> s.job.id.value in s.started)
    && (s.job.state == Success ==> s.job.id.Some? && ResultsOf(s, s.job.id.value, s.job.early, s.job.late))
    && (s.job.state == Running <==> s.http.Launching? || !s.task.NoTask?)
    && (s.http.Launching? ==>
          && s.task.NoTask? && s.job.id == Some(s.http.id)
          && s.http.id in s.started && s.started[s.http.id] == s.http.request)
    && (!s.task.NoTask? ==>
          s.job.id == Some(s.task.id) && s.task.id in s.started && s.started[s.task.id] == s.task.request)
    && (s.task.EarlyStored? ==> s.job.early == Some(s.task.request.early))
    && s.succeeded <= s.started.Keys
  }

  /** Whatever the binding or a task remembers of an id is true of that job. */
  ghost predicate NamesFit<N, E, L>(s: System<N, E, L>) {
    && (s.binding.id.Some? <==> s.binding.name.Some?)
    && (s.binding.id.Some? ==> NamedAs(s, s.binding.id.value, s.binding.name.value))
    && (s.http.Recording? ==> NamedAs(s, s.http.id, s.http.name))
    && (!s.main.Polling? ==> NamedAs(s, s.main.id, s.main.name))
    && (s.main.Firing? ==> ResultsOf(s, s.main.id, s.main.early, s.main.late))
    && (s.main.Matched? ==> ResultsOf(s, s.main.id, s.main.early, s.main.late))
    // a success seen while an id is armed is still there if that id is still current
    && (s.main.SawSuccess? && s.job.id == Some(s.main.id) ==> s.job.state == Success)
  }

  /** An id that is being started has never been bound. */
  ghost predicate Unclaimed<N, E, L>(s: System<N, E, L>, id: JobId) {
    && s.binding.id != Some(id)
    && (s.main.Firing? ==> s.main.id != id)
    && forall i :: 0 <= i < |s.fired| ==> s.fired[i].id != id
  }

  /** The callback of that id has fired or is about to. */
  predicate Claimed<N, E, L>(s: System<N, E, L>, id: JobId) {
    (s.main.Firing? && s.main.id == id) || exists i :: 0 <= i < |s.fired| && s.fired[i].id == id
  }

  /** An id claimed once is not claimed again. */
  ghost predicate ClaimsFit<N, E, L>(s: System<N, E, L>) {
    && (forall i, j :: 0 <= i < j < |s.fired| ==> s.fired[i].id != s.fired[j].id)
    && (s.main.Firing? ==> forall i :: 0 <= i < |s.fired| ==> s.fired[i].id != s.main.id)
    && (s.main.Firing? ==> s.binding.notified || s.binding.id != Some(s.main.id))
    && (!s.binding.notified && s.binding.id.Some? ==>
          forall i :: 0 <= i < |s.fired| ==> s.fired[i].id != s.binding.id.value)
    && (s.http.Launching? || s.http.Recording? ==> Unclaimed(s, s.http.id))
    && (forall i :: 0 <= i < |s.fired| ==> s.fired[i].id in s.started)
  }

  ghost predicate FiredFit<N, E, L>(s: System<N, E, L>) {
    forall i :: 0 <= i < |s.fired| ==>
                  var c := s.fired[i];
                  NamedAs(s, c.id, c.name) && ResultsOf(s, c.id, c.early, c.late)
  }

  /** A binding is marked as reported only once its callback was claimed. */
  predicate ReportsFit<N, E, L>(s: System<N, E, L>) {
    s.binding.notified ==> s.binding.id.Some? && Claimed(s, s.binding.id.value)
  }

  ghost predicate Inv<N, E, L>(s: System<N, E, L>) {
    JobFits(s) && NamesFit(s) && ClaimsFit(s) && FiredFit(s) && ReportsFit(s)
  }

  predicate FreshStart<N, E, L>(s: System<N, E, L>, step: Step<N, E, L>) {
    step.Start? ==> step.id !in s.started
  }

  lemma JobStep<N, E, L>(s: System<N, E, L>, step: Step<N, E, L>)
    requires Inv(s) && FreshStart(s, step)
    ensures JobFits(Take(s, step))
  {
  }

  lemma NamesStep<N, E, L>(s: System<N, E, L>, step: Step<N, E, L>)
    requires Inv(s) && FreshStart(s, step)
    ensures NamesFit(Take(s, step))
  {
  }

  lemma ClaimsStep<N, E, L>(s: System<N, E, L>, step: Step<N, E, L>)
    requires Inv(s) && FreshStart(s, step)
    ensures ClaimsFit(Take(s, step))
  {
  }

  lemma FiredStep<N, E, L>(s: System<N, E, L>, step: Step<N, E, L>)
    requires Inv(s) && FreshStart(s, step)
    ensures FiredFit(Take(s, step))
  {
  }

  lemma ReportsStep<N, E, L>(s: System<N, E, L>, step: Step<N, E, L>)
    requires ReportsFit(s)
    ensures ReportsFit(Take(s, step))
  {
    var t := Take(s, step);
    if step.PollFire? && s.main.Firing? {
      assert t.fired[|s.fired|].id == s.main.id;
    }
    if s.binding.notified && exists i :: 0 <= i < |s.fired| && s.fired[i].id == s.binding.id.value {
      var i :| 0 <= i < |s.fired| && s.fired[i].id == s.binding.id.value;
      assert t.fired[i].id == s.binding.id.value;
    }
  }

  // ----- Whole runs ----------------------------------------------------------

  lemma RunExtends<N, E, L>(steps: seq<Step<N, E, L>>, step: Step<N, E, L>)
    ensures Run(steps + [step]) == Take(Run(steps), step)
  {
    assert (steps + [step])[..|steps|] == steps;
  }

  /** Every id in the record was given to a start request, with that request. */
  lemma {:induction false} StartedByRequest<N, E, L>(steps: seq<Step<N, E, L>>, id: JobId)
    requires id in Run(steps).started
    ensures exists i :: 0 <= i < |steps| && steps[i] == Start(id, Run(steps).started[id])
    decreases |steps|
  {
    var last := |steps| - 1;
    var before := Run(steps[..last]);
    if steps[last].Start? && steps[last].id == id && id in Take(before, steps[last]).started &&
       Run(steps).started[id] == steps[last].request {
      assert steps[last] == Start(id, Run(steps).started[id]);
    } else {
      StartedByRequest(steps[..last], id);
      var i :| 0 <= i < last && steps[..last][i] == Start(id, before.started[id]);
      assert steps[i] == Start(id, Run(steps).started[id]);
    }
  }

  lemma NewIdUnknown<N, E, L>(steps: seq<Step<N, E, L>>, step: Step<N, E, L>)
    requires DistinctIds(steps + [step])
    ensures FreshStart(Run(steps), step) && DistinctIds(steps)
  {
    var ext := steps + [step];
    assert ext[|steps|] == step;
    assert forall k :: 0 <= k < |steps| ==> ext[k] == steps[k];
    if step.Start? {
      assert forall k :: 0 <= k < |steps| && steps[k].Start? ==> steps[k].id != step.id;
      if step.id in Run(steps).started {
        StartedByRequest(steps, step.id);
      }
    }
  }

  lemma {:induction false} RunInv<N, E, L>(steps: seq<Step<N, E, L>>)
    requires DistinctIds(steps)
    ensures Inv(Run(steps))
    decreases |steps|
  {
    if steps != [] {
      var last := |steps| - 1;
      var s := Run(steps[..last]);
      RunInv(steps[..last]);
      assert steps == steps[..last] + [steps[last]];
      NewIdUnknown(steps[..last], steps[last]);
      JobStep(s, steps[last]);
      NamesStep(s, steps[last]);
      ClaimsStep(s, steps[last]);
      FiredStep(s, steps[last]);
      ReportsStep(s, steps[last]);
    }
  }

  /** In every interleaving the success callback fires at most once for a job, only
      for a job that succeeded, and its name and results are all those of the one
      start request of that id. */
  lemma CallbacksExact<N, E, L>(steps: seq<Step<N, E, L>>, i: nat)
    requires DistinctIds(steps) && i < |Run(steps).fired|
    ensures var c := Run(steps).fired[i];
            && c.id in Run(steps).succeeded
            && (forall j: nat :: j < |Run(steps).fired| && Run(steps).fired[j].id == c.id ==> j == i)
            && exists k, request :: 0 <= k < |steps| && steps[k] == Start(c.id, request) &&
                 c == Callback(c.id, request.name, Some(request.early), Some(request.late))
  {
    RunInv(steps);
    var s := Run(steps);
    var c := s.fired[i];
    StartedByRequest(steps, c.id);
    assert c == Callback(c.id, s.started[c.id].name, Some(s.started[c.id].early), Some(s.started[c.id].late));
  }

  /** Once a job has ended, nothing writes its status until another one starts. */
  lemma EndedJobIsFinal<N, E, L>(steps: seq<Step<N, E, L>>, step: Step<N, E, L>)
    requires DistinctIds(steps) && Run(steps).job.state in {Success, Failed} && !step.Start?
    ensures Take(Run(steps), step).job == Run(steps).job
  {
    RunInv(steps);
  }

  /** A start is refused exactly while a job is running or another start request
      is being served, and then the current job is untouched; a job that did start
      is the only one running. */
  lemma StartRefused<N, E, L>(steps: seq<Step<N, E, L>>, id: JobId, request: Request<N, E, L>)
    requires DistinctIds(steps + [Start(id, request)])
    ensures var s, t := Run(steps), Run(steps + [Start(id, request)]);
            if s.job.state == Running || !s.http.HttpIdle? then t == s
            else t.job == Job(Running, Some(id), None, None) && t.task.NoTask? && id !in s.started
  {
    RunExtends(steps, Start(id, request));
    NewIdUnknown(steps, Start(id, request));
    RunInv(steps);
  }

  lemma PrefixIds<N, E, L>(steps: seq<Step<N, E, L>>, n: nat)
    requires DistinctIds(steps) && n <= |steps|
    ensures DistinctIds(steps[..n])
    ensures n > 0 ==> Run(steps[..n]) == Take(Run(steps[..n - 1]), steps[n - 1])
  {
    if n > 0 {
      assert steps[..n][..n - 1] == steps[..n - 1];
    }
  }

  lemma JobOf<N, E, L>(steps: seq<Step<N, E, L>>, n: nat)
    requires DistinctIds(steps) && n <= |steps|
    ensures Run(steps[..n]).job.id.None? <==> Run(steps[..n]).job.state == Idle
  {
    PrefixIds(steps, n);
    RunInv(steps[..n]);
  }

  /** What it takes for the job object to pass to another job: a start, accepted
      because the job before it is over. */
  lemma ReplacedByStart<N, E, L>(steps: seq<Step<N, E, L>>, n: nat)
    requires DistinctIds(steps) && n < |steps| && Run(steps[..n]).job.id.Some?
    requires Run(steps[..n + 1]).job.id != Run(steps[..n]).job.id
    ensures steps[n].Start? && Run(steps[..n]).job.state in {Success, Failed}
  {
    PrefixIds(steps, n);
    PrefixIds(steps, n + 1);
    JobOf(steps, n);
    if steps[n].Start? {
      assert steps[..n + 1] == steps[..n] + [Start(steps[n].id, steps[n].request)];
      StartRefused(steps[..n], steps[n].id, steps[n].request);
    }
  }

  /** After the first `m` steps the job of that id is over. */
  predicate EndedBy<N, E, L>(steps: seq<Step<N, E, L>>, m: nat, id: Option<JobId>)
    requires m <= |steps|
  {
    Run(steps[..m]).job.id == id && Run(steps[..m]).job.state in {Success, Failed}
  }

  /** A running job is never replaced: in every interleaving, before another job is
      seen in its place the job has ended, in success or in failure. */
  lemma {:induction false} RunningJobEndsFirst<N, E, L>(steps: seq<Step<N, E, L>>, i: nat, j: nat)
    requires DistinctIds(steps) && i <= j <= |steps|
    requires Run(steps[..i]).job.state == Running
    requires Run(steps[..j]).job.id != Run(steps[..i]).job.id
    ensures exists m :: i < m < j && EndedBy(steps, m, Run(steps[..i]).job.id)
    decreases j
  {
    JobOf(steps, i);
    if Run(steps[..j - 1]).job.id == Run(steps[..i]).job.id {
      ReplacedByStart(steps, j - 1);
      assert EndedBy(steps, j - 1, Run(steps[..i]).job.id);
    } else {
      RunningJobEndsFirst(steps, i, j - 1);
    }
  }

  // ----- Delivery ------------------------------------------------------------

  /** The success of the bound job has not been reported yet. */
  predicate Due<N, E, L>(s: System<N, E, L>) {
    && s.job.state == Success && s.job.id.Some? && s.binding.id == s.job.id
    && forall i :: 0 <= i < |s.fired| ==> s.fired[i].id != s.job.id.value
  }

  /** The callback a request asks for. */
  function CallbackOf<N, E, L>(id: JobId, request: Request<N, E, L>): Callback<N, E, L> {
    Callback(id, request.name, Some(request.early), Some(request.late))
  }

  lemma DueIsArmed<N, E, L>(s: System<N, E, L>)
    requires Inv(s) && s.main.Polling?
    ensures Due(s) <==> !s.binding.notified && s.job.state == Success && s.job.id.Some? && s.binding.id == s.job.id
  {
  }

  lemma DueCallback<N, E, L>(s: System<N, E, L>)
    requires Inv(s) && Due(s)
    ensures var id := s.job.id.value;
            && id in s.started && s.binding.name.Some?
            && Callback(id, s.binding.name.value, s.job.early, s.job.late) == CallbackOf(id, s.started[id])
  {
  }

  /** After any schedule, one whole poll fires exactly when the success of the bound
      job has not been reported yet, and then exactly the callback of that job. */
  lemma PollDelivers<N, E, L>(steps: seq<Step<N, E, L>>)
    requires DistinctIds(steps) && Run(steps).main.Polling?
    ensures var s := Run(steps);
            if Due(s) then
              var id := s.job.id.value;
              id in s.started && Poll(s).fired == s.fired + [CallbackOf(id, s.started[id])]
            else Poll(s).fired == s.fired
  {
    var s := Run(steps);
    RunInv(steps);
    DueIsArmed(s);
    if Due(s) {
      DueCallback(s);
    }
  }

  /** Where a started job is on its way to being bound, as long as no other starts. */
  ghost predicate OnItsWay<N, E, L>(s: System<N, E, L>, id: JobId, request: Request<N, E, L>) {
    && s.job.id == Some(id) && id in s.started && s.started[id] == request
    && match s.http
       case Launching(i, r) => i == id && r == request
       case Recording(i, name) => i == id && name == request.name
       case HttpIdle => s.binding.id == Some(id) || s.job.state == Failed
  }

  lemma StaysOnItsWay<N, E, L>(s: System<N, E, L>, step: Step<N, E, L>, id: JobId, request: Request<N, E, L>)
    requires Inv(s) && OnItsWay(s, id, request) && !step.Start?
    ensures OnItsWay(Take(s, step), id, request)
  {
  }

  /** The start at position `a` was accepted, and no other start came after it. */
  predicate LastStart<N, E, L>(steps: seq<Step<N, E, L>>, a: nat)
    requires a < |steps|
  {
    && steps[a].Start? && Run(steps[..a]).http.HttpIdle? && Run(steps[..a]).job.state != Running
    && forall k :: a < k < |steps| ==> !steps[k].Start?
  }

  lemma {:induction false} StartedIsOnItsWay<N, E, L>(steps: seq<Step<N, E, L>>, a: nat, n: nat)
    requires DistinctIds(steps) && a < n <= |steps| && LastStart(steps, a)
    ensures OnItsWay(Run(steps[..n]), steps[a].id, steps[a].request)
    decreases n
  {
    PrefixIds(steps, n);
    if n > a + 1 {
      StartedIsOnItsWay(steps, a, n - 1);
      PrefixIds(steps, n - 1);
      RunInv(steps[..n - 1]);
      StaysOnItsWay(Run(steps[..n - 1]), steps[n - 1], steps[a].id, steps[a].request);
    }
  }

  /** In every interleaving in which no other job is started, a job that was started
      and has succeeded is reported by the end of the next whole poll, once its start
      request has been served: with its own name and results. */
  lemma JobDelivered<N, E, L>(steps: seq<Step<N, E, L>>, a: nat)
    requires DistinctIds(steps) && a < |steps| && LastStart(steps, a)
    requires var s := Run(steps); s.http.HttpIdle? && s.main.Polling? && s.job.state == Success
    ensures CallbackOf(steps[a].id, steps[a].request) in Poll(Run(steps)).fired
  {
    var s := Run(steps);
    var id := steps[a].id;
    assert steps[..|steps|] == steps;
    StartedIsOnItsWay(steps, a, |steps|);
    RunInv(steps);
    PollDelivers(steps);
    if Due(s) {
      assert Poll(s).fired[|s.fired|] == CallbackOf(id, steps[a].request);
    } else {
      var i :| 0 <= i < |s.fired| && s.fired[i].id == id;
      assert s.fired[i] == CallbackOf(id, steps[a].request);
    }
  }

  /** A start request, its job and one poll, with nothing in between. */
  function Undisturbed<N, E, L>(id: JobId, request: Request<N, E, L>): seq<Step<N, E, L>> {
    [Start(id, request), Launch(true), Bind, StoreEarly, Succeed]
  }

  lemma RunsUndisturbed<N, E, L>(steps: seq<Step<N, E, L>>, id: JobId, request: Request<N, E, L>)
    ensures Run(steps + Undisturbed(id, request)) ==
            Take(Take(Take(Take(Take(Run(steps), Start(id, request)), Launch(true)), Bind), StoreEarly), Succeed)
  {
    var one := steps + [Start(id, request)];
    var two := one + [Launch(true)];
    var three := two + [Bind];
    var four := three + [StoreEarly];
    assert steps + Undisturbed(id, request) == four + [Succeed];
    RunExtends(steps, Start(id, request));
    RunExtends(one, Launch(true));
    RunExtends(two, Bind);
    RunExtends(three, StoreEarly);
    RunExtends(four, Succeed);
  }

  /** One whole poll of a bound, unreported success. */
  lemma PollFires<N, E, L>(s: System<N, E, L>, id: JobId, name: N)
    requires s.main.Polling? && s.binding == Binding(Some(id), Some(name), false)
    requires s.job.state == Success && s.job.id == Some(id)
    ensures Poll(s).fired == s.fired + [Callback(id, name, s.job.early, s.job.late)]
  {
  }

  lemma EndsBound<N, E, L>(s: System<N, E, L>, id: JobId, request: Request<N, E, L>)
    requires s.http.HttpIdle? && s.job.state != Running
    ensures var t := Take(Take(Take(Take(Take(s, Start(id, request)), Launch(true)), Bind), StoreEarly), Succeed);
            && t.main == s.main && t.fired == s.fired && t.binding == Binding(Some(id), Some(request.name), false)
            && t.job == Job(Success, Some(id), Some(request.early), Some(request.late))
  {
  }

  /** Whatever came before, a job that is started while none is running, succeeds and is
      polled appends exactly its own callback. */
  lemma UndisturbedJob<N, E, L>(steps: seq<Step<N, E, L>>, id: JobId, request: Request<N, E, L>)
    requires var s := Run(steps); s.http.HttpIdle? && s.main.Polling? && s.job.state != Running
    ensures Poll(Run(steps + Undisturbed(id, request))).fired ==
            Run(steps).fired + [Callback(id, request.name, Some(request.early), Some(request.late))]
  {
    RunsUndisturbed(steps, id, request);
    EndsBound(Run(steps), id, request);
    PollFires(Run(steps + Undisturbed(id, request)), id, request.name);
  }
}
