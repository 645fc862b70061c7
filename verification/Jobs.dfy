/**
 The in-memory job registry. Each public call and each callback of a running job is one event; the
 registry's meaning is the fold of its events, and `JobManager` is proved to follow it step by step.
 */
module Jobs {
  import opened Common
  import opened JsValues
  import Json
  import UpidHandle

  datatype JobState = Pending | Running | Completed | Failed | Cancelled

  datatype ResultRef = ProxmoxUpid(upid: Json.JsString) | Memory(jobId: string)

  datatype Progress = Progress(progress: real, total: Option<real>, message: Option<string>)

  /** The value of a job record at one moment; an absent result is `Undefined`. */
  datatype Job = Job(
    jobId: string, target: UpidHandle.Target, operation: Json.JsString, state: JobState,
    startedAt: nat, updatedAt: nat, progress: Option<Progress>,
    logsAvailable: bool, logs: seq<string>,
    relatedUpid: Option<Json.JsString>, resultRef: Option<ResultRef>,
    result: JsValue, error: Option<string>, artifacts: Option<seq<string>>)

  /** For each controller whether it was aborted, for each completion whether it has settled. */
  datatype State = State(jobs: map<string, Job>, controllers: map<string, bool>, completions: map<string, bool>)

  datatype Event =
    | Create(id: string, target: UpidHandle.Target, operation: Json.JsString, upid: Option<Json.JsString>, at: nat)
    | Run(id: string, at: nat)
    | AppendLog(id: string, message: string, at: nat)
    | SetProgress(id: string, progress: Progress, at: nat)
    | SetRelatedUpid(id: string, upidSet: Json.JsString, at: nat)
    | SetArtifacts(id: string, artifacts: seq<string>, at: nat)
    | Return(id: string, result: JsValue, at: nat)
    | Throw(id: string, message: string, result: JsValue, at: nat)
    | Abort(id: string)

  const Initial := State(map[], map[], map[])

  predicate IsTerminal(s: JobState) {
    s.Completed? || s.Failed? || s.Cancelled?
  }

  // -------------------------------------------------------------- effects

  /** An empty UPID counts as none. */
  function NewJob(e: Event): Job
    requires e.Create?
  {
    var upid := if e.upid.Some? && e.upid.value == [] then None else e.upid;
    Job(e.id, e.target, e.operation, Pending, e.at, e.at, None, false, [],
        upid, if upid.Some? then Some(ProxmoxUpid(upid.value)) else None, Undefined, None, None)
  }

  function Started(job: Job, at: nat): Job {
    job.(state := Running, updatedAt := at)
  }

  function Settled(job: Job): Job {
    if job.resultRef.None? then job.(resultRef := Some(Memory(job.jobId))) else job
  }

  function Returned(job: Job, result: JsValue, at: nat): Job {
    Settled(job.(state := Completed, result := result, updatedAt := at))
  }

  /** Only a thrown result, not a thrown message alone, gives a job something to refer to. */
  function Thrown(job: Job, aborted: bool, message: string, result: JsValue, at: nat): Job {
    var ended := job.(state := if aborted then Cancelled else Failed, error := Some(message), updatedAt := at);
    if result.Undefined? then ended else Settled(ended.(result := result))
  }

  function Changed(job: Job, e: Event): Job
    requires e.AppendLog? || e.SetProgress? || e.SetRelatedUpid? || e.SetArtifacts?
  {
    var touched := job.(updatedAt := e.at);
    match e
    case AppendLog(_, message, _) => touched.(logs := job.logs + [message], logsAvailable := true)
    case SetProgress(_, progress, _) => touched.(progress := Some(progress))
    case SetRelatedUpid(_, upid, _) => touched.(relatedUpid := Some(upid), resultRef := Some(ProxmoxUpid(upid)))
    case SetArtifacts(_, artifacts, _) => touched.(artifacts := Some(artifacts))
  }

  /** What one event does to the registry; `get` throws on an unknown id, which leaves everything as it is. */
  function Apply(s: State, e: Event): State {
    if e.Create? then s.(jobs := s.jobs[e.id := NewJob(e)])
    else if e.Abort? then if e.id in s.controllers then s.(controllers := s.controllers[e.id := true]) else s
    else if e.id !in s.jobs then s
    else
      var job := s.jobs[e.id];
      if e.Run? then
        State(s.jobs[e.id := Started(job, e.at)],
              s.controllers[e.id := false], s.completions[e.id := false])
      else if e.Return? then
        State(s.jobs[e.id := Returned(job, e.result, e.at)], s.controllers - {e.id}, s.completions[e.id := true])
      else if e.Throw? then
        var aborted := e.id in s.controllers && s.controllers[e.id];
        State(s.jobs[e.id := Thrown(job, aborted, e.message, e.result, e.at)],
              s.controllers - {e.id}, s.completions[e.id := true])
      else s.(jobs := s.jobs[e.id := Changed(job, e)])
  }

  lemma ApplyRun(s: State, id: string, at: nat)
    ensures Apply(s, Run(id, at))
            == if id !in s.jobs then s
               else State(s.jobs[id := Started(s.jobs[id], at)], s.controllers[id := false], s.completions[id := false])
  {
  }

  /**
   The runs considered: every id is created once and then run once, a job ends only while it runs, and
   its callbacks may be called at any time after it was started. Anything may be aborted at any time.
   */
  predicate Enabled(s: State, e: Event) {
    if e.Create? then e.id !in s.jobs
    else if e.Abort? then true
    else if e.Run? then e.id in s.jobs && e.id !in s.completions
    else if e.Return? || e.Throw? then e.id in s.jobs && e.id in s.completions && !s.completions[e.id]
    else e.id in s.jobs && e.id in s.completions
  }

  predicate IsRun(es: seq<Event>)
    decreases |es|
  {
    es == [] || (IsRun(es[..|es| - 1]) && Enabled(After(es[..|es| - 1]), es[|es| - 1]))
  }

  function After(es: seq<Event>): State
    decreases |es|
  {
    if es == [] then Initial else Apply(After(es[..|es| - 1]), es[|es| - 1])
  }

  // ------------------------------------------------- what every run keeps

  /** One record, with whether it has a controller and, if it has a completion, whether that settled. */
  predicate JobOk(job: Job, id: string, controlled: bool, completion: Option<bool>) {
    && job.jobId == id
    && (controlled <==> job.state.Running?)
    && (completion.Some? <==> !job.state.Pending?)
    && (completion == Some(true) <==> IsTerminal(job.state))
    && (job.state.Completed? ==> job.resultRef.Some?)
    && (!job.result.Undefined? ==> job.resultRef.Some? && IsTerminal(job.state))
    && (job.error.Some? <==> job.state.Failed? || job.state.Cancelled?)
    && (job.relatedUpid.Some? ==> job.resultRef == Some(ProxmoxUpid(job.relatedUpid.value)))
    && (job.relatedUpid.None? ==> job.resultRef == None || job.resultRef == Some(Memory(id)))
    && (job.logsAvailable <==> job.logs != [])
  }

  function CompletionOf(s: State, id: string): Option<bool> {
    if id in s.completions then Some(s.completions[id]) else None
  }

  predicate JobInv(s: State, id: string)
    requires id in s.jobs
  {
    JobOk(s.jobs[id], id, id in s.controllers, CompletionOf(s, id))
  }

  predicate Inv(s: State) {
    && (forall id :: id in s.jobs ==> JobInv(s, id))
    && (forall id :: id in s.controllers ==> id in s.jobs)
    && (forall id :: id in s.completions ==> id in s.jobs)
  }

  lemma CallbackKeeps(job: Job, e: Event, id: string, controlled: bool, completion: Option<bool>)
    requires JobOk(job, id, controlled, completion)
    requires e.AppendLog? || e.SetProgress? || e.SetRelatedUpid? || e.SetArtifacts?
    ensures JobOk(Changed(job, e), id, controlled, completion)
  {
  }

  lemma EndKeeps(job: Job, id: string, aborted: bool, message: string, result: JsValue, at: nat)
    requires JobOk(job, id, true, Some(false))
    ensures JobOk(Returned(job, result, at), id, false, Some(true))
    ensures JobOk(Thrown(job, aborted, message, result, at), id, false, Some(true))
  {
  }

  lemma NewKeeps(e: Event)
    requires e.Create?
    ensures JobOk(NewJob(e), e.id, false, None)
  {
  }

  lemma StepKeepsOne(s: State, e: Event)
    requires Inv(s) && Enabled(s, e) && e.id in Apply(s, e).jobs
    ensures JobInv(Apply(s, e), e.id)
  {
    if e.Create? {
      NewKeeps(e);
    } else {
      assert JobInv(s, e.id);
      if e.Return? || e.Throw? {
        var aborted := e.id in s.controllers && s.controllers[e.id];
        EndKeeps(s.jobs[e.id], e.id, aborted, if e.Throw? then e.message else "", e.result, e.at);
      } else if !e.Run? && !e.Abort? {
        CallbackKeeps(s.jobs[e.id], e, e.id, e.id in s.controllers, CompletionOf(s, e.id));
      }
    }
    hide NewJob, Returned, Thrown, Changed;
  }

  lemma StepKeepsOthers(s: State, e: Event, id: string)
    requires Inv(s) && Enabled(s, e) && id != e.id
    ensures id in s.jobs <==> id in Apply(s, e).jobs
    ensures id in s.jobs ==> Apply(s, e).jobs[id] == s.jobs[id] && JobInv(Apply(s, e), id)
  {
    hide NewJob, Returned, Thrown, Changed;
    if id in s.jobs {
      assert JobInv(s, id);
    }
  }

  lemma StepKeepsInv(s: State, e: Event)
    requires Inv(s) && Enabled(s, e)
    ensures Inv(Apply(s, e))
  {
    var t := Apply(s, e);
    forall id | id in t.jobs ensures JobInv(t, id) {
      if id == e.id { StepKeepsOne(s, e); } else { StepKeepsOthers(s, e, id); }
    }
    hide NewJob, Returned, Thrown, Changed, JobInv;
  }

  /** Every run keeps the registry consistent. */
  lemma {:induction false} ReachableInv(es: seq<Event>)
    requires IsRun(es)
    ensures Inv(After(es))
    decreases |es|
  {
    if es != [] {
      ReachableInv(es[..|es| - 1]);
      StepKeepsInv(After(es[..|es| - 1]), es[|es| - 1]);
    }
  }

  // ------------------------------------------------------- states move on

  function Rank(s: JobState): nat {
    if s.Pending? then 0 else if s.Running? then 1 else 2
  }

  /** How a job may have changed: forward, its outcome frozen once it has ended, its log only longer. */
  predicate Advanced(before: Job, after: Job) {
    && Rank(before.state) <= Rank(after.state)
    && (IsTerminal(before.state) ==>
          after.state == before.state && after.result == before.result && after.error == before.error)
    && before.logs <= after.logs
    && after.jobId == before.jobId && after.target == before.target && after.operation == before.operation
    && after.startedAt == before.startedAt
    && (before.relatedUpid.Some? ==> after.relatedUpid.Some?)
    && (before.resultRef.Some? ==> after.resultRef.Some?)
  }

  lemma CallbackAdvances(job: Job, e: Event)
    requires e.AppendLog? || e.SetProgress? || e.SetRelatedUpid? || e.SetArtifacts?
    ensures Advanced(job, Changed(job, e))
  {
  }

  lemma EndAdvances(job: Job, aborted: bool, message: string, result: JsValue, at: nat)
    requires job.state.Running?
    ensures Advanced(job, Returned(job, result, at)) && Advanced(job, Thrown(job, aborted, message, result, at))
  {
  }

  lemma OwnStepAdvances(s: State, e: Event)
    requires e.id in s.jobs && JobInv(s, e.id) && Enabled(s, e)
    ensures e.id in Apply(s, e).jobs && Advanced(s.jobs[e.id], Apply(s, e).jobs[e.id])
  {
    var job := s.jobs[e.id];
    if e.Return? || e.Throw? {
      var aborted := e.id in s.controllers && s.controllers[e.id];
      EndAdvances(job, aborted, if e.Throw? then e.message else "", e.result, e.at);
      hide Returned, Thrown, Changed, Advanced;
    } else if !e.Create? && !e.Run? && !e.Abort? {
      CallbackAdvances(job, e);
      hide Returned, Thrown, Changed, Advanced;
    } else {
      hide Returned, Thrown, Changed;
    }
  }

  lemma CompletionsGrow(s: State, e: Event, id: string)
    requires Enabled(s, e) && id in s.completions
    ensures id in Apply(s, e).completions
  {
    hide NewJob, Started, Returned, Thrown, Changed;
  }

  lemma AdvancedItself(job: Job)
    ensures Advanced(job, job)
  {
  }

  lemma StepAdvances(s: State, e: Event, id: string)
    requires Inv(s) && Enabled(s, e) && id in s.jobs
    ensures id in Apply(s, e).jobs && Advanced(s.jobs[id], Apply(s, e).jobs[id])
    ensures id in s.completions ==> id in Apply(s, e).completions
  {
    InvOf(s, id);
    hide Inv, JobInv, Apply, Enabled, Advanced;
    if id in s.completions {
      CompletionsGrow(s, e, id);
    }
    if e.id == id {
      OwnStepAdvances(s, e);
    } else {
      StepKeepsOthers(s, e, id);
      AdvancedItself(s.jobs[id]);
    }
  }

  /** One event takes a job one stage further at most. */
  lemma OneStageAtATime(es: seq<Event>, e: Event, id: string)
    requires IsRun(es + [e]) && id in After(es).jobs
    ensures id in After(es + [e]).jobs
    ensures Rank(After(es).jobs[id].state) <= Rank(After(es + [e]).jobs[id].state) <= Rank(After(es).jobs[id].state) + 1
  {
    assert (es + [e])[..|es|] == es && (es + [e])[|es|] == e;
    ReachableInv(es);
    StepAdvances(After(es), e, id);
    StepOneStage(After(es), e, id);
    hide Apply, Enabled, Inv;
  }

  lemma StepOneStage(s: State, e: Event, id: string)
    requires Inv(s) && Enabled(s, e) && id in s.jobs && id in Apply(s, e).jobs
    ensures Rank(Apply(s, e).jobs[id].state) <= Rank(s.jobs[id].state) + 1
  {
    InvOf(s, id);
    StatesSet(s, e);
    hide Returned, Thrown, Changed, NewJob, Inv;
  }

  /**
   In every continuation of a run a job only moves forward; once it has ended, its state, result and error
   never change again, and its log only grows.
   */
  lemma {:induction false} JobsOnlyAdvance(es: seq<Event>, more: seq<Event>, id: string)
    requires IsRun(es + more) && id in After(es).jobs
    ensures IsRun(es) && id in After(es + more).jobs
    ensures Advanced(After(es).jobs[id], After(es + more).jobs[id])
    ensures id in After(es).completions ==> id in After(es + more).completions
    decreases |more|
  {
    if more == [] {
      assert es + more == es;
    } else {
      var last := |more| - 1;
      assert (es + more)[..|es + more| - 1] == es + more[..last];
      assert (es + more)[|es + more| - 1] == more[last];
      JobsOnlyAdvance(es, more[..last], id);
      ReachableInv(es + more[..last]);
      StepAdvances(After(es + more[..last]), more[last], id);
      hide Apply, Enabled, JobInv, Inv;
    }
  }

  // ---------------------------------------------------- why a job ended

  predicate RunningAt(es: seq<Event>, id: string) {
    id in After(es).jobs && After(es).jobs[id].state.Running?
  }

  /** Someone asked to cancel the job at a moment when it was running. */
  predicate AbortedAt(es: seq<Event>, id: string, i: nat) {
    i < |es| && es[i] == Abort(id) && RunningAt(es[..i], id)
  }

  ghost predicate AbortedWhileRunning(es: seq<Event>, id: string) {
    exists i: nat :: AbortedAt(es, id, i)
  }

  lemma AbortedStep(es: seq<Event>, id: string)
    requires es != []
    ensures var init := es[..|es| - 1];
            AbortedWhileRunning(es, id)
            <==> AbortedWhileRunning(init, id) || (es[|es| - 1] == Abort(id) && RunningAt(init, id))
  {
    var init := es[..|es| - 1];
    hide RunningAt;
    assert forall i :: 0 <= i < |init| ==> init[..i] == es[..i] && init[i] == es[i];
    assert forall i: nat :: AbortedAt(init, id, i) ==> AbortedAt(es, id, i);
    assert forall i: nat :: AbortedAt(es, id, i) && i < |init| ==> AbortedAt(init, id, i);
    if es[|es| - 1] == Abort(id) && RunningAt(init, id) {
      assert AbortedAt(es, id, |init|);
    }
  }

  /** The state of a job tells whether it was ever aborted while running, except for one that succeeded. */
  predicate Explained(s: State, id: string, aborted: bool) {
    if id !in s.jobs || s.jobs[id].state.Pending? then !aborted
    else if s.jobs[id].state.Running? then id in s.controllers && s.controllers[id] == aborted
    else (s.jobs[id].state.Cancelled? ==> aborted) && (s.jobs[id].state.Failed? ==> !aborted)
  }

  lemma StepExplained(s: State, e: Event, id: string, aborted: bool)
    requires Inv(s) && Enabled(s, e) && Explained(s, id, aborted)
    ensures Explained(Apply(s, e), id,
                      aborted || (e == Abort(id) && id in s.jobs && s.jobs[id].state.Running?))
  {
    hide Returned, Thrown, Changed, NewJob, Inv;
    if e.id == id {
      if id in s.jobs {
        InvOf(s, id);
      }
      StatesSet(s, e);
      OwnStepExplained(s, e, aborted);
    }
  }

  lemma InvOf(s: State, id: string)
    requires Inv(s) && id in s.jobs
    ensures JobInv(s, id)
  {
  }

  lemma OwnStepExplained(s: State, e: Event, aborted: bool)
    requires (e.id in s.jobs ==> JobInv(s, e.id)) && Enabled(s, e) && Explained(s, e.id, aborted)
    ensures Explained(Apply(s, e), e.id,
                      aborted || (e.Abort? && e.id in s.jobs && s.jobs[e.id].state.Running?))
  {
    StatesSet(s, e);
    hide Returned, Thrown, Changed, NewJob;
  }

  lemma StatesSet(s: State, e: Event)
    ensures e.Create? ==> NewJob(e).state.Pending?
    ensures e.id in s.jobs && e.Return? ==> Returned(s.jobs[e.id], e.result, e.at).state.Completed?
    ensures e.id in s.jobs && e.Throw? ==>
              forall a :: Thrown(s.jobs[e.id], a, e.message, e.result, e.at).state == if a then Cancelled else Failed
    ensures e.id in s.jobs && (e.AppendLog? || e.SetProgress? || e.SetRelatedUpid? || e.SetArtifacts?) ==>
              Changed(s.jobs[e.id], e).state == s.jobs[e.id].state
  {
  }

  /**
   A job is cancelled only if it was aborted while it was running and its executor then threw; it has
   failed only if it was never aborted while running.
   */
  lemma {:induction false} EndsExplained(es: seq<Event>, id: string)
    requires IsRun(es)
    ensures Explained(After(es), id, AbortedWhileRunning(es, id))
    decreases |es|
  {
    if es != [] {
      var init := es[..|es| - 1];
      EndsExplained(init, id);
      ReachableInv(init);
      AbortedStep(es, id);
      StepExplained(After(init), es[|es| - 1], id, AbortedWhileRunning(init, id));
      hide Apply, Enabled, Inv, JobInv, AbortedWhileRunning;
    } else {
      assert !AbortedWhileRunning(es, id);
    }
  }

  /** Of two jobs whose executors threw, the cancelled one was aborted while running, the failed one was not. */
  lemma CancelledIffAborted(es: seq<Event>, id: string)
    requires IsRun(es) && id in After(es).jobs && After(es).jobs[id].error.Some?
    ensures After(es).jobs[id].state.Cancelled? <==> AbortedWhileRunning(es, id)
  {
    EndsExplained(es, id);
    ReachableInv(es);
    InvOf(After(es), id);
  }

  predicate ReturnedAt(es: seq<Event>, id: string, i: nat, result: JsValue) {
    i < |es| && es[i].Return? && es[i].id == id && es[i].result == result
  }

  lemma StepCompletes(s: State, e: Event, id: string)
    requires Inv(s) && Enabled(s, e) && id in Apply(s, e).jobs && Apply(s, e).jobs[id].state.Completed?
    ensures || (e.Return? && e.id == id && e.result == Apply(s, e).jobs[id].result)
            || (id in s.jobs && s.jobs[id].state.Completed? && s.jobs[id].result == Apply(s, e).jobs[id].result)
  {
    if id == e.id {
      OwnStepCompletes(s, e);
    } else {
      StepKeepsOthers(s, e, id);
    }
    hide Apply, Enabled, Inv;
  }

  lemma OwnStepCompletes(s: State, e: Event)
    requires Inv(s) && Enabled(s, e) && e.id in Apply(s, e).jobs && Apply(s, e).jobs[e.id].state.Completed?
    ensures || (e.Return? && e.result == Apply(s, e).jobs[e.id].result)
            || (e.id in s.jobs && s.jobs[e.id].state.Completed? && s.jobs[e.id].result == Apply(s, e).jobs[e.id].result)
  {
    StatesSet(s, e);
    if e.id in s.jobs {
      InvOf(s, e.id);
      StepAdvances(s, e, e.id);
      assert e.Return? ==> Returned(s.jobs[e.id], e.result, e.at).result == e.result;
    }
    hide NewJob, Started, Returned, Thrown, Changed, Inv;
  }

  /** A completed job holds what its executor returned. */
  lemma {:induction false} CompletedHoldsResult(es: seq<Event>, id: string) returns (i: nat)
    requires IsRun(es) && id in After(es).jobs && After(es).jobs[id].state.Completed?
    ensures ReturnedAt(es, id, i, After(es).jobs[id].result)
    decreases |es|
  {
    assert es != [];
    var last := |es| - 1;
    ReachableInv(es[..last]);
    StepCompletes(After(es[..last]), es[last], id);
    hide Apply, Inv, Enabled;
    if es[last].Return? && es[last].id == id && es[last].result == After(es).jobs[id].result {
      i := last;
    } else {
      i := CompletedHoldsResult(es[..last], id);
    }
  }

  // --------------------------------------------- a record is its history

  /** The messages logged for a job, in order. */
  function Appended(es: seq<Event>, id: string): seq<string>
    decreases |es|
  {
    if es == [] then []
    else
      var e := es[|es| - 1];
      Appended(es[..|es| - 1], id) + (if e.AppendLog? && e.id == id then [e.message] else [])
  }

  function LatestProgress(es: seq<Event>, id: string): Option<Progress>
    decreases |es|
  {
    if es == [] then None
    else
      var e := es[|es| - 1];
      if e.SetProgress? && e.id == id then Some(e.progress) else LatestProgress(es[..|es| - 1], id)
  }

  function LatestArtifacts(es: seq<Event>, id: string): Option<seq<string>>
    decreases |es|
  {
    if es == [] then None
    else
      var e := es[|es| - 1];
      if e.SetArtifacts? && e.id == id then Some(e.artifacts) else LatestArtifacts(es[..|es| - 1], id)
  }

  /** The UPID set last, or else the one the job was created with, unless that was empty. */
  function LatestUpid(es: seq<Event>, id: string): Option<Json.JsString>
    decreases |es|
  {
    if es == [] then None
    else
      var e := es[|es| - 1];
      if e.SetRelatedUpid? && e.id == id then Some(e.upidSet)
      else if e.Create? && e.id == id then if e.upid == Some([]) then None else e.upid
      else LatestUpid(es[..|es| - 1], id)
  }

  /** The event that created the job. */
  function Creation(es: seq<Event>, id: string): Option<Event>
    decreases |es|
  {
    if es == [] then None
    else if es[|es| - 1].Create? && es[|es| - 1].id == id then Some(es[|es| - 1])
    else Creation(es[..|es| - 1], id)
  }

  /** The event in which its executor returned or threw. */
  function Ending(es: seq<Event>, id: string): Option<Event>
    decreases |es|
  {
    if es == [] then None
    else
      var e := es[|es| - 1];
      if (e.Return? || e.Throw?) && e.id == id then Some(e) else Ending(es[..|es| - 1], id)
  }

  /** The moment of the last call or callback for the job; a request to cancel is none. */
  function LatestTime(es: seq<Event>, id: string): nat
    decreases |es|
  {
    if es == [] then 0
    else
      var e := es[|es| - 1];
      if !e.Abort? && e.id == id then e.at else LatestTime(es[..|es| - 1], id)
  }

  /** Every field of the record, read off the events. */
  predicate TellsHistory(job: Job, es: seq<Event>, id: string) {
    && Creation(es, id).Some? && Creation(es, id).value.Create?
    && job.jobId == id && job.target == Creation(es, id).value.target
    && job.operation == Creation(es, id).value.operation && job.startedAt == Creation(es, id).value.at
    && job.updatedAt == LatestTime(es, id)
    && job.logs == Appended(es, id) && (job.logsAvailable <==> Appended(es, id) != [])
    && job.progress == LatestProgress(es, id) && job.artifacts == LatestArtifacts(es, id)
    && job.relatedUpid == LatestUpid(es, id)
    && TellsEnding(job, Ending(es, id), LatestUpid(es, id))
  }

  predicate TellsEnding(job: Job, ending: Option<Event>, upid: Option<Json.JsString>) {
    && (ending.None? ==> !IsTerminal(job.state) && job.result.Undefined? && job.error.None?)
    && (ending.Some? && ending.value.Return? ==>
          job.state.Completed? && job.result == ending.value.result && job.error.None?)
    && (ending.Some? && ending.value.Throw? ==>
          && (job.state.Failed? || job.state.Cancelled?)
          && job.result == ending.value.result && job.error == Some(ending.value.message))
    && (upid.Some? ==> job.resultRef == Some(ProxmoxUpid(upid.value)))
    && (upid.None? ==>
          job.resultRef == if job.state.Completed? || !job.result.Undefined? then Some(Memory(job.jobId)) else None)
  }

  /** What a run has told about an id that is not used yet. */
  predicate Untold(es: seq<Event>, id: string) {
    && Appended(es, id) == [] && LatestProgress(es, id).None? && LatestArtifacts(es, id).None?
    && Ending(es, id).None? && LatestUpid(es, id).None?
  }

  predicate Told(s: State, es: seq<Event>, id: string) {
    if id in s.jobs then TellsHistory(s.jobs[id], es, id) else Untold(es, id)
  }

  /** A request to cancel, or an event for another job, tells nothing about this one. */
  lemma TellsNothing(es: seq<Event>, e: Event, id: string)
    requires e.Abort? || e.id != id
    ensures Appended(es + [e], id) == Appended(es, id) && LatestProgress(es + [e], id) == LatestProgress(es, id)
    ensures LatestArtifacts(es + [e], id) == LatestArtifacts(es, id) && LatestUpid(es + [e], id) == LatestUpid(es, id)
    ensures Creation(es + [e], id) == Creation(es, id) && Ending(es + [e], id) == Ending(es, id)
    ensures LatestTime(es + [e], id) == LatestTime(es, id)
  {
    assert (es + [e])[..|es|] == es;
    assert Appended(es, id) + [] == Appended(es, id);
  }

  /** What one event for the job itself adds to its history. */
  lemma TellsMore(es: seq<Event>, e: Event)
    requires !e.Abort?
    ensures Appended(es + [e], e.id) == Appended(es, e.id) + (if e.AppendLog? then [e.message] else [])
    ensures LatestProgress(es + [e], e.id) == if e.SetProgress? then Some(e.progress) else LatestProgress(es, e.id)
    ensures LatestArtifacts(es + [e], e.id) == if e.SetArtifacts? then Some(e.artifacts) else LatestArtifacts(es, e.id)
    ensures LatestUpid(es + [e], e.id)
            == if e.SetRelatedUpid? then Some(e.upidSet) else if e.Create? then (if e.upid == Some([]) then None else e.upid)
               else LatestUpid(es, e.id)
    ensures Creation(es + [e], e.id) == if e.Create? then Some(e) else Creation(es, e.id)
    ensures Ending(es + [e], e.id) == if e.Return? || e.Throw? then Some(e) else Ending(es, e.id)
    ensures LatestTime(es + [e], e.id) == e.at
  {
    assert (es + [e])[..|es|] == es;
  }

  lemma CreationTold(s: State, es: seq<Event>, e: Event)
    requires e.Create? && Untold(es, e.id)
    ensures TellsHistory(NewJob(e), es + [e], e.id)
  {
    TellsMore(es, e);
    hide Appended, LatestProgress, LatestArtifacts, LatestUpid, Creation, Ending, LatestTime;
  }

  lemma StartTold(job: Job, es: seq<Event>, e: Event)
    requires e.Run? && TellsHistory(job, es, e.id) && Ending(es, e.id).None?
    ensures TellsHistory(Started(job, e.at), es + [e], e.id)
  {
    TellsMore(es, e);
    assert Appended(es, e.id) + [] == Appended(es, e.id);
    hide Appended, LatestProgress, LatestArtifacts, LatestUpid, Creation, Ending, LatestTime;
  }

  lemma CallbackTold(job: Job, es: seq<Event>, e: Event)
    requires e.AppendLog? || e.SetProgress? || e.SetRelatedUpid? || e.SetArtifacts?
    requires TellsHistory(job, es, e.id)
    ensures TellsHistory(Changed(job, e), es + [e], e.id)
  {
    TellsMore(es, e);
    assert Appended(es, e.id) + [] == Appended(es, e.id);
    hide Appended, LatestProgress, LatestArtifacts, LatestUpid, Creation, Ending, LatestTime;
  }

  lemma ReturnTold(job: Job, es: seq<Event>, e: Event)
    requires e.Return? && TellsHistory(job, es, e.id) && Ending(es, e.id).None?
    ensures TellsHistory(Returned(job, e.result, e.at), es + [e], e.id)
  {
    TellsMore(es, e);
    ReturnEnding(job, e, LatestUpid(es, e.id));
    assert Appended(es, e.id) + [] == Appended(es, e.id);
    hide Appended, LatestProgress, LatestArtifacts, LatestUpid, Creation, Ending, LatestTime, TellsEnding;
  }

  lemma ReturnEnding(job: Job, e: Event, upid: Option<Json.JsString>)
    requires e.Return? && TellsEnding(job, None, upid)
    ensures TellsEnding(Returned(job, e.result, e.at), Some(e), upid)
  {
  }

  lemma ThrowTold(job: Job, es: seq<Event>, e: Event, aborted: bool)
    requires e.Throw? && TellsHistory(job, es, e.id) && Ending(es, e.id).None?
    ensures TellsHistory(Thrown(job, aborted, e.message, e.result, e.at), es + [e], e.id)
  {
    TellsMore(es, e);
    ThrowEnding(job, e, aborted, LatestUpid(es, e.id));
    assert Appended(es, e.id) + [] == Appended(es, e.id);
    hide Appended, LatestProgress, LatestArtifacts, LatestUpid, Creation, Ending, LatestTime, TellsEnding;
  }

  lemma ThrowEnding(job: Job, e: Event, aborted: bool, upid: Option<Json.JsString>)
    requires e.Throw? && TellsEnding(job, None, upid)
    ensures TellsEnding(Thrown(job, aborted, e.message, e.result, e.at), Some(e), upid)
  {
  }

  /** A job that has not ended has no ending in its history. */
  lemma NoEnding(s: State, es: seq<Event>, id: string)
    requires id in s.jobs && TellsHistory(s.jobs[id], es, id) && !IsTerminal(s.jobs[id].state)
    ensures Ending(es, id).None?
  {
    EndingEnds(es, id);
    hide Appended, LatestProgress, LatestArtifacts, LatestUpid, Creation, Ending, LatestTime;
  }

  lemma {:induction false} EndingEnds(es: seq<Event>, id: string)
    ensures Ending(es, id).Some? ==> Ending(es, id).value.Return? || Ending(es, id).value.Throw?
    decreases |es|
  {
    if es != [] { EndingEnds(es[..|es| - 1], id); }
  }

  lemma OwnStepTold(s: State, es: seq<Event>, e: Event)
    requires Inv(s) && Enabled(s, e) && Told(s, es, e.id)
    ensures Told(Apply(s, e), es + [e], e.id)
  {
    hide TellsHistory, Untold, NewJob, Started, Returned, Thrown, Changed;
    if e.Abort? {
      AbortTold(s, es, e);
    } else if e.Create? {
      CreationTold(s, es, e);
    } else {
      var job := s.jobs[e.id];
      assert JobInv(s, e.id);
      if e.Run? || e.Return? || e.Throw? {
        NoEnding(s, es, e.id);
      }
      if e.Run? {
        StartTold(job, es, e);
      } else if e.Return? {
        ReturnTold(job, es, e);
      } else if e.Throw? {
        ThrowTold(job, es, e, e.id in s.controllers && s.controllers[e.id]);
      } else {
        CallbackTold(job, es, e);
      }
    }
  }

  lemma AbortTold(s: State, es: seq<Event>, e: Event)
    requires e.Abort? && Told(s, es, e.id)
    ensures Told(Apply(s, e), es + [e], e.id)
  {
    TellsNothing(es, e, e.id);
    hide Appended, LatestProgress, LatestArtifacts, LatestUpid, Creation, Ending, LatestTime;
  }

  lemma OtherStepTold(s: State, es: seq<Event>, e: Event, id: string)
    requires Inv(s) && Enabled(s, e) && Told(s, es, id) && e.id != id
    ensures Told(Apply(s, e), es + [e], id)
  {
    TellsNothing(es, e, id);
    StepKeepsOthers(s, e, id);
    hide Appended, LatestProgress, LatestArtifacts, LatestUpid, Creation, Ending, LatestTime, Apply, Enabled, Inv;
  }

  lemma {:induction false} HistoryIsTold(es: seq<Event>, id: string)
    requires IsRun(es)
    ensures Told(After(es), es, id)
    decreases |es|
  {
    if es != [] {
      var init, e := es[..|es| - 1], es[|es| - 1];
      HistoryIsTold(init, id);
      ReachableInv(init);
      assert es == init + [e];
      hide Told, Apply, Enabled, Inv;
      if e.id == id { OwnStepTold(After(init), init, e); } else { OtherStepTold(After(init), init, e, id); }
    }
  }

  /**
   In every run the record of a job is its history: created as its creation says, with the messages logged
   for it in order, the progress, artifacts and UPID set last, and the result and error its executor ended with.
   */
  lemma RecordIsHistory(es: seq<Event>, id: string)
    requires IsRun(es) && id in After(es).jobs
    ensures TellsHistory(After(es).jobs[id], es, id)
  {
    HistoryIsTold(es, id);
  }

  // ----------------------------------------------------------- waiting

  datatype WaitMode = Deferred | Wait | Auto

  /**
   `settleJob`, called after `es`, may resolve to `r` after `es + more`: at once where nothing is awaited,
   otherwise when the completion has settled, or, in `auto` mode, to null when the short timer wins.
   */
  predicate SettleMayReturn(es: seq<Event>, more: seq<Event>, mode: WaitMode, id: string, r: Option<Job>)
    requires id in After(es).jobs
  {
    match mode
    case Deferred => r == None
    case Wait => WaitMayReturn(es, more, id, r)
    case Auto => r == None || WaitMayReturn(es, more, id, r)
  }

  /** `wait` without a timeout. The record is a live object, so it is read as it stands when it is used. */
  predicate WaitMayReturn(es: seq<Event>, more: seq<Event>, id: string, r: Option<Job>)
    requires id in After(es).jobs
  {
    var s := After(es + more);
    && id in s.jobs && r == Some(s.jobs[id])
    && (id in After(es).completions ==> SettledWithin(es, more, id))
    && (id !in After(es).completions ==> more == [])
  }

  predicate SettledBy(es: seq<Event>, id: string) {
    id in After(es).completions && After(es).completions[id]
  }

  predicate SettledWithin(es: seq<Event>, more: seq<Event>, id: string) {
    exists k :: 0 <= k <= |more| && SettledBy(es + more[..k], id)
  }

  /** What `settleJob` returns for a job that was run has ended; for one that was not, it has not. */
  lemma SettledIsTerminal(es: seq<Event>, more: seq<Event>, mode: WaitMode, id: string, r: Option<Job>)
    requires IsRun(es + more) && id in After(es).jobs && SettleMayReturn(es, more, mode, id, r)
    ensures r.Some? ==> (IsTerminal(r.value.state) <==> id in After(es).completions)
    ensures r.Some? && id !in After(es).completions ==> r.value.state.Pending?
  {
    RunPrefix(es, more);
    ReachableInv(es);
    InvOf(After(es), id);
    if id in After(es).completions {
      if r.Some? {
        SettledEnds(es, more, id);
      }
    } else if r.Some? {
      assert es + more == es;
    }
    hide After, IsRun, JobInv, SettledWithin;
  }

  /** A job whose completion settled somewhere on the way has ended. */
  lemma SettledEnds(es: seq<Event>, more: seq<Event>, id: string)
    requires IsRun(es + more) && id in After(es).jobs && SettledWithin(es, more, id)
    ensures id in After(es + more).jobs && IsTerminal(After(es + more).jobs[id].state)
  {
    hide Apply, Enabled, After, IsRun;
    var k :| 0 <= k <= |more| && SettledBy(es + more[..k], id);
    var middle, rest := es + more[..k], more[k..];
    assert es + more == middle + rest;
    RunPrefix(middle, rest);
    ReachableInv(middle);
    SettledJob(After(middle), id);
    JobsOnlyAdvance(middle, rest, id);
  }

  lemma SettledJob(s: State, id: string)
    requires Inv(s) && id in s.completions && s.completions[id]
    ensures id in s.jobs && IsTerminal(s.jobs[id].state)
  {
    InvOf(s, id);
  }

  lemma {:induction false} RunPrefix(es: seq<Event>, more: seq<Event>)
    requires IsRun(es + more)
    ensures IsRun(es)
    decreases |more|
  {
    if more == [] {
      assert es + more == es;
    } else {
      assert (es + more)[..|es + more| - 1] == es + more[..|more| - 1];
      RunPrefix(es, more[..|more| - 1]);
    }
  }

  // ------------------------------------------------------------- registry

  /** `logs.slice(-limit)`: the last `limit` lines, and for zero all of them. */
  function LastLogs(logs: seq<string>, limit: int): (r: seq<string>)
    ensures limit > 0 ==> |r| == if limit < |logs| then limit else |logs|
    ensures limit == 0 ==> r == logs
    ensures |r| <= |logs| && r == logs[|logs| - |r|..]
  {
    var start := -limit;
    if start < 0 then logs[if |logs| + start < 0 then 0 else |logs| + start..]
    else logs[if start < |logs| then start else |logs|..]
  }

  class AbortController {
    var aborted: bool

    constructor ()
      ensures !aborted
    {
      aborted := false;
    }
  }

  class ServerJob {
    const jobId: string
    const target: UpidHandle.Target
    const operation: Json.JsString
    const startedAt: nat
    var state: JobState
    var updatedAt: nat
    var progress: Option<Progress>
    var logsAvailable: bool
    var logs: seq<string>
    var relatedUpid: Option<Json.JsString>
    var resultRef: Option<ResultRef>
    var result: JsValue
    var error: Option<string>
    var artifacts: Option<seq<string>>

    function Value(): Job
      reads this
    {
      Job(jobId, target, operation, state, startedAt, updatedAt, progress, logsAvailable, logs,
          relatedUpid, resultRef, result, error, artifacts)
    }

    constructor (e: Event)
      requires e.Create?
      ensures Value() == NewJob(e)
    {
      jobId, target, operation, startedAt := e.id, e.target, e.operation, e.at;
      state, updatedAt, progress, logsAvailable, logs := Pending, e.at, None, false, [];
      result, error, artifacts := Undefined, None, None;
      if e.upid.Some? && e.upid.value != [] {
        relatedUpid, resultRef := e.upid, Some(ProxmoxUpid(e.upid.value));
      } else {
        relatedUpid, resultRef := None, None;
      }
    }

    method Start(at: nat)
      modifies this
      ensures Value() == Started(old(Value()), at)
    {
      state, updatedAt := Running, at;
    }

    method AppendLog(message: string, at: nat)
      modifies this
      ensures forall id :: Value() == Changed(old(Value()), Event.AppendLog(id, message, at))
    {
      logs := logs + [message];
      logsAvailable := |logs| > 0;
      updatedAt := at;
    }

    method SetProgress(p: Progress, at: nat)
      modifies this
      ensures forall id :: Value() == Changed(old(Value()), Event.SetProgress(id, p, at))
    {
      progress, updatedAt := Some(p), at;
    }

    method SetRelatedUpid(upid: Json.JsString, at: nat)
      modifies this
      ensures forall id :: Value() == Changed(old(Value()), Event.SetRelatedUpid(id, upid, at))
    {
      relatedUpid := Some(upid);
      resultRef := Some(ProxmoxUpid(upid));
      updatedAt := at;
    }

    method SetArtifacts(list: seq<string>, at: nat)
      modifies this
      ensures forall id :: Value() == Changed(old(Value()), Event.SetArtifacts(id, list, at))
    {
      artifacts, updatedAt := Some(list), at;
    }

    method Complete(r: JsValue, at: nat)
      modifies this
      ensures Value() == Returned(old(Value()), r, at)
    {
      state := Completed;
      result := r;
      updatedAt := at;
      if resultRef.None? {
        resultRef := Some(Memory(jobId));
      }
    }

    method Fail(aborted: bool, message: string, r: JsValue, at: nat)
      modifies this
      ensures Value() == Thrown(old(Value()), aborted, message, r, at)
    {
      state := if aborted then Cancelled else Failed;
      error := Some(message);
      if !r.Undefined? {
        result := r;
        if resultRef.None? {
          resultRef := Some(Memory(jobId));
        }
      }
      updatedAt := at;
    }
  }

  class JobManager {
    var jobs: map<string, ServerJob>
    var abortControllers: map<string, AbortController>
    /** The stored completion of each job that was run, and whether it has settled. */
    var completions: map<string, bool>

    /** Distinct ids have distinct records and distinct controllers. */
    ghost predicate Valid()
      reads this
    {
      && (forall a, b :: a in jobs && b in jobs && a != b ==> jobs[a] != jobs[b])
      && (forall a, b :: a in abortControllers && b in abortControllers && a != b
                         ==> abortControllers[a] != abortControllers[b])
    }

    ghost function Contents(): State
      reads this, jobs.Values, abortControllers.Values
    {
      State(Records(), Controllers(), completions)
    }

    ghost function Records(): map<string, Job>
      reads this`jobs, jobs.Values
    {
      map id | id in jobs :: jobs[id].Value()
    }

    ghost function Controllers(): map<string, bool>
      reads this`abortControllers, abortControllers.Values
    {
      map id | id in abortControllers :: abortControllers[id].aborted
    }

    /** Changing one record in place changes one entry of the registry's meaning. */
    twostate lemma RecordChanged(id: string)
      requires old(Valid()) && jobs == old(jobs) && id in jobs
      requires forall k :: k in jobs && k != id ==> unchanged(jobs[k])
      ensures Records() == old(Records())[id := jobs[id].Value()]
    {
      hide ServerJob.Value;
    }

    constructor ()
      ensures Valid() && Contents() == Initial
    {
      jobs, abortControllers, completions := map[], map[], map[];
    }

    /** The record handed out is the one the registry goes on changing. */
    method Create(e: Event) returns (job: ServerJob)
      requires Valid() && e.Create?
      modifies this`jobs
      ensures Valid() && fresh(job)
      ensures Contents() == Apply(old(Contents()), e)
      ensures jobs == old(jobs)[e.id := job] && job.Value() == NewJob(e)
    {
      job := new ServerJob(e);
      jobs := jobs[e.id := job];
      hide NewJob;
      assert Records() == old(Records())[e.id := job.Value()];
    }

    /** A job whose id leads back to its task when the process is gone. */
    method CreateUpidJob(target: UpidHandle.Target, operation: Json.JsString, upid: Json.JsString, at: nat)
      returns (job: ServerJob)
      requires Valid()
      modifies this`jobs
      ensures Valid() && fresh(job)
      ensures UpidHandle.ParseUpidJobId(job.jobId)
              == Some(UpidHandle.HandleOf(UpidHandle.Payload(operation, target, upid)))
      ensures Contents() == Apply(old(Contents()), Event.Create(job.jobId, target, operation, Some(upid), at))
      ensures jobs == old(jobs)[job.jobId := job]
    {
      var payload := UpidHandle.Payload(operation, target, upid);
      UpidHandle.HandleRoundTrip(payload);
      hide UpidHandle.ParseUpidJobId, UpidHandle.MakeUpidJobId, UpidHandle.HandleOf;
      job := Create(Event.Create(UpidHandle.MakeUpidJobId(payload), target, operation, Some(upid), at));
    }

    /** `run` up to the executor's first await: a controller and a completion of its own. */
    method Run(jobId: string, at: nat) returns (ok: bool)
      requires Valid()
      modifies this`abortControllers, this`completions, if jobId in jobs then {jobs[jobId]} else {}
      ensures Valid() && ok == (jobId in jobs)
      ensures Contents() == Apply(old(Contents()), Event.Run(jobId, at))
      ensures ok ==> jobId in abortControllers && fresh(abortControllers[jobId])
    {
      hide Apply, ServerJob.Value;
      ApplyRun(Contents(), jobId, at);
      if jobId !in jobs {
        return false;
      }
      StartRecord(jobId, at);
      AddController(jobId);
      completions := completions[jobId := false];
      hide Records, Controllers;
      return true;
    }

    method StartRecord(jobId: string, at: nat)
      requires Valid() && jobId in jobs
      modifies jobs[jobId]
      ensures Records() == old(Records())[jobId := Started(old(jobs[jobId].Value()), at)]
      ensures Controllers() == old(Controllers())
    {
      hide Started, ServerJob.Value;
      jobs[jobId].Start(at);
      RecordChanged(jobId);
    }

    method AddController(jobId: string)
      requires Valid()
      modifies this`abortControllers
      ensures Valid() && jobId in abortControllers && fresh(abortControllers[jobId])
      ensures Controllers() == old(Controllers())[jobId := false]
      ensures Records() == old(Records())
    {
      hide ServerJob.Value;
      var controller := new AbortController();
      abortControllers := abortControllers[jobId := controller];
    }

    method AppendLog(jobId: string, message: string, at: nat) returns (ok: bool)
      requires Valid()
      modifies if jobId in jobs then {jobs[jobId]} else {}
      ensures Valid() && ok == (jobId in jobs)
      ensures Contents() == Apply(old(Contents()), Event.AppendLog(jobId, message, at))
    {
      hide NewJob, Started, Returned, Thrown, Changed, ServerJob.Value;
      if jobId !in jobs {
        return false;
      }
      jobs[jobId].AppendLog(message, at);
      RecordChanged(jobId);
      return true;
    }

    method SetProgress(jobId: string, progress: Progress, at: nat) returns (ok: bool)
      requires Valid()
      modifies if jobId in jobs then {jobs[jobId]} else {}
      ensures Valid() && ok == (jobId in jobs)
      ensures Contents() == Apply(old(Contents()), Event.SetProgress(jobId, progress, at))
    {
      hide NewJob, Started, Returned, Thrown, Changed, ServerJob.Value;
      if jobId !in jobs {
        return false;
      }
      jobs[jobId].SetProgress(progress, at);
      RecordChanged(jobId);
      return true;
    }

    method SetRelatedUpid(jobId: string, upid: Json.JsString, at: nat) returns (ok: bool)
      requires Valid()
      modifies if jobId in jobs then {jobs[jobId]} else {}
      ensures Valid() && ok == (jobId in jobs)
      ensures Contents() == Apply(old(Contents()), Event.SetRelatedUpid(jobId, upid, at))
    {
      hide NewJob, Started, Returned, Thrown, Changed, ServerJob.Value;
      if jobId !in jobs {
        return false;
      }
      jobs[jobId].SetRelatedUpid(upid, at);
      RecordChanged(jobId);
      return true;
    }

    method SetArtifacts(jobId: string, artifacts: seq<string>, at: nat) returns (ok: bool)
      requires Valid()
      modifies if jobId in jobs then {jobs[jobId]} else {}
      ensures Valid() && ok == (jobId in jobs)
      ensures Contents() == Apply(old(Contents()), Event.SetArtifacts(jobId, artifacts, at))
    {
      hide NewJob, Started, Returned, Thrown, Changed, ServerJob.Value;
      if jobId !in jobs {
        return false;
      }
      jobs[jobId].SetArtifacts(artifacts, at);
      RecordChanged(jobId);
      return true;
    }

    /** The executor returned: the rest of `run` on the success path. */
    method Return(jobId: string, result: JsValue, at: nat)
      requires Valid() && jobId in jobs
      modifies this`abortControllers, this`completions, jobs[jobId]
      ensures Valid()
      ensures Contents() == Apply(old(Contents()), Event.Return(jobId, result, at))
    {
      hide NewJob, Started, Returned, Thrown, Changed, ServerJob.Value;
      jobs[jobId].Complete(result, at);
      abortControllers := abortControllers - {jobId};
      completions := completions[jobId := true];
      RecordChanged(jobId);
      assert Controllers() == old(Controllers()) - {jobId};
    }

    /** The executor threw: `controller` is the one this run created, still the registered one. */
    method Throw(jobId: string, controller: AbortController, message: string, result: JsValue, at: nat)
      requires Valid() && jobId in jobs
      requires jobId in abortControllers && abortControllers[jobId] == controller
      modifies this`abortControllers, this`completions, jobs[jobId]
      ensures Valid()
      ensures Contents() == Apply(old(Contents()), Event.Throw(jobId, message, result, at))
    {
      hide NewJob, Started, Returned, Thrown, Changed, ServerJob.Value;
      jobs[jobId].Fail(controller.aborted, message, result, at);
      abortControllers := abortControllers - {jobId};
      completions := completions[jobId := true];
      RecordChanged(jobId);
      assert Controllers() == old(Controllers()) - {jobId};
    }

    /** The part of `cancel` before it waits. */
    method Abort(jobId: string)
      requires Valid()
      modifies if jobId in abortControllers then {abortControllers[jobId]} else {}
      ensures Valid()
      ensures Contents() == Apply(old(Contents()), Event.Abort(jobId))
    {
      if jobId in abortControllers {
        abortControllers[jobId].aborted := true;
      }
    }

    method Find(jobId: string) returns (job: Option<ServerJob>)
      ensures job.Some? <==> jobId in jobs
      ensures job.Some? ==> job.value == jobs[jobId]
    {
      job := if jobId in jobs then Some(jobs[jobId]) else None;
    }

    method ListLogs(jobId: string, limit: int := 200) returns (r: Option<seq<string>>)
      ensures r == if jobId in Contents().jobs then Some(LastLogs(Contents().jobs[jobId].logs, limit)) else None
    {
      var job := Find(jobId);
      if job.None? {
        return None;
      }
      r := Some(LastLogs(job.value.logs, limit));
    }
  }
}
