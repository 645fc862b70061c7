/** Jobs read back from the cluster by their UPID, and the two loops that wait for a task to stop. */
module UpidSnapshot {
  import opened Common
  import opened JsValues
  import Jobs
  import Json
  import Regex
  import Text
  import UpidHandle

  // ------------------------------------------------------- task records

  /** Reading a property: `undefined` on anything but an object that has it. */
  function Member(v: JsValue, key: string): JsValue {
    if v.Obj? then Field(v.fields, key) else Undefined
  }

  function Field(fields: seq<(string, JsValue)>, key: string): JsValue {
    if fields == [] then Undefined
    else if fields[|fields| - 1].0 == key then fields[|fields| - 1].1
    else Field(fields[..|fields| - 1], key)
  }

  predicate IsStopped(status: JsValue) {
    Member(status, "status") == Str("stopped")
  }

  function ExitStatus(status: JsValue): string {
    var exit := Member(status, "exitstatus");
    if exit.Str? then Text.Trim(exit.s) else ""
  }

  /** The two letters of OK, each in either case. */
  predicate SaysOk(exit: string) {
    |exit| == 2 && (exit[0] == 'o' || exit[0] == 'O') && (exit[1] == 'k' || exit[1] == 'K')
  }

  /** No exit status, or `OK` in any case. */
  predicate EndedWell(status: JsValue) {
    ExitStatus(status) == "" || SaysOk(ExitStatus(status))
  }

  lemma SaysOkInCapitals(exit: string)
    ensures Text.ToUpper(exit) == "OK" <==> SaysOk(exit)
  {
    Text.UpperMeaning(exit, "OK");
    if |exit| == 2 {
      assert Text.UpperSpelling(exit, "OK") <==> Text.Capital(exit[0], 'O') && Text.Capital(exit[1], 'K');
    }
  }

  /** Some value is filed under the key, and `v` is the one filed last; without one it is `undefined`. */
  lemma {:induction false} FieldMeaning(fields: seq<(string, JsValue)>, key: string)
    ensures (forall i :: 0 <= i < |fields| ==> fields[i].0 != key) ==> Field(fields, key) == Undefined
    ensures forall i :: 0 <= i < |fields| && fields[i].0 == key && (forall j :: i < j < |fields| ==> fields[j].0 != key)
              ==> Field(fields, key) == fields[i].1
  {
    if fields != [] {
      FieldMeaning(fields[..|fields| - 1], key);
    }
  }

  /** A text under `exitstatus` counts without the white space around it, anything else counts as no text. */
  lemma ExitStatusMeaning(status: JsValue, before: string, exit: string, after: string)
    requires Text.Blank(before) && Text.Bare(exit) && Text.Blank(after)
    ensures Member(status, "exitstatus") == Str(before + exit + after) ==> ExitStatus(status) == exit
    ensures !Member(status, "exitstatus").Str? ==> ExitStatus(status) == ""
  {
    Text.TrimMeaning(before, exit, after);
  }

  /** `word`, given in capitals, stands somewhere in the text, in any mixture of cases. */
  ghost predicate ContainsAnyCase(text: string, word: string) {
    exists i: nat :: SpelledAt(text, word, i)
  }

  predicate SpelledAt(text: string, word: string, i: nat) {
    i + |word| <= |text| && Text.UpperSpelling(text[i..i + |word|], word)
  }

  ghost predicate TellsOfCancelling(text: string) {
    ContainsAnyCase(text, "ABORT") || ContainsAnyCase(text, "CANCEL") || ContainsAnyCase(text, "INTERRUPT")
  }

  predicate Mentions(text: string, word: string) {
    Regex.IndexOf(Text.ToUpper(text), word).Some?
  }

  predicate MentionsCancelling(text: string) {
    Mentions(text, "ABORT") || Mentions(text, "CANCEL") || Mentions(text, "INTERRUPT")
  }

  lemma MentionsMeaning(text: string, word: string)
    ensures Mentions(text, word) <==> ContainsAnyCase(text, word)
  {
    var upper := Text.ToUpper(text);
    Text.UpperMeaning(text, upper);
    forall i: nat ensures Regex.OccursAt(upper, word, i) <==> SpelledAt(text, word, i) {
      CapitalsOfPart(text, upper, word, i);
    }
    hide SpelledAt, Regex.OccursAt;
  }

  lemma CapitalsOfPart(text: string, upper: string, word: string, i: nat)
    requires Text.UpperSpelling(text, upper)
    ensures Regex.OccursAt(upper, word, i) <==> SpelledAt(text, word, i)
  {
    if i + |word| <= |text| {
      var part := text[i..i + |word|];
      assert forall j :: 0 <= j < |word| ==> Text.Capital(part[j], upper[i + j]);
      if Text.UpperSpelling(part, word) {
        assert forall j :: 0 <= j < |word| ==> word[j] == upper[i + j];
      }
    }
  }

  datatype Classified = Classified(state: Jobs.JobState, error: Option<string>)

  /** `classifyUpidState`. */
  function Classify(status: JsValue): Classified {
    if !IsStopped(status) then Classified(Jobs.Running, None)
    else
      var exit := ExitStatus(status);
      if exit == "" || Text.ToUpper(exit) == "OK" then Classified(Jobs.Completed, None)
      else if MentionsCancelling(exit) then Classified(Jobs.Cancelled, Some(exit))
      else Classified(Jobs.Failed, Some(exit))
  }

  /** `normalizeTaskLogs`: a line's own text where there is one, JSON text otherwise. */
  function NormalizeLogs(log: JsValue, stringify: JsValue -> string): seq<string> {
    if !log.Arr? then []
    else seq(|log.items|, i requires 0 <= i < |log.items| => LogLine(log.items[i], stringify))
  }

  function LogLine(entry: JsValue, stringify: JsValue -> string): string {
    if entry.Str? then entry.s else if Member(entry, "t").Str? then Member(entry, "t").s else stringify(entry)
  }

  /** What follows the first colon. */
  function AfterColon(s: Json.JsString): Option<Json.JsString> {
    if s == [] then None else if s[0] == 58 then Some(s[1..]) else AfterColon(s[1..])
  }

  function UpToColon(s: Json.JsString): Json.JsString {
    if s == [] || s[0] == 58 then [] else [s[0]] + UpToColon(s[1..])
  }

  /** `upid.split(":")[1]`, which must not be empty. */
  function UpidNode(upid: Json.JsString): Option<Json.JsString> {
    var rest := AfterColon(upid);
    if rest.None? || UpToColon(rest.value) == [] then None else Some(UpToColon(rest.value))
  }

  /** The node is the part of the UPID between its first colon and the next one or the end. */
  lemma UpidNodeMeaning(before: Json.JsString, node: Json.JsString, after: Json.JsString)
    requires 58 !in before && 58 !in node && (after == [] || after[0] == 58)
    ensures UpidNode(before) == None
    ensures UpidNode(before + [58] + node + after) == if node == [] then None else Some(node)
  {
    NoColon(before);
    AfterColonMeaning(before, node + after);
    UpToColonMeaning(node, after);
    assert before + [58] + node + after == before + [58] + (node + after);
  }

  lemma {:induction false} NoColon(s: Json.JsString)
    requires 58 !in s
    ensures AfterColon(s) == None
  {
    if s != [] {
      assert s[0] in s && forall u :: u in s[1..] ==> u in s;
      NoColon(s[1..]);
    }
  }

  lemma {:induction false} AfterColonMeaning(before: Json.JsString, rest: Json.JsString)
    requires 58 !in before
    ensures AfterColon(before + [58] + rest) == Some(rest)
  {
    var s := before + [58] + rest;
    if before == [] {
      assert s[1..] == rest;
    } else {
      assert before[0] in before && forall u :: u in before[1..] ==> u in before;
      assert s[1..] == before[1..] + [58] + rest;
      AfterColonMeaning(before[1..], rest);
    }
  }

  lemma {:induction false} UpToColonMeaning(node: Json.JsString, after: Json.JsString)
    requires 58 !in node && (after == [] || after[0] == 58)
    ensures UpToColon(node + after) == node
  {
    if node != [] {
      assert node[0] in node && forall u :: u in node[1..] ==> u in node;
      assert (node + after)[1..] == node[1..] + after;
      UpToColonMeaning(node[1..], after);
      assert node == [node[0]] + node[1..];
    } else {
      assert node + after == after;
    }
  }

  /** The classification: ended well, cancelled if the exit status tells of it, otherwise failed, with the exit status as error. */
  lemma ClassifyMeaning(status: JsValue)
    ensures var c, exit := Classify(status), ExitStatus(status);
            && (c.state.Running? <==> !IsStopped(status))
            && (c.state.Completed? <==> IsStopped(status) && EndedWell(status))
            && (c.state.Cancelled? <==> IsStopped(status) && !EndedWell(status) && TellsOfCancelling(exit))
            && (c.state.Failed? <==> IsStopped(status) && !EndedWell(status) && !TellsOfCancelling(exit))
            && c.error == if c.state.Cancelled? || c.state.Failed? then Some(exit) else None
  {
    var exit := ExitStatus(status);
    SaysOkInCapitals(exit);
    MentionsMeaning(exit, "ABORT");
    MentionsMeaning(exit, "CANCEL");
    MentionsMeaning(exit, "INTERRUPT");
    hide Mentions, ContainsAnyCase, ExitStatus, SaysOk, IsStopped;
  }

  // ---------------------------------------------------------- snapshots

  datatype Snapshot = Snapshot(
    jobId: string, target: Json.Value, operation: Json.JsString, state: Jobs.JobState,
    logsAvailable: bool, logs: seq<string>, resultRef: Jobs.ResultRef, relatedUpid: Json.JsString,
    status: JsValue, log: JsValue, error: Option<string>)

  /** What the cluster answered to the two reads behind a snapshot: status and log. */
  type Reply = Result<(JsValue, JsValue), string>

  /** `readUpidJobSnapshot`. */
  function Read(jobId: string, reply: Reply, stringify: JsValue -> string): Result<Snapshot, string> {
    var handle := UpidHandle.ParseUpidJobId(jobId);
    if handle.None? then Err("Unknown job")
    else if UpidNode(handle.value.upid).None? then Err("Invalid UPID")
    else if reply.Err? then Err(reply.error)
    else
      var (status, log) := reply.value;
      var logs := NormalizeLogs(log, stringify);
      var c := Classify(status);
      Ok(Snapshot(jobId, handle.value.target, handle.value.operation, c.state, |logs| > 0, logs,
                  Jobs.ProxmoxUpid(handle.value.upid), handle.value.upid, status, log, c.error))
  }

  /**
   Reading back a job by its made id succeeds exactly when the UPID names a node and the cluster answers,
   and gives the operation, target and UPID the id was made from.
   */
  lemma RehydratedJob(p: UpidHandle.Payload, reply: Reply, stringify: JsValue -> string)
    ensures var r := Read(UpidHandle.MakeUpidJobId(p), reply, stringify);
            && (r.Ok? <==> UpidNode(p.upid).Some? && reply.Ok?)
            && (r.Ok? ==>
                  && r.value.operation == p.operation
                  && r.value.target == Json.Obj(UpidHandle.TargetFields(p.target))
                  && r.value.relatedUpid == p.upid && r.value.resultRef == Jobs.ProxmoxUpid(p.upid)
                  && r.value.jobId == UpidHandle.MakeUpidJobId(p)
                  && r.value.status == reply.value.0 && r.value.log == reply.value.1
                  && (r.value.logsAvailable <==> r.value.logs != [])
                  && Rehydrates(r.value.state, r.value.error, reply.value.0))
  {
    UpidHandle.HandleRoundTrip(p);
    if reply.Ok? {
      ClassifyMeaning(reply.value.0);
    }
    hide UpidHandle.MakeUpidJobId, UpidHandle.ParseUpidJobId, UpidNode, Classify, IsStopped, ExitStatus, TellsOfCancelling,
      EndedWell, UpidHandle.TargetFields, NormalizeLogs;
  }

  /** The state and error a job read back has for a task with this status. */
  ghost predicate Rehydrates(state: Jobs.JobState, error: Option<string>, status: JsValue) {
    && (Jobs.IsTerminal(state) <==> IsStopped(status)) && (state.Running? <==> !IsStopped(status))
    && (state.Completed? <==> IsStopped(status) && EndedWell(status))
    && (state.Cancelled? <==> IsStopped(status) && !EndedWell(status) && TellsOfCancelling(ExitStatus(status)))
    && error == if state.Failed? || state.Cancelled? then Some(ExitStatus(status)) else None
  }

  /** `line` is the entry's own text, or that of its field `t`, or, when it has neither, its JSON text. */
  predicate IsLineOf(line: string, entry: JsValue, stringify: JsValue -> string) {
    || entry == Str(line)
    || (entry.Obj? && Member(entry, "t") == Str(line))
    || (!entry.Str? && !Member(entry, "t").Str? && line == stringify(entry))
  }

  /** A snapshot has one log line for each entry of the task's log. */
  lemma SnapshotLogs(jobId: string, reply: Reply, stringify: JsValue -> string)
    requires Read(jobId, reply, stringify).Ok?
    ensures var log, logs := reply.value.1, Read(jobId, reply, stringify).value.logs;
            if !log.Arr? then logs == []
            else |logs| == |log.items| && forall i :: 0 <= i < |logs| ==> IsLineOf(logs[i], log.items[i], stringify)
  {
    hide UpidHandle.ParseUpidJobId, UpidNode, Classify, Field;
  }

  // -------------------------------------------- waiting for a snapshot

  /** One turn of a loop: what was answered, the time since the start, and whether the sleep was cut short. */
  datatype Poll = Poll(reply: Reply, elapsed: int, interrupted: bool)

  datatype Outcome<+T> = Returned(value: T) | Threw(message: string) | StillWaiting

  predicate TimedOut(timeoutMs: Option<int>, elapsed: int) {
    timeoutMs.Some? && elapsed >= timeoutMs.value
  }

  /** What one turn leads to. */
  function TurnOutcome(jobId: string, timeoutMs: Option<int>, poll: Poll, stringify: JsValue -> string): Outcome<Snapshot> {
    var snapshot := Read(jobId, poll.reply, stringify);
    if snapshot.Err? then Threw(snapshot.error)
    else if !snapshot.value.state.Running? || TimedOut(timeoutMs, poll.elapsed) then Returned(snapshot.value)
    else if poll.interrupted then Threw("Operation aborted")
    else StillWaiting
  }

  /**
   A turn ends the wait with the snapshot when the task has ended or the time is up, with an error when the
   snapshot cannot be read or the sleep was interrupted, in this order, and leads to the next turn otherwise.
   */
  lemma TurnMeaning(jobId: string, timeoutMs: Option<int>, poll: Poll, stringify: JsValue -> string)
    ensures var snapshot, outcome := Read(jobId, poll.reply, stringify), TurnOutcome(jobId, timeoutMs, poll, stringify);
            var over := snapshot.Ok? && (IsStopped(snapshot.value.status) || (timeoutMs.Some? && timeoutMs.value <= poll.elapsed));
            && (outcome.Returned? <==> over) && (over ==> outcome.value == snapshot.value)
            && (outcome.Threw? <==> snapshot.Err? || (!over && poll.interrupted))
            && (snapshot.Err? ==> outcome.message == snapshot.error)
  {
    hide Member, ExitStatus, UpidHandle.ParseUpidJobId, UpidNode, NormalizeLogs, MentionsCancelling, Text.ToUpper;
  }

  /** Every sleep takes a second or more. */
  predicate Spaced(polls: seq<Poll>) {
    (polls != [] ==> polls[0].elapsed >= 0)
    && forall i :: 0 <= i < |polls| - 1 ==> Gap(polls, i)
  }

  predicate Gap(polls: seq<Poll>, i: int)
    requires 0 <= i < |polls| - 1
  {
    polls[i + 1].elapsed >= polls[i].elapsed + 1000
  }

  lemma {:induction false} SpacedFrom(polls: seq<Poll>, i: nat)
    requires Spaced(polls) && i < |polls|
    ensures polls[i].elapsed >= 1000 * i
  {
    if i > 0 {
      SpacedFrom(polls, i - 1);
      assert Gap(polls, i - 1);
    }
  }

  /** The timeout in whole seconds, rounded up. */
  function Seconds(timeoutMs: int): (n: nat)
    ensures timeoutMs <= 1000 * n && (n > 0 ==> 1000 * (n - 1) < timeoutMs)
  {
    if timeoutMs <= 0 then 0 else (timeoutMs + 999) / 1000
  }

  /** No loop that has not timed out has taken more turns than the timeout has seconds. */
  lemma TurnsBounded(jobId: string, timeoutMs: int, polls: seq<Poll>, i: nat, stringify: JsValue -> string)
    requires Spaced(polls) && i < |polls|
    requires TurnOutcome(jobId, Some(timeoutMs), polls[i], stringify).StillWaiting?
    ensures i < Seconds(timeoutMs)
  {
    SpacedFrom(polls, i);
  }

  /**
   `waitForUpidJobSnapshot`. The polls are what the outside world does; the loop may still be waiting when
   they run out, but not when a timeout was given and there are enough of them.
   */
  method WaitForUpidJobSnapshot(jobId: string, timeoutMs: Option<int>, polls: seq<Poll>, stringify: JsValue -> string)
    returns (outcome: Outcome<Snapshot>, turns: nat)
    ensures turns <= |polls| && (outcome.StillWaiting? ==> turns == |polls|)
    ensures !outcome.StillWaiting? ==>
              turns > 0 && outcome == TurnOutcome(jobId, timeoutMs, polls[turns - 1], stringify)
    ensures forall i :: 0 <= i < turns && (i == turns - 1 ==> outcome.StillWaiting?) ==>
              TurnOutcome(jobId, timeoutMs, polls[i], stringify).StillWaiting?
    ensures outcome.Returned? ==>
              !outcome.value.state.Running? || TimedOut(timeoutMs, polls[turns - 1].elapsed)
    ensures timeoutMs.Some? && Spaced(polls) ==> turns <= Seconds(timeoutMs.value) + 1
    ensures timeoutMs.Some? && Spaced(polls) && |polls| > Seconds(timeoutMs.value) ==> !outcome.StillWaiting?
  {
    hide Read, Seconds, Spaced;
    turns := 0;
    while turns < |polls|
      invariant turns <= |polls|
      invariant forall i :: 0 <= i < turns ==> TurnOutcome(jobId, timeoutMs, polls[i], stringify).StillWaiting?
      invariant timeoutMs.Some? && Spaced(polls) ==> turns <= Seconds(timeoutMs.value)
    {
      var poll := polls[turns];
      turns := turns + 1;
      var snapshot := Read(jobId, poll.reply, stringify);
      if snapshot.Err? {
        return Threw(snapshot.error), turns;
      }
      if snapshot.value.state != Jobs.Running {
        return Returned(snapshot.value), turns;
      }
      if timeoutMs.Some? && poll.elapsed >= timeoutMs.value {
        return Returned(snapshot.value), turns;
      }
      if poll.interrupted {
        return Threw("Operation aborted"), turns;
      }
      if timeoutMs.Some? && Spaced(polls) {
        TurnsBounded(jobId, timeoutMs.value, polls, turns - 1, stringify);
      }
    }
    outcome := StillWaiting;
  }

  // -------------------------------------------------- waiting for a task

  /** One turn of `waitForUpid`: the signal before it, the status read, and whether anything after it threw. */
  datatype TaskPoll = TaskPoll(aborted: bool, reply: Result<JsValue, string>, interrupted: bool)

  predicate KeepsWaiting(poll: TaskPoll) {
    !poll.aborted && poll.reply.Ok? && !IsStopped(poll.reply.value) && !poll.interrupted
  }

  /** Progress is reported once per unfinished turn, counting up from one. */
  predicate CountsUp(progress: seq<nat>) {
    forall i :: 0 <= i < |progress| ==> progress[i] == i + 1
  }

  /** `waitForUpid`: returns only the status of a stopped task and its log, read after it. */
  method WaitForUpid(upid: Json.JsString, polls: seq<TaskPoll>, log: Result<JsValue, string>)
    returns (outcome: Outcome<(JsValue, JsValue)>, attempts: nat, progress: seq<nat>)
    ensures attempts <= |polls| && CountsUp(progress)
    ensures outcome.StillWaiting? ==> attempts == |polls| && |progress| == attempts
    ensures outcome.Returned? ==>
              && UpidNode(upid).Some? && attempts > 0 && |progress| == attempts - 1
              && !polls[attempts - 1].aborted && polls[attempts - 1].reply == Ok(outcome.value.0)
              && IsStopped(outcome.value.0) && log == Ok(outcome.value.1)
              && forall i :: 0 <= i < attempts - 1 ==> KeepsWaiting(polls[i])
    ensures outcome.Threw? ==>
              || UpidNode(upid).None?
              || (attempts < |polls| && (polls[attempts].aborted || polls[attempts].reply.Err?))
              || (attempts > 0 && polls[attempts - 1].interrupted)
              || (attempts > 0 && log.Err?)
  {
    attempts, progress := 0, [];
    if UpidNode(upid).None? {
      return Threw("Invalid UPID"), 0, [];
    }
    while attempts < |polls|
      invariant attempts <= |polls| && |progress| == attempts && CountsUp(progress)
      invariant forall i :: 0 <= i < attempts ==> KeepsWaiting(polls[i])
    {
      var poll := polls[attempts];
      if poll.aborted {
        return Threw("Task wait aborted"), attempts, progress;
      }
      if poll.reply.Err? {
        return Threw(poll.reply.error), attempts, progress;
      }
      attempts := attempts + 1;
      if Member(poll.reply.value, "status") == Str("stopped") {
        if log.Err? {
          return Threw(log.error), attempts, progress;
        }
        return Returned((poll.reply.value, log.value)), attempts, progress;
      }
      progress := progress + [attempts];
      if poll.interrupted {
        return Threw("Operation aborted"), attempts, progress;
      }
    }
    outcome := StillWaiting;
  }

  // --------------------------------------- local and rehydrated outcomes

  /** What `waitForUpid` returns, as the job's result. */
  function TaskResult(status: JsValue, log: JsValue): JsValue {
    Obj([("status", status), ("log", log)])
  }

  /** A stopped task stays as it is; `statusAt(t)` is what a read at moment `t` answers. */
  ghost predicate StaysStopped(statusAt: nat -> JsValue) {
    forall t: nat, u: nat :: t <= u && IsStopped(statusAt(t)) ==> statusAt(u) == statusAt(t)
  }

  /** The executor of job `id` is `waitForUpid`: all it ever returned was a stopped status read before `now`. */
  ghost predicate ReturnsStoppedStatus(es: seq<Jobs.Event>, id: string, statusAt: nat -> JsValue, now: nat) {
    forall i: nat, r :: Jobs.ReturnedAt(es, id, i, r) ==> WasStopped(r, statusAt, now)
  }

  ghost predicate WasStopped(r: JsValue, statusAt: nat -> JsValue, now: nat) {
    exists t: nat, log :: t <= now && IsStopped(statusAt(t)) && r == TaskResult(statusAt(t), log)
  }

  /**
   Once a UPID-backed job has completed in this process, every later snapshot of it has ended too, with the
   very status the job holds. The two agree that it completed exactly when the task ended well: the registry
   calls any stopped task completed, and only the snapshot looks at the exit status.
   */
  lemma CompletedJobsStayEnded(es: seq<Jobs.Event>, p: UpidHandle.Payload, statusAt: nat -> JsValue,
                               now: nat, log: JsValue, stringify: JsValue -> string)
    requires Jobs.IsRun(es) && UpidHandle.MakeUpidJobId(p) in Jobs.After(es).jobs && UpidNode(p.upid).Some?
    requires Jobs.After(es).jobs[UpidHandle.MakeUpidJobId(p)].state.Completed?
    requires StaysStopped(statusAt) && ReturnsStoppedStatus(es, UpidHandle.MakeUpidJobId(p), statusAt, now)
    ensures var local := Jobs.After(es).jobs[UpidHandle.MakeUpidJobId(p)];
            var snapshot := Read(UpidHandle.MakeUpidJobId(p), Ok((statusAt(now), log)), stringify);
            && snapshot.Ok? && Jobs.IsTerminal(snapshot.value.state)
            && Member(local.result, "status") == snapshot.value.status
            && (snapshot.value.state == local.state <==> EndedWell(snapshot.value.status))
  {
    var id := UpidHandle.MakeUpidJobId(p);
    var i := Jobs.CompletedHoldsResult(es, id);
    var result := Jobs.After(es).jobs[id].result;
    assert WasStopped(result, statusAt, now);
    hide Jobs.After, Jobs.IsRun, UpidHandle.MakeUpidJobId, Read, EndedWell, IsStopped;
    var t: nat, l :| t <= now && IsStopped(statusAt(t)) && result == TaskResult(statusAt(t), l);
    ResultStatus(statusAt(t), l);
    RehydratedJob(p, Ok((statusAt(now), log)), stringify);
    ReadStatus(id, (statusAt(now), log), stringify);
  }

  lemma ResultStatus(status: JsValue, log: JsValue)
    ensures Member(TaskResult(status, log), "status") == status
  {
    var fields := [("status", status), ("log", log)];
    assert |"log"| == 3 && |"status"| == 6;
    assert fields[1].0 == "log" && fields[..1] == [("status", status)];
    assert Field([("status", status)], "status") == status;
    assert Field(fields, "status") == Field(fields[..1], "status");
  }

  lemma ReadStatus(jobId: string, answer: (JsValue, JsValue), stringify: JsValue -> string)
    ensures Read(jobId, Ok(answer), stringify).Ok? ==> Read(jobId, Ok(answer), stringify).value.status == answer.0
  {
    hide UpidHandle.ParseUpidJobId, UpidNode, NormalizeLogs, Classify;
  }

  // ---------------------------------------------------------- cancelling

  /** Where the cancellation goes: to a task of a cluster, to this process's controller, or nowhere. */
  datatype CancelPlan = ThroughProxmox(cluster: Json.JsString, upid: Json.JsString) | InProcess | UnknownJob

  /** The cluster a parsed handle names; the parser lets no other handle through. */
  function ClusterOf(handle: UpidHandle.Handle): Json.JsString {
    var cluster := UpidHandle.Get(handle.target, UpidHandle.Name("cluster"));
    if UpidHandle.IsString(cluster) then cluster.value.s else []
  }

  /** The branch `job_cancel` takes, given the local record if there is one. */
  function PlanCancel(local: Option<Jobs.Job>, jobId: string): CancelPlan {
    var handle := UpidHandle.ParseUpidJobId(jobId);
    if handle.Some? then ThroughProxmox(ClusterOf(handle.value), handle.value.upid)
    else if local.Some? && local.value.relatedUpid.Some? && local.value.relatedUpid.value != [] then
      ThroughProxmox(local.value.target.cluster, local.value.relatedUpid.value)
    else if local.Some? then InProcess
    else UnknownJob
  }

  /**
   A UPID-backed job is cancelled at the cluster and by the UPID it was made from, whether or not this
   process still knows it, and the snapshot that follows can be read exactly when the UPID names a node and
   the cluster answers. A process-local job without a task is aborted in process. One that was given a task
   later is cancelled at its own cluster, but its id is no handle, so the snapshot that follows fails.
   */
  lemma CancelReachesTheTask(p: UpidHandle.Payload, local: Option<Jobs.Job>, uuid: string, reply: Reply,
                             stringify: JsValue -> string)
    ensures PlanCancel(local, UpidHandle.MakeUpidJobId(p)) == ThroughProxmox(p.target.cluster, p.upid)
    ensures Read(UpidHandle.MakeUpidJobId(p), reply, stringify).Ok? <==> UpidNode(p.upid).Some? && reply.Ok?
    ensures Read(UpidHandle.MakeUpidJobId(p), reply, stringify).Ok? ==>
              Read(UpidHandle.MakeUpidJobId(p), reply, stringify).value.relatedUpid == p.upid
    ensures local.Some? && (local.value.relatedUpid.None? || local.value.relatedUpid == Some([])) ==>
              PlanCancel(local, "job_" + uuid) == InProcess
    ensures local.Some? && local.value.relatedUpid.Some? && local.value.relatedUpid.value != [] ==>
              && PlanCancel(local, "job_" + uuid) == ThroughProxmox(local.value.target.cluster, local.value.relatedUpid.value)
              && Read("job_" + uuid, reply, stringify).Err?
    ensures local.None? ==> PlanCancel(local, "job_" + uuid) == UnknownJob
  {
    UpidHandle.HandleRoundTrip(p);
    UpidHandle.LocalIdIsNoHandle(uuid);
    HandleCluster(p);
    RehydratedJob(p, reply, stringify);
    hide UpidHandle.MakeUpidJobId, UpidHandle.ParseUpidJobId, ClusterOf, UpidNode, NormalizeLogs, Classify, Rehydrates;
  }

  lemma HandleCluster(p: UpidHandle.Payload)
    ensures ClusterOf(UpidHandle.HandleOf(p)) == p.target.cluster
  {
    UpidHandle.TargetLookup(p.target);
    hide UpidHandle.Lookup, UpidHandle.TargetFields, UpidHandle.Name;
  }

  // -------------------------------------------------- a job that differs

  const FAILED_STATUS: JsValue := Obj([("status", Str("stopped")), ("exitstatus", Str("fail"))])

  lemma FailedStatus()
    ensures IsStopped(FAILED_STATUS) && ExitStatus(FAILED_STATUS) == "fail" && !EndedWell(FAILED_STATUS)
    ensures Classify(FAILED_STATUS).state.Failed?
  {
    var fields := FAILED_STATUS.fields;
    assert |"status"| == 6 && |"exitstatus"| == 10;
    assert fields[1].0 == "exitstatus" && fields[..1] == [("status", Str("stopped"))];
    assert Field([("status", Str("stopped"))], "status") == Str("stopped");
    assert Field(fields, "status") == Field(fields[..1], "status");
    Text.TrimFixed("fail");
    ClassifyMeaning(FAILED_STATUS);
    hide Classify, Text.Trim;
  }

  /** Created, run and completed with a stopped task that failed. */
  function FailedTaskRun(p: UpidHandle.Payload, log: JsValue): seq<Jobs.Event> {
    var id := UpidHandle.MakeUpidJobId(p);
    [Jobs.Create(id, p.target, p.operation, Some(p.upid), 0), Jobs.Run(id, 0),
     Jobs.Return(id, TaskResult(FAILED_STATUS, log), 0)]
  }

  lemma FailedTaskRuns(p: UpidHandle.Payload, log: JsValue)
    ensures var es, id := FailedTaskRun(p, log), UpidHandle.MakeUpidJobId(p);
            && Jobs.IsRun(es) && id in Jobs.After(es).jobs
            && Jobs.After(es).jobs[id].state.Completed?
            && Jobs.After(es).jobs[id].result == TaskResult(FAILED_STATUS, log)
  {
    hide UpidHandle.MakeUpidJobId;
    var es, id := FailedTaskRun(p, log), UpidHandle.MakeUpidJobId(p);
    assert es[..2] == [es[0], es[1]] && es[..2][..1] == [es[0]] && es[..2][..1][..0] == [];
    assert Jobs.After([es[0]]) == Jobs.Apply(Jobs.Initial, es[0]) && Jobs.IsRun([es[0]]);
    var s1 := Jobs.After([es[0]]);
    assert Jobs.After(es[..2]) == Jobs.Apply(s1, es[1]) && Jobs.IsRun(es[..2]);
    var s2 := Jobs.After(es[..2]);
    assert Jobs.After(es) == Jobs.Apply(s2, es[2]) && Jobs.IsRun(es);
  }

  function AlwaysFailed(t: nat): JsValue {
    FAILED_STATUS
  }

  lemma StoppedAt(r: JsValue, statusAt: nat -> JsValue, t: nat, log: JsValue)
    requires IsStopped(statusAt(t)) && r == TaskResult(statusAt(t), log)
    ensures WasStopped(r, statusAt, t)
  {
  }

  /** Such a job is completed in this process, and every snapshot of it says that it failed. */
  lemma CompletedHereFailedThere(p: UpidHandle.Payload, log: JsValue, stringify: JsValue -> string)
    requires UpidNode(p.upid).Some?
    ensures var es, id := FailedTaskRun(p, log), UpidHandle.MakeUpidJobId(p);
            var snapshot := Read(id, Ok((FAILED_STATUS, log)), stringify);
            && Jobs.IsRun(es) && id in Jobs.After(es).jobs && Jobs.After(es).jobs[id].state.Completed?
            && StaysStopped(AlwaysFailed) && ReturnsStoppedStatus(es, id, AlwaysFailed, 0)
            && snapshot.Ok? && snapshot.value.state.Failed?
  {
    var es, id := FailedTaskRun(p, log), UpidHandle.MakeUpidJobId(p);
    FailedTaskRuns(p, log);
    FailedStatus();
    RehydratedJob(p, Ok((FAILED_STATUS, log)), stringify);
    UpidHandle.HandleRoundTrip(p);
    hide UpidHandle.MakeUpidJobId, UpidHandle.ParseUpidJobId, Jobs.After, Jobs.IsRun, IsStopped, Classify, NormalizeLogs;
    forall i: nat, r | Jobs.ReturnedAt(es, id, i, r) ensures WasStopped(r, AlwaysFailed, 0) {
      StoppedAt(r, AlwaysFailed, 0, log);
    }
  }
}
