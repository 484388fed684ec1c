/** The Electron supervisor (`electron-main.js`): the profile list, the
    `workers` table from profile id to a worker record, and the handlers
    that change them. A worker record lives as long as its thread's event
    handlers: a record replaced in the table no longer receives anything,
    which is modelled by addressing every thread event with the thread id
    it came from. The external profile opener, the worker thread and the
    file system are parameters; clocks and window messages are left out. */
module Supervisor {
  import opened Options
  import opened Strings
  import opened Table
  import opened ProfileFile
  import Monitor
  import Timing

  datatype Status = Running | Stopped | Errored

  datatype Stats = Stats(totalVideos: nat, videosToday: nat, avgProcessingTime: real, processingTimes: seq<real>)

  const NoStats: Stats := Stats(0, 0, 0.0, [])

  /** One worker record: its thread, whether that thread is still running
      (`alive`), status, log messages (timestamps left out), statistics and
      the browser endpoint it was given. */
  datatype Runtime = Runtime(threadId: nat, status: Status, alive: bool, logs: seq<string>, stats: Stats, wsEndpoint: string)

  /** The profile list, the table, the contents of the project's own
      `profiles.txt` (absent when there is none) and the id the next worker
      thread gets. */
  datatype State = State(profiles: seq<Profile>, workers: seq<Entry<Runtime>>, profilesTxt: Option<string>, nextThread: nat)

  function Init(profilesTxt: Option<string>): State {
    State([], [], profilesTxt, 1)
  }

  datatype Reason =
    | ProfilesFileMissing | ReadFailed | WriteFailed
    | UnknownProfile | AlreadyRunning | OpenFailed | NoEndpoint
    | UnknownWorker

  datatype Reply = Ok | Started(workerId: nat) | Canceled | Refused(reason: Reason)

  const LogLimit: nat := 1000
  const LogKeep: nat := 500
  const WindowLimit: nat := 100
  const WindowKeep: nat := 50

  /** The window of processing times is within its limit and the average is
      its mean. */
  predicate StatsConsistent(st: Stats) {
    |st.processingTimes| <= WindowLimit
    && st.avgProcessingTime * |st.processingTimes| as real == Sum(st.processingTimes)
  }

  /** What every handler keeps: one record per profile id, thread ids below
      the next one handed out, consistent statistics. */
  predicate WellFormed(s: State) {
    && DistinctKeys(s.workers)
    && forall e :: e in s.workers ==> e.value.threadId < s.nextThread && StatsConsistent(e.value.stats)
  }

  lemma InitWellFormed(profilesTxt: Option<string>)
    ensures WellFormed(Init(profilesTxt))
  {
  }

  // ---------------------------------------------------------------------
  // Loading profiles

  /** `load-profiles`: read the project's `profiles.txt`; a missing or
      unreadable file leaves the list as it was, otherwise the list is
      replaced wholesale by the file's profiles. */
  function LoadProfiles(s: State, readFails: bool): (r: (State, Reply))
    ensures s.profilesTxt.None? ==> r == (s, Refused(ProfilesFileMissing))
    ensures s.profilesTxt.Some? && readFails ==> r == (s, Refused(ReadFailed))
    ensures r.1 == Ok <==> s.profilesTxt.Some? && !readFails
    ensures r.1 == Ok ==> r.0 == s.(profiles := ParseProfiles(s.profilesTxt.value))
  {
    match s.profilesTxt
    case None => (s, Refused(ProfilesFileMissing))
    case Some(raw) =>
      if readFails then (s, Refused(ReadFailed))
      else (s.(profiles := ParseProfiles(raw)), Ok)
  }

  /** The file dialog's answer: cancelled (or nothing picked), or the
      contents of the picked file (absent when reading it fails). */
  datatype Dialog = Dismissed | Picked(contents: Option<string>)

  /** `select-profiles-file`: parse the picked file, replace the list, then
      copy the file over the project's `profiles.txt`. A failed copy is
      reported although the list has already been replaced. */
  function SelectProfilesFile(s: State, d: Dialog, writeOk: bool): (r: (State, Reply))
    ensures d.Dismissed? ==> r == (s, Canceled)
    ensures d == Picked(None) ==> r == (s, Refused(ReadFailed))
    ensures d.Picked? && d.contents.Some? ==>
      && r.0.profiles == ParseProfiles(d.contents.value)
      && r.0.workers == s.workers
      && (r.1 == Ok <==> writeOk)
      && (writeOk ==> r.0.profilesTxt == d.contents)
      && (!writeOk ==> r.0.profilesTxt == s.profilesTxt && r.1 == Refused(WriteFailed))
  {
    match d
    case Dismissed => (s, Canceled)
    case Picked(None) => (s, Refused(ReadFailed))
    case Picked(Some(raw)) =>
      var s' := s.(profiles := ParseProfiles(raw));
      if writeOk then (s'.(profilesTxt := Some(raw)), Ok) else (s', Refused(WriteFailed))
  }

  /** After a successful selection, loading from the project's copy gives
      back exactly the profiles the selection installed. */
  lemma SelectThenLoad(s: State, raw: string)
    ensures var (s1, _) := SelectProfilesFile(s, Picked(Some(raw)), true);
      LoadProfiles(s1, false) == (s1, Ok)
  {
  }

  // ---------------------------------------------------------------------
  // The profile view

  /** `workerPid` is `null` without a record and otherwise the record's
      `worker.threadId`, which Node reports as -1 once the thread is gone. */
  datatype ProfileView = ProfileView(profileId: string, channels: seq<string>, status: Status, workerPid: Option<int>, stats: Stats)

  /** Node's `worker.threadId`: the thread's number while it runs, -1 after. */
  function ThreadIdOf(rt: Runtime): int {
    if rt.alive then rt.threadId else -1
  }

  function ViewOf(p: Profile, rt: Option<Runtime>): ProfileView {
    match rt
    case None => ProfileView(p.profileId, p.channels, Stopped, None, NoStats)
    case Some(w) => ProfileView(p.profileId, p.channels, w.status, Some(ThreadIdOf(w)), w.stats)
  }

  /** `get-profiles`: one view per profile in list order; a profile without
      a record shows as stopped, without a thread and with zero counts. */
  function GetProfiles(s: State): (vs: seq<ProfileView>)
    ensures |vs| == |s.profiles|
    ensures forall i :: 0 <= i < |vs| ==>
      vs[i].profileId == s.profiles[i].profileId && vs[i].channels == s.profiles[i].channels
    ensures forall i :: 0 <= i < |vs| ==>
      (vs[i].workerPid.None? <==> !HasKey(s.workers, s.profiles[i].profileId))
    ensures forall i :: 0 <= i < |vs| && !HasKey(s.workers, s.profiles[i].profileId) ==>
      vs[i].status == Stopped && vs[i].stats == NoStats
    ensures forall i :: 0 <= i < |vs| && HasKey(s.workers, s.profiles[i].profileId) ==>
      var rt := Get(s.workers, s.profiles[i].profileId).value;
      && Entry(s.profiles[i].profileId, rt) in s.workers
      && vs[i].status == rt.status && vs[i].stats == rt.stats
      && (rt.alive <==> vs[i].workerPid.value >= 0)
      && (rt.alive ==> vs[i].workerPid.value == rt.threadId)
  {
    seq(|s.profiles|, i requires 0 <= i < |s.profiles| => ViewOf(s.profiles[i], Get(s.workers, s.profiles[i].profileId)))
  }

  // ---------------------------------------------------------------------
  // Opening the browser profile

  /** `getWsEndpoint`'s answer: it threw, or the endpoint it reported. */
  datatype Probe = ProbeThrew | Probed(wsEndpoint: Option<string>)

  /** One `runProfile` call: it threw, or its success flag and endpoint. */
  datatype RunResult = RunThrew | Ran(success: bool, wsEndpoint: Option<string>)

  predicate RunOpened(r: RunResult) {
    r.Ran? && r.success && Monitor.Truthy(r.wsEndpoint)
  }

  /** How many times `runProfile` is retried after the first call fails. */
  const Retries: nat := 15

  datatype Acquired = OpenThrew | NotOpened | Opened(ws: string)

  /** The call ran and did not open the profile. */
  predicate RunFailed(r: RunResult) {
    r.Ran? && !RunOpened(r)
  }

  /** Calls `run(k)`, `run(k + 1)`, … up to `run(Retries)` until one opens
      the profile or throws. */
  function RunFrom(run: nat -> RunResult, k: nat): (a: Acquired)
    requires k <= Retries + 1
    ensures a.Opened? ==> exists j :: k <= j <= Retries && RunOpened(run(j)) && a.ws == run(j).wsEndpoint.value
                                     && forall i :: k <= i < j ==> RunFailed(run(i))
    ensures a.NotOpened? <==> forall i :: k <= i <= Retries ==> RunFailed(run(i))
    ensures a.OpenThrew? ==> exists j :: k <= j <= Retries && run(j).RunThrew?
                                         && forall i :: k <= i < j ==> RunFailed(run(i))
    decreases Retries + 1 - k
  {
    if k > Retries then NotOpened
    else if run(k).RunThrew? then OpenThrew
    else if RunOpened(run(k)) then Opened(run(k).wsEndpoint.value)
    else
      assert RunFailed(run(k));
      RunFrom(run, k + 1)
  }

  /** Lines 184-208: use the endpoint of an already open profile, else run
      the profile once and then up to `Retries` more times. `run(k)` is the
      answer to the `k`-th `runProfile` call. */
  function AcquireEndpoint(probe: Probe, run: nat -> RunResult): (a: Acquired)
    ensures a.Opened? ==> a.ws != ""
    ensures probe.ProbeThrew? ==> a == OpenThrew
    ensures probe.Probed? && Monitor.Truthy(probe.wsEndpoint) ==> a == Opened(probe.wsEndpoint.value)
    ensures probe.Probed? && !Monitor.Truthy(probe.wsEndpoint) ==> a == RunFrom(run, 0)
  {
    match probe
    case ProbeThrew => OpenThrew
    case Probed(ws) => if Monitor.Truthy(ws) then Opened(ws.value) else RunFrom(run, 0)
  }

  /** Only the first `Retries + 1` answers of `runProfile` matter: there are
      never more than 16 calls to it, 17 calls in all with the probe. */
  lemma {:induction false} RunFromUsesBoundedCalls(run: nat -> RunResult, run': nat -> RunResult, k: nat)
    requires k <= Retries + 1
    requires forall i :: k <= i <= Retries ==> run(i) == run'(i)
    ensures RunFrom(run, k) == RunFrom(run', k)
    decreases Retries + 1 - k
  {
    if k <= Retries {
      RunFromUsesBoundedCalls(run, run', k + 1);
    }
  }

  lemma AcquireUsesBoundedCalls(probe: Probe, run: nat -> RunResult, run': nat -> RunResult)
    requires forall i :: 0 <= i <= Retries ==> run(i) == run'(i)
    ensures AcquireEndpoint(probe, run) == AcquireEndpoint(probe, run')
  {
    RunFromUsesBoundedCalls(run, run', 0);
  }

  // ---------------------------------------------------------------------
  // Starting a worker

  /** The data a new worker thread is started with. */
  function SpawnData(p: Profile, ws: string): Monitor.WorkerData {
    Monitor.WorkerData(p.profileId, Some(p.apiKey), Some(p.channels), Some(ws))
  }

  /** The record of a freshly started worker. */
  function Fresh(threadId: nat, ws: string): Runtime {
    Runtime(threadId, Running, true, [], NoStats, ws)
  }

  predicate IsRunning(s: State, id: string) {
    Get(s.workers, id).Some? && Get(s.workers, id).value.status == Running
  }

  /** `start-worker`: refuse an unknown profile and a record that is
      running; open the browser profile; on success put a fresh running
      record under the id (replacing a stopped or failed one in place). A
      refusal changes nothing. The old thread of a replaced record is told
      to terminate; its exit arrives later as an `Exit` event. */
  function StartWorker(s: State, id: string, probe: Probe, run: nat -> RunResult): (r: (State, Reply))
    ensures FindProfile(s.profiles, id).None? ==> r == (s, Refused(UnknownProfile))
    ensures FindProfile(s.profiles, id).Some? && IsRunning(s, id) ==> r == (s, Refused(AlreadyRunning))
    ensures r.1.Started? <==> FindProfile(s.profiles, id).Some? && !IsRunning(s, id) && AcquireEndpoint(probe, run).Opened?
    ensures !r.1.Started? ==> r.0 == s
    ensures r.1.Started? ==> && r.1.workerId == s.nextThread
                             && r.0 == s.(workers := Put(s.workers, id, Fresh(s.nextThread, AcquireEndpoint(probe, run).ws)),
                                          nextThread := s.nextThread + 1)
    ensures r.1.Refused? && r.1.reason == OpenFailed <==>
      FindProfile(s.profiles, id).Some? && !IsRunning(s, id) && AcquireEndpoint(probe, run).OpenThrew?
    ensures r.1.Refused? && r.1.reason == NoEndpoint <==>
      FindProfile(s.profiles, id).Some? && !IsRunning(s, id) && AcquireEndpoint(probe, run).NotOpened?
  {
    match FindProfile(s.profiles, id)
    case None => (s, Refused(UnknownProfile))
    case Some(p) =>
      if IsRunning(s, id) then (s, Refused(AlreadyRunning))
      else
        match AcquireEndpoint(probe, run)
        case OpenThrew => (s, Refused(OpenFailed))
        case NotOpened => (s, Refused(NoEndpoint))
        case Opened(ws) =>
          (s.(workers := Put(s.workers, id, Fresh(s.nextThread, ws)), nextThread := s.nextThread + 1), Started(s.nextThread))
  }

  /** A worker the supervisor starts always has an endpoint: its own start-up
      check can only stop it for a missing key or missing channels. */
  lemma StartedWorkerHasEndpoint(s: State, id: string, probe: Probe, run: nat -> RunResult)
    requires StartWorker(s, id, probe, run).1.Started?
    ensures var data := SpawnData(FindProfile(s.profiles, id).value, AcquireEndpoint(probe, run).ws);
      && Monitor.StartupCheck(data) != Monitor.MissingEndpoint
      && (Monitor.StartupCheck(data) == Monitor.Monitoring <==> data.apiKey != Some("") && data.channels != Some([]))
  {
  }

  // ---------------------------------------------------------------------
  // Thread events

  /** The record an event of thread `thread` for profile `id` reaches: the
      one in the table, if it is still that thread's. */
  function Addressed(s: State, id: string, thread: nat): (r: Option<Runtime>)
    ensures r.Some? ==> Get(s.workers, id) == r && r.value.threadId == thread
    ensures r.None? ==> Get(s.workers, id).None? || Get(s.workers, id).value.threadId != thread
  {
    match Get(s.workers, id)
    case None => None
    case Some(rt) => if rt.threadId == thread then Some(rt) else None
  }

  /** A sample from the processing-time window: push, cap at 100 keeping the
      newest 50, recompute the mean. */
  function Record(st: Stats, t: real): (r: Stats)
    ensures StatsConsistent(r)
    ensures |r.processingTimes| > 0 && r.processingTimes[|r.processingTimes| - 1] == t
    ensures IsSuffix(r.processingTimes, st.processingTimes + [t])
    ensures |st.processingTimes| < WindowLimit ==> r.processingTimes == st.processingTimes + [t]
    ensures |st.processingTimes| >= WindowLimit ==> |r.processingTimes| == WindowKeep
    ensures r.totalVideos == st.totalVideos && r.videosToday == st.videosToday
  {
    var times := Cap(st.processingTimes + [t], WindowLimit, WindowKeep);
    MeanTimesCount(Sum(times), |times|);
    st.(processingTimes := times, avgProcessingTime := Sum(times) / |times| as real)
  }

  /** The mean of `n > 0` samples times `n` is their sum. */
  lemma MeanTimesCount(total: real, n: nat)
    requires n > 0
    ensures (total / n as real) * n as real == total
  {
  }

  /** How a timing line's elapsed time is read: `AsWritten` takes the
      first `<digits>s` in the line, as the handler does; `Corrected` takes
      the last one, the total the line reports. */
  datatype Reading = AsWritten | Corrected

  function SampleOf(reading: Reading, msg: string): Option<real> {
    match reading
    case AsWritten => Timing.SampleAsWritten(msg)
    case Corrected => Timing.Sample(msg)
  }

  /** What a worker message does to its record (lines 244-272): log it
      within the cap, count an upload, and record the elapsed time of a
      timing line, read as `reading` says. */
  function OnMessageRecord(rt: Runtime, msg: string, reading: Reading): (r: Runtime)
    ensures r.threadId == rt.threadId && r.status == rt.status && r.alive == rt.alive && r.wsEndpoint == rt.wsEndpoint
    ensures 0 < |r.logs| <= LogLimit && r.logs[|r.logs| - 1] == msg && IsSuffix(r.logs, rt.logs + [msg])
    ensures |r.logs| >= Min(|rt.logs| + 1, LogKeep)
    ensures |rt.logs| + 1 <= LogLimit ==> r.logs == rt.logs + [msg]
    ensures |rt.logs| + 1 > LogLimit ==> |r.logs| == LogKeep
    ensures r.stats.totalVideos == rt.stats.totalVideos + (if Contains(msg, Monitor.UploadDoneMarker) then 1 else 0)
    ensures r.stats.videosToday == rt.stats.videosToday + (if Contains(msg, Monitor.UploadDoneMarker) then 1 else 0)
    ensures Contains(msg, Timing.TimingKeyword) && SampleOf(reading, msg).Some? ==>
      |r.stats.processingTimes| > 0 && r.stats.processingTimes[|r.stats.processingTimes| - 1] == SampleOf(reading, msg).value
    ensures !(Contains(msg, Timing.TimingKeyword) && SampleOf(reading, msg).Some?) ==>
      r.stats.processingTimes == rt.stats.processingTimes && r.stats.avgProcessingTime == rt.stats.avgProcessingTime
    ensures StatsConsistent(rt.stats) ==> StatsConsistent(r.stats)
  {
    rt.(logs := PushLog(rt.logs, msg), stats := MessageStats(rt.stats, msg, reading))
  }

  /** The counters a worker message updates: an upload line counts a video,
      a timing line with a readable elapsed time is recorded. */
  function MessageStats(st: Stats, msg: string, reading: Reading): (r: Stats)
    ensures r.totalVideos == st.totalVideos + (if Contains(msg, Monitor.UploadDoneMarker) then 1 else 0)
    ensures r.videosToday == st.videosToday + (if Contains(msg, Monitor.UploadDoneMarker) then 1 else 0)
    ensures Contains(msg, Timing.TimingKeyword) && SampleOf(reading, msg).Some? ==>
      |r.processingTimes| > 0 && r.processingTimes[|r.processingTimes| - 1] == SampleOf(reading, msg).value
    ensures !(Contains(msg, Timing.TimingKeyword) && SampleOf(reading, msg).Some?) ==>
      r.processingTimes == st.processingTimes && r.avgProcessingTime == st.avgProcessingTime
    ensures StatsConsistent(st) ==> StatsConsistent(r)
  {
    var counted := CountUpload(st, Contains(msg, Monitor.UploadDoneMarker));
    var sample := if Contains(msg, Timing.TimingKeyword) then SampleOf(reading, msg) else None;
    MaybeRecord(counted, sample)
  }

  /** Lines 250-253: push a message, keeping the newest 500 once there are
      more than 1000. */
  function PushLog(logs: seq<string>, msg: string): (r: seq<string>)
    ensures 0 < |r| <= LogLimit && r[|r| - 1] == msg && IsSuffix(r, logs + [msg])
    ensures |r| >= Min(|logs| + 1, LogKeep)
    ensures |logs| + 1 <= LogLimit ==> r == logs + [msg]
    ensures |logs| + 1 > LogLimit ==> |r| == LogKeep
  {
    var r := Cap(logs + [msg], LogLimit, LogKeep);
    assert r[|r| - 1] == (logs + [msg])[|logs|];
    r
  }

  /** Lines 256-259: an upload line adds one to both counts. */
  function CountUpload(st: Stats, upload: bool): (r: Stats)
    ensures r.totalVideos == st.totalVideos + (if upload then 1 else 0)
    ensures r.videosToday == st.videosToday + (if upload then 1 else 0)
    ensures r.processingTimes == st.processingTimes && r.avgProcessingTime == st.avgProcessingTime
    ensures StatsConsistent(st) ==> StatsConsistent(r)
  {
    if upload then st.(totalVideos := st.totalVideos + 1, videosToday := st.videosToday + 1) else st
  }

  /** Lines 261-271: a sample, when there is one, goes into the window. */
  function MaybeRecord(st: Stats, sample: Option<real>): (r: Stats)
    ensures sample.None? ==> r == st
    ensures sample.Some? ==> |r.processingTimes| > 0 && r.processingTimes[|r.processingTimes| - 1] == sample.value
    ensures r.totalVideos == st.totalVideos && r.videosToday == st.videosToday
    ensures StatsConsistent(st) ==> StatsConsistent(r)
  {
    match sample
    case None => st
    case Some(t) => Record(st, t)
  }

  /** A thread event changes at most the record under `id`: the profile
      list, the stored file, the thread counter, the table's keys in their
      order and every other record stay as they were. */
  predicate OnlyRecordChanged(s: State, r: State, id: string) {
    && r.profiles == s.profiles && r.profilesTxt == s.profilesTxt && r.nextThread == s.nextThread
    && |r.workers| == |s.workers|
    && (forall i :: 0 <= i < |s.workers| ==> r.workers[i].key == s.workers[i].key)
    && (forall i :: 0 <= i < |s.workers| && s.workers[i].key != id ==> r.workers[i] == s.workers[i])
  }

  /** `worker.on('message')`, with the elapsed time read as `reading` says;
      the handler as written is `OnMessage(s, id, thread, msg, AsWritten)`. */
  function OnMessage(s: State, id: string, thread: nat, msg: string, reading: Reading): (r: State)
    ensures Addressed(s, id, thread).None? ==> r == s
    ensures Addressed(s, id, thread).Some? ==> OnlyRecordChanged(s, r, id)
    ensures Addressed(s, id, thread).Some? ==>
      Get(r.workers, id) == Some(OnMessageRecord(Addressed(s, id, thread).value, msg, reading))
  {
    match Addressed(s, id, thread)
    case None => s
    case Some(rt) =>
      PutGetSame(s.workers, id, OnMessageRecord(rt, msg, reading));
      s.(workers := Put(s.workers, id, OnMessageRecord(rt, msg, reading)))
  }

  /** Lines 290-301: the record fails and the error is logged (this push is
      not capped). */
  function OnError(s: State, id: string, thread: nat, message: string): (r: State)
    ensures Addressed(s, id, thread).None? ==> r == s
    ensures Addressed(s, id, thread).Some? ==> OnlyRecordChanged(s, r, id)
    ensures Addressed(s, id, thread).Some? ==>
      var rt := Addressed(s, id, thread).value;
      && Get(r.workers, id).Some?
      && Get(r.workers, id).value.status == Errored
      && Get(r.workers, id).value.logs == rt.logs + ["❌ Worker error: " + message]
      && Get(r.workers, id).value.(status := rt.status, logs := rt.logs) == rt
  {
    match Addressed(s, id, thread)
    case None => s
    case Some(rt) =>
      var failed := rt.(status := Errored, logs := rt.logs + ["❌ Worker error: " + message]);
      PutGetSame(s.workers, id, failed);
      s.(workers := Put(s.workers, id, failed))
  }

  /** The record after its thread exits with `code`: a non-zero code is a
      failure, zero a stop. */
  function Exited(rt: Runtime, code: int): (r: Runtime)
    ensures !r.alive
    ensures r.status == Stopped <==> code == 0
    ensures r.status == Errored <==> code != 0
    ensures r.threadId == rt.threadId && r.logs == rt.logs && r.stats == rt.stats
  {
    rt.(alive := false, status := if code != 0 then Errored else Stopped)
  }

  /** A terminated thread exits with code 1. */
  const TerminatedCode: int := 1

  function OnExit(s: State, id: string, thread: nat, code: int): (r: State)
    ensures Addressed(s, id, thread).None? ==> r == s
    ensures Addressed(s, id, thread).Some? ==> OnlyRecordChanged(s, r, id)
    ensures Addressed(s, id, thread).Some? ==> Get(r.workers, id) == Some(Exited(Addressed(s, id, thread).value, code))
  {
    match Addressed(s, id, thread)
    case None => s
    case Some(rt) =>
      PutGetSame(s.workers, id, Exited(rt, code));
      s.(workers := Put(s.workers, id, Exited(rt, code)))
  }

  // ---------------------------------------------------------------------
  // Stopping

  /** `await worker.terminate()`: a thread still running exits with code 1
      before the wait ends. */
  function Terminate(rt: Runtime): (r: Runtime)
    ensures !r.alive
    ensures !rt.alive ==> r == rt
    ensures rt.alive ==> r.status == Errored
    ensures r.threadId == rt.threadId && r.logs == rt.logs && r.stats == rt.stats && r.wsEndpoint == rt.wsEndpoint
  {
    if rt.alive then Exited(rt, TerminatedCode) else rt
  }

  /** `stop-worker`: an unknown id is refused; a known record is terminated,
      then marked stopped and kept in the table. */
  function StopWorker(s: State, id: string): (r: (State, Reply))
    ensures !HasKey(s.workers, id) ==> r == (s, Refused(UnknownWorker))
    ensures HasKey(s.workers, id) ==> r.1 == Ok && r.0 == s.(workers := Put(s.workers, id, Terminate(Get(s.workers, id).value).(status := Stopped)))
  {
    match Get(s.workers, id)
    case None => (s, Refused(UnknownWorker))
    case Some(rt) => (s.(workers := Put(s.workers, id, Terminate(rt).(status := Stopped))), Ok)
  }

  function MapRecords(m: seq<Entry<Runtime>>, f: Runtime -> Runtime): (r: seq<Entry<Runtime>>)
    ensures |r| == |m|
    ensures forall i :: 0 <= i < |m| ==> r[i] == Entry(m[i].key, f(m[i].value))
  {
    if |m| == 0 then [] else [Entry(m[0].key, f(m[0].value))] + MapRecords(m[1..], f)
  }

  /** Stopping a known worker changes only its record, which ends stopped,
      without a thread, and with its thread number, logs and counts. */
  lemma StopWorkerKeepsRecord(s: State, id: string)
    requires HasKey(s.workers, id)
    ensures OnlyRecordChanged(s, StopWorker(s, id).0, id)
    ensures var rt := Get(s.workers, id).value;
      var n := Get(StopWorker(s, id).0.workers, id);
      && n.Some? && n.value.status == Stopped && !n.value.alive
      && n.value.threadId == rt.threadId && n.value.logs == rt.logs && n.value.stats == rt.stats
  {
    PutGetSame(s.workers, id, Terminate(Get(s.workers, id).value).(status := Stopped));
  }

  /** As written (lines 337-347): every record is marked stopped first and
      only then are the terminations awaited, so each running thread's exit
      (code 1) overwrites the mark with a failure. */
  function StopAllRecordAsWritten(rt: Runtime): Runtime {
    var marked := rt.(status := Stopped);
    Terminate(marked)
  }

  function StopAllAsWritten(s: State): (r: (State, Reply))
    ensures r.1 == Ok && r.0.profiles == s.profiles
    ensures Keys(r.0.workers) == Keys(s.workers)
  {
    (s.(workers := MapRecords(s.workers, StopAllRecordAsWritten)), Ok)
  }

  /** Stopping all workers leaves every record whose thread was running
      marked as failed, not stopped. */
  lemma StopAllAsWrittenLeavesFailures(s: State)
    ensures forall i :: 0 <= i < |s.workers| && s.workers[i].value.alive ==>
      StopAllAsWritten(s).0.workers[i].value.status == Errored
    ensures forall i :: 0 <= i < |s.workers| && !s.workers[i].value.alive ==>
      StopAllAsWritten(s).0.workers[i].value.status == Stopped
  {
  }

  /** The evidently intended stop-all: every record ends as `stop-worker`
      leaves it. */
  function StopAllRecord(rt: Runtime): Runtime {
    Terminate(rt).(status := Stopped)
  }

  function StopAll(s: State): (r: (State, Reply))
    ensures r.1 == Ok && r.0.profiles == s.profiles
    ensures Keys(r.0.workers) == Keys(s.workers)
    ensures forall i :: 0 <= i < |r.0.workers| ==> r.0.workers[i].value.status == Stopped && !r.0.workers[i].value.alive
  {
    (s.(workers := MapRecords(s.workers, StopAllRecord)), Ok)
  }

  /** Stop-all agrees with stopping each worker on its own. */
  lemma StopAllIsStopEach(s: State, id: string)
    requires WellFormed(s) && HasKey(s.workers, id)
    ensures Get(StopAll(s).0.workers, id) == Get(StopWorker(s, id).0.workers, id)
  {
    MapRecordsGet(s.workers, StopAllRecord, id);
    PutGetSame(s.workers, id, Terminate(Get(s.workers, id).value).(status := Stopped));
  }

  /** Mapping the records keeps keys distinct. */
  lemma MapRecordsDistinct(m: seq<Entry<Runtime>>, f: Runtime -> Runtime)
    requires DistinctKeys(m)
    ensures DistinctKeys(MapRecords(m, f))
  {
    var w := MapRecords(m, f);
    assert forall j :: 0 <= j < |w| ==> w[j].key == m[j].key;
  }

  /** A mapped table gives the mapped record under each key. */
  lemma MapRecordsGet(m: seq<Entry<Runtime>>, f: Runtime -> Runtime, k: string)
    requires DistinctKeys(m) && HasKey(m, k)
    ensures Get(MapRecords(m, f), k) == Some(f(Get(m, k).value))
  {
    var i :| 0 <= i < |m| && m[i].key == k;
    var w := MapRecords(m, f);
    MapRecordsDistinct(m, f);
    assert w[i] == Entry(k, f(m[i].value));
    assert Get(m, k) == Some(m[i].value);
  }

  // ---------------------------------------------------------------------
  // Queries

  /** `get-worker-logs`. */
  function GetWorkerLogs(s: State, id: string): (logs: seq<string>)
    ensures !HasKey(s.workers, id) ==> logs == []
    ensures HasKey(s.workers, id) ==> exists rt :: Entry(id, rt) in s.workers && logs == rt.logs
  {
    match Get(s.workers, id)
    case None => []
    case Some(rt) => rt.logs
  }

  datatype Summary = Summary(profileId: string, status: Status, stats: Stats)

  datatype Analytics = Analytics(totalProfiles: nat, runningWorkers: nat, totalVideos: nat, videosToday: nat,
                                 avgProcessingTime: real, profiles: seq<Summary>)

  function RunningOne(rt: Runtime): nat {
    if rt.status == Running then 1 else 0
  }

  function UploadsOf(rt: Runtime): nat {
    rt.stats.totalVideos
  }

  function TodayOf(rt: Runtime): nat {
    rt.stats.videosToday
  }

  /** Every record's processing times, in table order. */
  function AllTimes(m: seq<Entry<Runtime>>): seq<real> {
    if |m| == 0 then [] else m[0].value.stats.processingTimes + AllTimes(m[1..])
  }

  /** The ids whose records are running, in table order. */
  function RunningIds(m: seq<Entry<Runtime>>): (ids: seq<string>)
    ensures |ids| == Tally(m, RunningOne)
    ensures forall id :: id in ids <==> exists i :: 0 <= i < |m| && m[i].key == id && m[i].value.status == Running
  {
    if |m| == 0 then []
    else
      var rest := RunningIds(m[1..]);
      assert forall i :: 1 <= i < |m| ==> m[i] == m[1..][i - 1];
      if m[0].value.status == Running then [m[0].key] + rest else rest
  }

  /** `get-analytics`. */
  function GetAnalytics(s: State): (a: Analytics)
    ensures a.totalProfiles == |s.profiles|
    ensures a.runningWorkers == |RunningIds(s.workers)| <= |s.workers|
    ensures a.totalVideos == Tally(s.workers, UploadsOf) && a.videosToday == Tally(s.workers, TodayOf)
    ensures a.avgProcessingTime * |AllTimes(s.workers)| as real == Sum(AllTimes(s.workers))
    ensures |AllTimes(s.workers)| == 0 ==> a.avgProcessingTime == 0.0
    ensures |a.profiles| == |s.workers|
    ensures forall i :: 0 <= i < |s.workers| ==>
      a.profiles[i] == Summary(s.workers[i].key, s.workers[i].value.status, s.workers[i].value.stats)
  {
    var times := AllTimes(s.workers);
    var avg := if |times| > 0 then MeanTimesCount(Sum(times), |times|); Sum(times) / |times| as real else 0.0;
    TallyBound(s.workers);
    Analytics(|s.profiles|, Tally(s.workers, RunningOne), Tally(s.workers, UploadsOf), Tally(s.workers, TodayOf), avg,
              seq(|s.workers|, i requires 0 <= i < |s.workers| => Summary(s.workers[i].key, s.workers[i].value.status, s.workers[i].value.stats)))
  }

  lemma {:induction false} TallyBound(m: seq<Entry<Runtime>>)
    ensures Tally(m, RunningOne) <= |m|
  {
    if |m| > 0 {
      TallyBound(m[1..]);
    }
  }

  /** A started worker adds one to the running count. */
  lemma StartCountsRunning(s: State, id: string, probe: Probe, run: nat -> RunResult)
    requires WellFormed(s)
    requires StartWorker(s, id, probe, run).1.Started?
    ensures GetAnalytics(StartWorker(s, id, probe, run).0).runningWorkers == GetAnalytics(s).runningWorkers + 1
  {
    TallyPut(s.workers, id, Fresh(s.nextThread, AcquireEndpoint(probe, run).ws), RunningOne);
  }

  /** Stopping a running worker takes one off the running count; stopping
      any other record leaves it. */
  lemma StopCountsRunning(s: State, id: string)
    requires WellFormed(s) && HasKey(s.workers, id)
    ensures GetAnalytics(StopWorker(s, id).0).runningWorkers
         == GetAnalytics(s).runningWorkers - (if IsRunning(s, id) then 1 else 0)
  {
    TallyPut(s.workers, id, Terminate(Get(s.workers, id).value).(status := Stopped), RunningOne);
  }

  /** After stop-all nothing is running. */
  lemma {:induction false} StopAllStopsEverything(m: seq<Entry<Runtime>>)
    ensures Tally(MapRecords(m, StopAllRecord), RunningOne) == 0
  {
    if |m| > 0 {
      StopAllStopsEverything(m[1..]);
      assert MapRecords(m, StopAllRecord)[1..] == MapRecords(m[1..], StopAllRecord);
    }
  }

  /** Each upload message a live worker sends adds exactly one to the
      analytics totals, and any other message adds nothing. */
  lemma UploadCounted(s: State, id: string, thread: nat, msg: string, reading: Reading)
    requires WellFormed(s)
    requires Addressed(s, id, thread).Some?
    ensures GetAnalytics(OnMessage(s, id, thread, msg, reading)).totalVideos
         == GetAnalytics(s).totalVideos + (if Contains(msg, Monitor.UploadDoneMarker) then 1 else 0)
    ensures GetAnalytics(OnMessage(s, id, thread, msg, reading)).videosToday
         == GetAnalytics(s).videosToday + (if Contains(msg, Monitor.UploadDoneMarker) then 1 else 0)
  {
    var rt := Addressed(s, id, thread).value;
    TallyPut(s.workers, id, OnMessageRecord(rt, msg, reading), UploadsOf);
    TallyPut(s.workers, id, OnMessageRecord(rt, msg, reading), TodayOf);
  }

  // ---------------------------------------------------------------------
  // The invariant

  datatype Command =
    | Load(readFails: bool)
    | Select(dialog: Dialog, writeOk: bool)
    | Start(id: string, probe: Probe, run: nat -> RunResult)
    | Message(id: string, thread: nat, msg: string)
    | Error(id: string, thread: nat, message: string)
    | Exit(id: string, thread: nat, code: int)
    | Stop(id: string)
    | StopEvery

  /** One handler call or thread event. `reading` picks the handlers as
      written (the timing sample and stop-all of lines 261-265 and 337-347)
      or their corrected forms. No handler drops a record or reuses a
      thread number, and only the two profile-file handlers touch the
      profile list. */
  function Apply(s: State, c: Command, reading: Reading): (r: State)
    ensures r.nextThread >= s.nextThread
    ensures |r.workers| >= |s.workers| && forall i :: 0 <= i < |s.workers| ==> r.workers[i].key == s.workers[i].key
    ensures !c.Load? && !c.Select? ==> r.profiles == s.profiles && r.profilesTxt == s.profilesTxt
  {
    match c
    case Load(readFails) => LoadProfiles(s, readFails).0
    case Select(d, writeOk) => SelectProfilesFile(s, d, writeOk).0
    case Start(id, probe, run) => StartWorker(s, id, probe, run).0
    case Message(id, thread, msg) => OnMessage(s, id, thread, msg, reading)
    case Error(id, thread, message) => OnError(s, id, thread, message)
    case Exit(id, thread, code) => OnExit(s, id, thread, code)
    case Stop(id) => StopWorker(s, id).0
    case StopEvery => if reading == AsWritten then StopAllAsWritten(s).0 else StopAll(s).0
  }

  lemma PutGetSame(m: seq<Entry<Runtime>>, id: string, rt: Runtime)
    ensures Get(Put(m, id, rt), id) == Some(rt)
  {
    var r := Put(m, id, rt);
    if !HasKey(m, id) {
      assert r[|m|] == Entry(id, rt);
      assert forall i :: 0 <= i < |m| ==> r[i].key == m[i].key;
    }
  }

  /** Putting a record that keeps the invariant's per-record facts keeps the
      invariant. */
  lemma PutKeepsWellFormed(s: State, id: string, rt: Runtime, next: nat)
    requires WellFormed(s) && next >= s.nextThread
    requires rt.threadId < next && StatsConsistent(rt.stats)
    ensures WellFormed(s.(workers := Put(s.workers, id, rt), nextThread := next))
  {
    PutGet(s.workers, id, rt);
    var w := Put(s.workers, id, rt);
    forall e | e in w
      ensures e.value.threadId < next && StatsConsistent(e.value.stats)
    {
      var i :| 0 <= i < |w| && w[i] == e;
      if i >= |s.workers| {
        assert e == Entry(id, rt);
      } else if s.workers[i].key != id {
        assert e == s.workers[i];
      } else {
        assert Get(w, id) == Some(e.value);
      }
    }
  }

  lemma StopAllKeepsWellFormed(s: State)
    requires WellFormed(s)
    ensures WellFormed(StopAll(s).0)
  {
    var w := StopAll(s).0.workers;
    MapRecordsDistinct(s.workers, StopAllRecord);
    forall e | e in w
      ensures e.value.threadId < s.nextThread && StatsConsistent(e.value.stats)
    {
      var i :| 0 <= i < |w| && w[i] == e;
      var prev := s.workers[i];
      assert prev in s.workers;
      assert e.value == StopAllRecord(prev.value);
      assert e.value.threadId == prev.value.threadId && e.value.stats == prev.value.stats;
    }
  }

  lemma StopAllAsWrittenKeepsWellFormed(s: State)
    requires WellFormed(s)
    ensures WellFormed(StopAllAsWritten(s).0)
  {
    var w := StopAllAsWritten(s).0.workers;
    MapRecordsDistinct(s.workers, StopAllRecordAsWritten);
    forall e | e in w
      ensures e.value.threadId < s.nextThread && StatsConsistent(e.value.stats)
    {
      var i :| 0 <= i < |w| && w[i] == e;
      var prev := s.workers[i];
      assert prev in s.workers;
      assert e.value == StopAllRecordAsWritten(prev.value);
      assert e.value.threadId == prev.value.threadId && e.value.stats == prev.value.stats;
    }
  }

  lemma StartKeepsWellFormed(s: State, id: string, probe: Probe, run: nat -> RunResult)
    requires WellFormed(s)
    ensures WellFormed(StartWorker(s, id, probe, run).0)
  {
    if StartWorker(s, id, probe, run).1.Started? {
      PutKeepsWellFormed(s, id, Fresh(s.nextThread, AcquireEndpoint(probe, run).ws), s.nextThread + 1);
    }
  }

  lemma EventKeepsWellFormed(s: State, id: string, thread: nat, rt: Runtime)
    requires WellFormed(s) && Addressed(s, id, thread).Some?
    requires rt.threadId == thread && StatsConsistent(rt.stats)
    ensures WellFormed(s.(workers := Put(s.workers, id, rt)))
  {
    assert Entry(id, Addressed(s, id, thread).value) in s.workers;
    PutKeepsWellFormed(s, id, rt, s.nextThread);
  }

  lemma MessageKeepsWellFormed(s: State, id: string, thread: nat, msg: string, reading: Reading)
    requires WellFormed(s)
    ensures WellFormed(OnMessage(s, id, thread, msg, reading))
  {
    var a := Addressed(s, id, thread);
    if a.Some? {
      EventKeepsWellFormed(s, id, thread, OnMessageRecord(a.value, msg, reading));
    }
  }

  lemma ErrorKeepsWellFormed(s: State, id: string, thread: nat, message: string)
    requires WellFormed(s)
    ensures WellFormed(OnError(s, id, thread, message))
  {
    var a := Addressed(s, id, thread);
    if a.Some? {
      EventKeepsWellFormed(s, id, thread, a.value.(status := Errored, logs := a.value.logs + ["❌ Worker error: " + message]));
    }
  }

  lemma ExitKeepsWellFormed(s: State, id: string, thread: nat, code: int)
    requires WellFormed(s)
    ensures WellFormed(OnExit(s, id, thread, code))
  {
    var a := Addressed(s, id, thread);
    if a.Some? {
      EventKeepsWellFormed(s, id, thread, Exited(a.value, code));
    }
  }

  lemma StopKeepsWellFormed(s: State, id: string)
    requires WellFormed(s)
    ensures WellFormed(StopWorker(s, id).0)
  {
    if HasKey(s.workers, id) {
      assert Entry(id, Get(s.workers, id).value) in s.workers;
      PutKeepsWellFormed(s, id, Terminate(Get(s.workers, id).value).(status := Stopped), s.nextThread);
    }
  }

  /** Every handler keeps the table well formed, as written and corrected. */
  lemma ApplyKeepsWellFormed(s: State, c: Command, reading: Reading)
    requires WellFormed(s)
    ensures WellFormed(Apply(s, c, reading))
  {
    match c
    case Load(_) =>
    case Select(_, _) =>
    case Start(id, probe, run) => StartKeepsWellFormed(s, id, probe, run);
    case Message(id, thread, msg) => MessageKeepsWellFormed(s, id, thread, msg, reading);
    case Error(id, thread, message) => ErrorKeepsWellFormed(s, id, thread, message);
    case Exit(id, thread, code) => ExitKeepsWellFormed(s, id, thread, code);
    case Stop(id) => StopKeepsWellFormed(s, id);
    case StopEvery =>
      if reading == AsWritten {
        StopAllAsWrittenKeepsWellFormed(s);
      } else {
        StopAllKeepsWellFormed(s);
      }
  }

  /** Whatever the sequence of handler calls and thread events, the table
      stays well formed: one record per id, every processing-time window
      within 100 with its mean as the average. */
  lemma {:induction false} RunKeepsWellFormed(s: State, cs: seq<Command>, reading: Reading)
    requires WellFormed(s)
    ensures WellFormed(ApplyAll(s, cs, reading))
    decreases |cs|
  {
    if |cs| > 0 {
      ApplyKeepsWellFormed(s, cs[0], reading);
      RunKeepsWellFormed(Apply(s, cs[0], reading), cs[1..], reading);
    }
  }

  function ApplyAll(s: State, cs: seq<Command>, reading: Reading): State
    decreases |cs|
  {
    if |cs| == 0 then s else ApplyAll(Apply(s, cs[0], reading), cs[1..], reading)
  }

  // ---------------------------------------------------------------------
  // A worker's report, as the supervisor reads it

  /** A worker's messages, handled one after another. */
  function Deliver(s: State, id: string, thread: nat, msgs: seq<string>, reading: Reading): State
    decreases |msgs|
  {
    if |msgs| == 0 then s else Deliver(OnMessage(s, id, thread, msgs[0], reading), id, thread, msgs[1..], reading)
  }

  /** Handling a live worker's messages adds to the upload total exactly
      the number of them that carry the upload marker. */
  lemma {:induction false} DeliverCounts(s: State, id: string, thread: nat, msgs: seq<string>, reading: Reading)
    requires WellFormed(s) && Addressed(s, id, thread).Some?
    ensures GetAnalytics(Deliver(s, id, thread, msgs, reading)).totalVideos
         == GetAnalytics(s).totalVideos + Monitor.CountMarked(msgs)
    decreases |msgs|
  {
    if |msgs| > 0 {
      var next := OnMessage(s, id, thread, msgs[0], reading);
      UploadCounted(s, id, thread, msgs[0], reading);
      MessageKeepsWellFormed(s, id, thread, msgs[0], reading);
      assert Addressed(next, id, thread).Some?;
      DeliverCounts(next, id, thread, msgs[1..], reading);
    }
  }

  /** The lines a job ends with count one video when it completed and none
      when it failed, the error line after a failed page reload included. */
  lemma JobReportCounted(s: State, id: string, thread: nat, v: Monitor.Video, finalFile: string, elapsed: string,
                         details: string, result: Monitor.JobResult, reason: string, reopen: Option<string>)
    requires WellFormed(s) && Addressed(s, id, thread).Some?
    requires '✅' !in id && '✅' !in elapsed && '✅' !in details && '✅' !in reason
    requires reopen.Some? ==> '✅' !in reopen.value
    ensures var lines := Monitor.JobReport(id, v, finalFile, elapsed, details, result, reason, reopen);
      GetAnalytics(Deliver(s, id, thread, lines, AsWritten)).totalVideos
        == GetAnalytics(s).totalVideos + (if result.Completed? then 1 else 0)
  {
    var lines := Monitor.JobReport(id, v, finalFile, elapsed, details, result, reason, reopen);
    Monitor.JobReportMarksOneUpload(id, v, finalFile, elapsed, details, result, reason, reopen);
    DeliverCounts(s, id, thread, lines, AsWritten);
  }

  /** The timing line carries the keyword the supervisor looks for. */
  lemma TimingLineHasKeyword(id: string, elapsed: string)
    ensures Contains(Monitor.TimingLine(id, elapsed), Timing.TimingKeyword)
  {
    var w := Timing.TimingKeyword;
    assert w == Monitor.TimingWords;
    var pre, post := "] ⏱ ", " từ nhận → download → merge → ";
    ContainsMiddle(pre, w, post);
    assert Monitor.TimingLead == pre + w + post;
    var head := "[" + id;
    ContainsAfter(head, Monitor.TimingLead, w);
    var x := head + Monitor.TimingLead;
    ContainsBefore(x, "65s", w);
    ContainsBefore(x + "65s", Monitor.TimingTail, w);
    ContainsBefore(x + "65s" + Monitor.TimingTail, elapsed, w);
    ContainsBefore(x + "65s" + Monitor.TimingTail + elapsed, "s", w);
  }

  /** Read as corrected, the timing line of a completed job feeds the
      elapsed time it reports into its worker's processing-time window. */
  lemma TimingLineRecorded(s: State, id: string, thread: nat, whole: string, frac: string)
    requires Addressed(s, id, thread).Some?
    requires |whole| > 0 && Timing.AllDigits(whole) && Timing.AllDigits(frac)
    ensures var times := Get(OnMessage(s, id, thread, Monitor.TimingLine(id, whole + "." + frac), Corrected).workers, id).value.stats.processingTimes;
      |times| > 0 && times[|times| - 1] == Timing.NumeralValue(whole, frac)
  {
    TimingLineHasKeyword(id, whole + "." + frac);
    Timing.SampleReadsElapsed(id, whole, frac);
  }

  /** As written, the handler records 65 seconds for every timing line of a
      profile whose id has no `s`, whatever elapsed time the line
      reports. */
  lemma TimingLineRecordedAsWritten(s: State, id: string, thread: nat, elapsed: string)
    requires Addressed(s, id, thread).Some?
    requires 's' !in id
    ensures var times := Get(OnMessage(s, id, thread, Monitor.TimingLine(id, elapsed), AsWritten).workers, id).value.stats.processingTimes;
      |times| > 0 && times[|times| - 1] == 65.0
  {
    TimingLineHasKeyword(id, elapsed);
    Timing.SampleAsWrittenIsAlways65(id, elapsed);
  }
}
