/** The second Electron front end (`electron/main.js`): a picked profile
    file, the profiles loaded from it, and a table of running worker
    threads keyed by profile id. Unlike the supervisor, this table holds
    only live threads: a stop or an exit removes the entry. Window messages
    and log lines are left out; the worker threads are parameters. */
module ControlCenter {
  import opened Options
  import opened Table
  import opened ProfileFile
  import Monitor

  /** The picked file's path, the loaded profiles, and the running threads,
      each entry holding the profile its thread was started with. */
  datatype Center = Center(filePath: Option<string>, loaded: seq<Profile>, workers: seq<Entry<Profile>>)

  const Empty: Center := Center(None, [], [])

  /** One entry per id, each entry under its own profile's id. */
  predicate WellFormed(c: Center) {
    && DistinctKeys(c.workers)
    && forall e :: e in c.workers ==> e.key == e.value.profileId
  }

  /** The file dialog's answer: dismissed (or nothing picked), or the path
      picked and the file's contents (absent when reading it fails). */
  datatype Dialog = Dismissed | Chosen(path: string, contents: Option<string>)

  datatype Selection = SelectionCanceled | ReadFailed | Loaded(path: string, profiles: seq<Profile>)

  /** `select-profile-file`: the path is recorded before the file is read,
      so a read failure keeps the new path with the old profiles. */
  function SelectProfileFile(c: Center, d: Dialog): (r: (Center, Selection))
    ensures d.Dismissed? ==> r == (c, SelectionCanceled)
    ensures d.Chosen? ==> r.0.filePath == Some(d.path) && r.0.workers == c.workers
    ensures d.Chosen? && d.contents.None? ==> r.1 == ReadFailed && r.0.loaded == c.loaded
    ensures d.Chosen? && d.contents.Some? ==>
      r.0.loaded == ParseProfiles(d.contents.value) && r.1 == Loaded(d.path, r.0.loaded)
  {
    match d
    case Dismissed => (c, SelectionCanceled)
    case Chosen(path, None) => (c.(filePath := Some(path)), ReadFailed)
    case Chosen(path, Some(raw)) =>
      var ps := ParseProfiles(raw);
      (c.(filePath := Some(path), loaded := ps), Loaded(path, ps))
  }

  datatype WorkerState = WorkerState(profileId: string, running: bool)

  /** `broadcastWorkerState`: one entry per loaded profile, in order, marked
      running exactly when a thread for its id is in the table. */
  function Broadcast(c: Center): (st: seq<WorkerState>)
    ensures |st| == |c.loaded|
    ensures forall i :: 0 <= i < |st| ==> st[i].profileId == c.loaded[i].profileId
    ensures forall i :: 0 <= i < |st| ==> (st[i].running <==> HasKey(c.workers, c.loaded[i].profileId))
  {
    seq(|c.loaded|, i requires 0 <= i < |c.loaded| => WorkerState(c.loaded[i].profileId, Get(c.workers, c.loaded[i].profileId).Some?))
  }

  /** `startWorker`: nothing happens for an id that already has a thread;
      otherwise a thread is started with the profile (and no endpoint). */
  function StartWorker(c: Center, p: Profile): (r: Center)
    ensures HasKey(c.workers, p.profileId) ==> r == c
    ensures !HasKey(c.workers, p.profileId) ==> r == c.(workers := c.workers + [Entry(p.profileId, p)])
  {
    if Get(c.workers, p.profileId).Some? then c else c.(workers := Put(c.workers, p.profileId, p))
  }

  /** A thread's `exit` handler removes its profile's entry. */
  function OnExit(c: Center, id: string): (r: Center)
    ensures !HasKey(r.workers, id)
    ensures r.filePath == c.filePath && r.loaded == c.loaded
  {
    c.(workers := Delete(c.workers, id))
  }

  /** `stopWorker`: nothing happens for an absent id; otherwise the thread
      is terminated (its exit removes the entry) and the entry is removed. */
  function StopWorker(c: Center, id: string): (r: Center)
    ensures !HasKey(c.workers, id) ==> r == c
    ensures !HasKey(r.workers, id)
    ensures forall k :: k != id ==> Get(r.workers, k) == Get(c.workers, k)
  {
    match Get(c.workers, id)
    case None => c
    case Some(_) =>
      var exited := OnExit(c, id);
      exited.(workers := Delete(exited.workers, id))
  }

  /** `stop-workers`: stop each id in turn. */
  function StopWorkers(c: Center, ids: seq<string>): (r: Center)
    ensures r.filePath == c.filePath && r.loaded == c.loaded
    decreases |ids|
  {
    if |ids| == 0 then c else StopWorkers(StopWorker(c, ids[0]), ids[1..])
  }

  /** Exactly the listed ids lose their threads; every other entry stays. */
  lemma {:induction false} StopWorkersRemovesListed(c: Center, ids: seq<string>)
    requires WellFormed(c)
    ensures forall k :: k in ids ==> !HasKey(StopWorkers(c, ids).workers, k)
    ensures forall k :: k !in ids ==> Get(StopWorkers(c, ids).workers, k) == Get(c.workers, k)
    ensures WellFormed(StopWorkers(c, ids))
    decreases |ids|
  {
    if |ids| > 0 {
      var c' := StopWorker(c, ids[0]);
      StopKeepsWellFormed(c, ids[0]);
      StopWorkersRemovesListed(c', ids[1..]);
      forall k | k in ids
        ensures !HasKey(StopWorkers(c, ids).workers, k)
      {
        if k != ids[0] {
          assert k in ids[1..];
        } else if k !in ids[1..] {
          assert Get(c'.workers, k).None?;
        }
      }
    }
  }

  lemma StopKeepsWellFormed(c: Center, id: string)
    requires WellFormed(c)
    ensures WellFormed(StopWorker(c, id))
  {
    if HasKey(c.workers, id) {
      DeleteGet(c.workers, id);
      DeleteGet(Delete(c.workers, id), id);
    }
  }

  /** `stop-all-workers`: stop every id the table holds. */
  function StopAll(c: Center): (r: Center)
    ensures r.filePath == c.filePath && r.loaded == c.loaded
  {
    StopWorkers(c, Keys(c.workers))
  }

  /** After stop-all no thread is left. */
  lemma StopAllEmpties(c: Center)
    requires WellFormed(c)
    ensures WellFormed(StopAll(c))
    ensures forall k :: !HasKey(StopAll(c).workers, k)
  {
    var ks := Keys(c.workers);
    StopWorkersRemovesListed(c, ks);
    forall k | HasKey(c.workers, k)
      ensures k in ks
    {
      var i :| 0 <= i < |c.workers| && c.workers[i].key == k;
      assert ks[i] == k;
    }
  }

  /** The handler's answer; `Rejected` when it throws, so the renderer's
      `invoke` rejects. */
  datatype Reply = NotLoaded | Accepted | Rejected

  /** Starts a thread for each listed id that names a loaded profile. */
  function StartListed(c: Center, ids: seq<string>): (r: Center)
    ensures r.filePath == c.filePath && r.loaded == c.loaded
    decreases |ids|
  {
    if |ids| == 0 then c
    else
      var c' := match FindProfile(c.loaded, ids[0]) case None => c case Some(p) => StartWorker(c, p);
      StartListed(c', ids[1..])
  }

  /** `start-workers`: refused while no profile is loaded; otherwise unknown
      ids are skipped silently. */
  function StartWorkers(c: Center, ids: seq<string>): (r: (Center, Reply))
    ensures |c.loaded| == 0 ==> r == (c, NotLoaded)
    ensures |c.loaded| > 0 ==> r == (StartListed(c, ids), Accepted)
  {
    if |c.loaded| == 0 then (c, NotLoaded) else (StartListed(c, ids), Accepted)
  }

  /** The argument `start-workers` receives: a bare array of ids, or the
      `{ profileIds }` object the preload bridge wraps an array into. */
  datatype StartRequest = IdArray(ids: seq<string>) | IdObject(ids: seq<string>)

  /** `start-workers` as written: it calls `forEach` on its argument, which
      an object does not have, so a wrapped request throws once profiles
      are loaded and starts nothing. */
  function StartWorkersAsWritten(c: Center, req: StartRequest): (r: (Center, Reply))
    ensures |c.loaded| == 0 ==> r == (c, NotLoaded)
    ensures |c.loaded| > 0 && req.IdArray? ==> r == StartWorkers(c, req.ids)
    ensures |c.loaded| > 0 && req.IdObject? ==> r == (c, Rejected)
  {
    if |c.loaded| == 0 then (c, NotLoaded)
    else match req
      case IdArray(ids) => StartWorkers(c, ids)
      case IdObject(_) => (c, Rejected)
  }

  /** `start-workers` reading the ids out of either form of request. */
  function HandleStartRequest(c: Center, req: StartRequest): (r: (Center, Reply))
    ensures |c.loaded| == 0 ==> r == (c, NotLoaded)
    ensures |c.loaded| > 0 ==> r == (StartListed(c, req.ids), Accepted)
  {
    StartWorkers(c, req.ids)
  }

  /** After starting, an id has a thread exactly when it had one or it is
      listed and names a loaded profile; threads already running are left
      alone, and every new thread carries its own profile. */
  lemma {:induction false} StartListedExact(c: Center, ids: seq<string>)
    requires WellFormed(c)
    ensures WellFormed(StartListed(c, ids))
    ensures forall k :: HasKey(StartListed(c, ids).workers, k) <==>
      HasKey(c.workers, k) || (k in ids && FindProfile(c.loaded, k).Some?)
    ensures forall k :: HasKey(c.workers, k) ==> Get(StartListed(c, ids).workers, k) == Get(c.workers, k)
    decreases |ids|
  {
    if |ids| > 0 {
      var c' := match FindProfile(c.loaded, ids[0]) case None => c case Some(p) => StartWorker(c, p);
      if FindProfile(c.loaded, ids[0]).Some? {
        StartKeepsWellFormed(c, FindProfile(c.loaded, ids[0]).value);
      }
      StartListedExact(c', ids[1..]);
      assert forall k :: k in ids <==> k == ids[0] || k in ids[1..];
    }
  }

  lemma StartKeepsWellFormed(c: Center, p: Profile)
    requires WellFormed(c)
    ensures WellFormed(StartWorker(c, p))
    ensures forall k :: HasKey(StartWorker(c, p).workers, k) <==> HasKey(c.workers, k) || k == p.profileId
    ensures forall k :: HasKey(c.workers, k) ==> Get(StartWorker(c, p).workers, k) == Get(c.workers, k)
  {
    if !HasKey(c.workers, p.profileId) {
      AppendKeepsWellFormed(c, p);
    }
  }

  lemma AppendKeepsWellFormed(c: Center, p: Profile)
    requires WellFormed(c) && !HasKey(c.workers, p.profileId)
    ensures WellFormed(c.(workers := c.workers + [Entry(p.profileId, p)]))
    ensures forall k :: HasKey(c.workers + [Entry(p.profileId, p)], k) <==> HasKey(c.workers, k) || k == p.profileId
    ensures forall k :: HasKey(c.workers, k) ==> Get(c.workers + [Entry(p.profileId, p)], k) == Get(c.workers, k)
  {
    AppendNewKey(c.workers, p.profileId, p);
  }

  datatype Session = Session(filePath: Option<string>, profiles: seq<Profile>, running: seq<string>)

  /** `get-session-state`. */
  function GetSessionState(c: Center): (st: Session)
    ensures st.filePath == c.filePath && st.profiles == c.loaded
    ensures forall k :: k in st.running <==> HasKey(c.workers, k)
  {
    var ks := Keys(c.workers);
    assert forall k :: HasKey(c.workers, k) ==> k in ks by {
      forall k | HasKey(c.workers, k)
        ensures k in ks
      {
        var i :| 0 <= i < |c.workers| && c.workers[i].key == k;
        assert ks[i] == k;
      }
    }
    Session(c.filePath, c.loaded, ks)
  }

  /** The broadcast and the session state agree on which loaded profiles
      are running. */
  lemma BroadcastMatchesSession(c: Center)
    ensures forall i :: 0 <= i < |c.loaded| ==>
      (Broadcast(c)[i].running <==> c.loaded[i].profileId in GetSessionState(c).running)
  {
  }

  /** The data a thread started here receives. */
  function SpawnData(p: Profile): Monitor.WorkerData {
    Monitor.WorkerData(p.profileId, Some(p.apiKey), Some(p.channels), None)
  }

  /** Threads are started without a browser endpoint, so every one of them
      stops at its own start-up check instead of monitoring. */
  lemma SpawnedWorkersNeverMonitor(c: Center)
    requires WellFormed(c)
    ensures forall e :: e in c.workers ==> Monitor.StartupCheck(SpawnData(e.value)) != Monitor.Monitoring
    ensures forall e :: e in c.workers && e.value.apiKey != "" && e.value.channels != [] ==>
      Monitor.StartupCheck(SpawnData(e.value)) == Monitor.MissingEndpoint
  {
  }
}
