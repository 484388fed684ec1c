/** The command-line launcher (`Main.js`): parse `profiles.txt` and start
    one worker thread per parsed profile, in file order, handing each the
    profile itself as its start-up data. Console output is left out. */
module Launcher {
  import opened Options
  import opened ProfileFile
  import Monitor
  import ControlCenter

  /** One thread per profile, in order, each given its own profile. */
  function Spawns(ps: seq<Profile>): (ws: seq<Monitor.WorkerData>)
    ensures |ws| == |ps|
    ensures forall i :: 0 <= i < |ws| ==> ws[i].profileId == ps[i].profileId
    ensures forall i :: 0 <= i < |ws| ==> ws[i].apiKey == Some(ps[i].apiKey)
    ensures forall i :: 0 <= i < |ws| ==> ws[i].channels == Some(ps[i].channels)
    ensures forall i :: 0 <= i < |ws| ==> ws[i].wsEndpoint.None?
  {
    seq(|ps|, i requires 0 <= i < |ps| => ControlCenter.SpawnData(ps[i]))
  }

  /** The start-up data of the threads the launcher starts. */
  function Launch(raw: string): seq<Monitor.WorkerData> {
    Spawns(ParseProfiles(raw))
  }

  /** No launched thread has a browser endpoint, so none of them gets past
      its start-up check: each stops at the first missing item. */
  lemma LaunchedWorkersNeverMonitor(raw: string)
    ensures forall w :: w in Launch(raw) ==> Monitor.StartupCheck(w) != Monitor.Monitoring
    ensures forall w :: w in Launch(raw) && Monitor.Truthy(w.apiKey) && w.channels != Some([]) ==>
      Monitor.StartupCheck(w) == Monitor.MissingEndpoint
  {
    var ws := Launch(raw);
    forall w | w in ws
      ensures Monitor.StartupCheck(w) != Monitor.Monitoring
      ensures Monitor.Truthy(w.apiKey) && w.channels != Some([]) ==> Monitor.StartupCheck(w) == Monitor.MissingEndpoint
    {
      var i :| 0 <= i < |ws| && ws[i] == w;
      NoEndpointStops(w);
    }
  }

  /** Without a browser endpoint the start-up check never reaches
      monitoring, and with a key and a non-empty channel list it stops for
      the endpoint. */
  lemma NoEndpointStops(w: Monitor.WorkerData)
    requires w.wsEndpoint.None? && w.channels.Some?
    ensures Monitor.StartupCheck(w) != Monitor.Monitoring
    ensures Monitor.Truthy(w.apiKey) && w.channels != Some([]) ==> Monitor.StartupCheck(w) == Monitor.MissingEndpoint
  {
  }

  /** Launching a rendered file starts exactly one thread per profile, each
      with that profile's data. */
  lemma LaunchRendered(ps: seq<Profile>)
    requires forall i :: 0 <= i < |ps| ==> Renderable(ps[i])
    ensures |Launch(Render(ps))| == |ps|
    ensures forall i :: 0 <= i < |ps| ==> Launch(Render(ps))[i] == ControlCenter.SpawnData(ps[i])
  {
    RenderParseRoundTrip(ps);
  }
}
