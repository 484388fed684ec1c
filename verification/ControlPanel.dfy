/** The control panel window of the second front end
    (`electron/renderer/renderer.js`): the picked file, the loaded profiles,
    the ids it believes are running and the checked ids, and how each
    message from the main process and each click changes them. */
module ControlPanel {
  import opened Options
  import opened Strings
  import opened Table
  import opened ProfileFile
  import Selection
  import ControlCenter

  datatype Panel = Panel(filePath: Option<string>, profiles: seq<Profile>, running: set<string>, selected: set<string>)

  const Initial: Panel := Panel(None, [], {}, {})

  // ---------------------------------------------------------------------
  // Channel list

  const NoChannelsText: string := "Không có channel nào"
  const MoreChannelsText: string := " kênh"

  /** Every part but the first gets a leading space, so that joining on
      `,` gives the `", "`-joined text. */
  function Spaced(parts: seq<string>): (r: seq<string>)
    ensures |r| == |parts|
    ensures |parts| > 0 ==> r[0] == parts[0]
    ensures forall k :: 1 <= k < |parts| ==> r[k] == " " + parts[k]
  {
    if |parts| == 0 then [] else [parts[0]] + seq(|parts| - 1, k requires 0 <= k < |parts| - 1 => " " + parts[k + 1])
  }

  /** `parts.join(', ')`. */
  function CommaList(parts: seq<string>): string {
    Join(Spaced(parts), ',')
  }

  /** The note after the first three channels: ` +`, the numeral of the
      hidden count, and the word for channels. */
  function HiddenNote(count: string): string {
    " +" + count + MoreChannelsText
  }

  /** `formatChannels`: a placeholder for none, the whole list for up to
      three, otherwise the first three and how many more there are. */
  function FormatChannels(chs: seq<string>): string {
    if |chs| == 0 then NoChannelsText
    else if |chs| <= 3 then CommaList(chs)
    else CommaList(chs[..3]) + HiddenNote(NatToString(|chs| - 3))
  }

  lemma TrimLeadingSpace(c: string)
    requires c != "" && Trimmed(c)
    ensures Trim(" " + c) == c
  {
    var s := " " + c;
    assert s[0] == ' ' && s[1..] == c;
    assert TrimStart(s) == TrimStart(c);
    assert TrimStart(c) == c;
    assert TrimEnd(c) == c;
  }

  /** The displayed list reads back, through the profile file's own channel
      splitting, as the channels it shows. */
  lemma {:induction false} CommaListRoundTrip(chs: seq<string>)
    requires |chs| > 0
    requires forall k :: 0 <= k < |chs| ==> ChannelName(chs[k])
    ensures SplitChannels(CommaList(chs)) == chs
  {
    var sp := Spaced(chs);
    assert forall k :: 0 <= k < |sp| ==> ',' !in sp[k] by {
      forall k | 0 <= k < |sp|
        ensures ',' !in sp[k]
      {
        if k > 0 {
          assert sp[k] == " " + chs[k];
        }
      }
    }
    SplitJoin(sp, ',');
    forall k | 1 <= k < |chs|
      ensures Trim(sp[k]) == chs[k]
    {
      TrimLeadingSpace(chs[k]);
    }
    assert TrimEach(sp) == chs;
    assert NonEmpty(chs) == chs;
    JoinEnds(sp, ',');
  }

  /** Up to three channels are shown in full; beyond that the first three
      are shown, followed by a note whose number reads back as the count of
      the hidden ones. */
  lemma FormatChannelsShows(chs: seq<string>)
    requires forall k :: 0 <= k < |chs| ==> ChannelName(chs[k])
    ensures chs == [] ==> FormatChannels(chs) == NoChannelsText
    ensures 1 <= |chs| <= 3 ==> SplitChannels(FormatChannels(chs)) == chs
    ensures |chs| > 3 ==> FormatChannels(chs) == CommaList(chs[..3]) + HiddenNote(NatToString(|chs| - 3))
    ensures |chs| > 3 ==> SplitChannels(CommaList(chs[..3])) == chs[..3]
    ensures |chs| > 3 ==> 3 + DecimalValue(NatToString(|chs| - 3)) == |chs|
  {
    if 1 <= |chs| <= 3 {
      FewChannelsShown(chs);
    } else if |chs| > 3 {
      ManyChannelsShown(chs);
    }
  }

  lemma ManyChannelsShown(chs: seq<string>)
    requires |chs| > 3 && forall k :: 0 <= k < |chs| ==> ChannelName(chs[k])
    ensures FormatChannels(chs) == CommaList(chs[..3]) + HiddenNote(NatToString(|chs| - 3))
    ensures SplitChannels(CommaList(chs[..3])) == chs[..3]
    ensures 3 + DecimalValue(NatToString(|chs| - 3)) == |chs|
  {
    ShownChannels(chs[..3]);
    NatToStringValue(|chs| - 3);
  }

  lemma FewChannelsShown(chs: seq<string>)
    requires 1 <= |chs| <= 3 && forall k :: 0 <= k < |chs| ==> ChannelName(chs[k])
    ensures SplitChannels(FormatChannels(chs)) == chs
  {
    assert FormatChannels(chs) == CommaList(chs);
    CommaListRoundTrip(chs);
  }

  lemma ShownChannels(first: seq<string>)
    requires |first| == 3 && forall k :: 0 <= k < 3 ==> ChannelName(first[k])
    ensures SplitChannels(CommaList(first)) == first
  {
    CommaListRoundTrip(first);
  }

  // ---------------------------------------------------------------------
  // The profile cards

  /** `apiKey.substring(0, 8)`. */
  function KeyPreview(key: string): (r: string)
    ensures |r| == Table.Min(|key|, 8)
    ensures r == key[..|r|]
  {
    if |key| <= 8 then key else key[..8]
  }

  datatype Card = Card(profileId: string, keyPreview: string, channels: string, checked: bool, running: bool)

  /** `renderProfiles`: one card per loaded profile, in file order. */
  function Cards(p: Panel): (cs: seq<Card>)
    ensures |cs| == |p.profiles|
    ensures forall i :: 0 <= i < |cs| ==> cs[i].profileId == p.profiles[i].profileId
    ensures forall i :: 0 <= i < |cs| ==> (cs[i].checked <==> p.profiles[i].profileId in p.selected)
    ensures forall i :: 0 <= i < |cs| ==> (cs[i].running <==> p.profiles[i].profileId in p.running)
  {
    seq(|p.profiles|, i requires 0 <= i < |p.profiles| =>
      var pr := p.profiles[i];
      Card(pr.profileId, KeyPreview(pr.apiKey), FormatChannels(pr.channels), pr.profileId in p.selected, pr.profileId in p.running))
  }

  datatype Buttons = Buttons(startDisabled: bool, stopDisabled: bool, stopAllDisabled: bool)

  /** `refreshButtons`. */
  function RefreshButtons(p: Panel): (b: Buttons)
    ensures b.startDisabled <==> p.selected == {}
    ensures b.stopDisabled <==> p.selected == {}
    ensures b.stopAllDisabled <==> p.running == {}
  {
    Buttons(p.selected == {}, p.selected == {}, p.running == {})
  }

  // ---------------------------------------------------------------------
  // Checkboxes

  /** A card's checkbox: its `data-profile` attribute is the id, and an
      empty attribute is falsy, so a profile with an empty id cannot be
      checked. */
  function OnCheckbox(p: Panel, id: string, checked: bool): (r: Panel)
    ensures id == "" ==> r == p
    ensures id != "" ==> (id in r.selected <==> checked)
    ensures forall k :: k != id ==> (k in r.selected <==> k in p.selected)
    ensures r.running == p.running && r.profiles == p.profiles && r.filePath == p.filePath
  {
    if id == "" then p else p.(selected := Selection.Mark(p.selected, id, checked))
  }

  function ProfileIds(ps: seq<Profile>): (ids: seq<string>)
    ensures |ids| == |ps|
    ensures forall i :: 0 <= i < |ps| ==> ids[i] == ps[i].profileId
  {
    seq(|ps|, i requires 0 <= i < |ps| => ps[i].profileId)
  }

  /** The header checkbox: ignored while no profile is loaded; checking
      adds every loaded id, unchecking clears the whole selection. */
  function ToggleAll(p: Panel, checked: bool): (r: Panel)
    ensures p.profiles == [] ==> r == p
    ensures p.profiles != [] && checked ==> forall k :: k in r.selected <==> k in p.selected || k in ProfileIds(p.profiles)
    ensures p.profiles != [] && !checked ==> r.selected == {}
    ensures r.running == p.running && r.profiles == p.profiles && r.filePath == p.filePath
  {
    if p.profiles == [] then p
    else if checked then p.(selected := Selection.MarkAll(p.selected, ProfileIds(p.profiles), true))
    else p.(selected := {})
  }

  /** After checking the header box every card is checked; after
      unchecking it none is. */
  lemma ToggleAllChecksCards(p: Panel, checked: bool)
    requires p.profiles != []
    ensures forall i :: 0 <= i < |p.profiles| ==> Cards(ToggleAll(p, checked))[i].checked == checked
  {
    var ids := ProfileIds(p.profiles);
    assert forall i :: 0 <= i < |p.profiles| ==> p.profiles[i].profileId == ids[i];
  }

  // ---------------------------------------------------------------------
  // Messages from the main process

  /** The answer to the file dialog: a cancel or a read failure (both
      reported as canceled) change nothing; a load replaces the file and
      the profiles and clears both the selection and the running set. */
  function OnFileSelected(p: Panel, reply: ControlCenter.Selection): (r: Panel)
    ensures !reply.Loaded? ==> r == p
    ensures reply.Loaded? ==> r == Panel(Some(reply.path), reply.profiles, {}, {})
  {
    match reply
    case Loaded(path, profiles) => Panel(Some(path), profiles, {}, {})
    case _ => p
  }

  /** `worker-state`: the running set becomes the ids marked running. */
  function OnWorkerState(p: Panel, payload: seq<ControlCenter.WorkerState>): (r: Panel)
    ensures forall k :: k in r.running <==> exists i :: 0 <= i < |payload| && payload[i].profileId == k && payload[i].running
    ensures r.profiles == p.profiles && r.selected == p.selected && r.filePath == p.filePath
  {
    p.(running := set i | 0 <= i < |payload| && payload[i].running :: payload[i].profileId)
  }

  /** After a broadcast, a card shows running exactly when the main
      process holds a thread for its profile. */
  lemma BroadcastShowsThreads(p: Panel, c: ControlCenter.Center)
    requires p.profiles == c.loaded
    ensures forall i :: 0 <= i < |p.profiles| ==>
      (Cards(OnWorkerState(p, ControlCenter.Broadcast(c)))[i].running <==> HasKey(c.workers, c.loaded[i].profileId))
  {
    var st := ControlCenter.Broadcast(c);
    forall i | 0 <= i < |p.profiles|
      ensures p.profiles[i].profileId in OnWorkerState(p, st).running <==> HasKey(c.workers, c.loaded[i].profileId)
    {
      var k := c.loaded[i].profileId;
      if HasKey(c.workers, k) {
        assert st[i].profileId == k && st[i].running;
      } else {
        forall j | 0 <= j < |st| && st[j].profileId == k
          ensures !st[j].running
        {
        }
      }
    }
  }

  // ---------------------------------------------------------------------
  // Start-up: restoring the session

  /** The JavaScript values a session reply carries. */
  datatype JsValue = Undefined | Null | Str(s: string) | ProfileList(ps: seq<Profile>) | IdList(ids: seq<string>)

  predicate Truthy(v: JsValue) {
    match v
    case Undefined => false
    case Null => false
    case Str(s) => s != ""
    case _ => true
  }

  /** `obj[name]`: undefined for a missing field. */
  function Field(obj: map<string, JsValue>, name: string): JsValue {
    if name in obj then obj[name] else Undefined
  }

  /** `get-session-state`'s reply object: the path is sent under the name
      `profilesFilePath` (null before a file is picked). */
  function SessionReply(c: ControlCenter.Center): (obj: map<string, JsValue>)
    ensures Field(obj, "profiles") == ProfileList(c.loaded)
    ensures Field(obj, "running") == IdList(Keys(c.workers))
    ensures c.filePath.Some? ==> Field(obj, "profilesFilePath") == Str(c.filePath.value)
    ensures c.filePath.None? ==> Field(obj, "profilesFilePath") == Null
    ensures Field(obj, "filePath") == Undefined
  {
    map["profilesFilePath" := (match c.filePath case None => Null case Some(f) => Str(f)),
        "profiles" := ProfileList(c.loaded),
        "running" := IdList(Keys(c.workers))]
  }

  /** `bootstrap`, with the name of the field the path is read from. */
  function Restore(p: Panel, obj: map<string, JsValue>, pathField: string): (r: Panel)
    ensures Truthy(Field(obj, pathField)) && Field(obj, pathField).Str? ==> r.filePath == Some(Field(obj, pathField).s)
    ensures !Truthy(Field(obj, pathField)) ==> r.filePath == p.filePath
    ensures Field(obj, "profiles").ProfileList? ==> r.profiles == Field(obj, "profiles").ps
    ensures Field(obj, "running").IdList? ==> forall k :: k in r.running <==> k in Field(obj, "running").ids
    ensures r.selected == p.selected
  {
    var path := Field(obj, pathField);
    var profiles := Field(obj, "profiles");
    var running := Field(obj, "running");
    var p1 := if Truthy(path) && path.Str? then p.(filePath := Some(path.s)) else p;
    var p2 := if Truthy(profiles) && profiles.ProfileList? then p1.(profiles := profiles.ps) else p1;
    if Truthy(running) && running.IdList? then p2.(running := set k | k in running.ids) else p2
  }

  /** `bootstrap` as written reads `session.filePath`. */
  function BootstrapAsWritten(p: Panel, obj: map<string, JsValue>): Panel {
    Restore(p, obj, "filePath")
  }

  /** `bootstrap` reading the field the main process sends. */
  function Bootstrap(p: Panel, obj: map<string, JsValue>): Panel {
    Restore(p, obj, "profilesFilePath")
  }

  /** As written, a reloaded panel never shows the picked file, whatever
      the main process holds. */
  lemma BootstrapAsWrittenLosesPath(c: ControlCenter.Center)
    ensures BootstrapAsWritten(Initial, SessionReply(c)).filePath == None
  {
  }

  /** Corrected, a reloaded panel restores the file, the profiles and the
      running threads the main process holds. */
  lemma BootstrapRestoresSession(c: ControlCenter.Center)
    requires c.filePath != Some("")
    ensures Bootstrap(Initial, SessionReply(c)).filePath == c.filePath
    ensures Bootstrap(Initial, SessionReply(c)).profiles == c.loaded
    ensures forall k :: k in Bootstrap(Initial, SessionReply(c)).running <==> HasKey(c.workers, k)
  {
    var ks := Keys(c.workers);
    forall k | HasKey(c.workers, k)
      ensures k in ks
    {
      var i :| 0 <= i < |c.workers| && c.workers[i].key == k;
      assert ks[i] == k;
    }
  }

  // ---------------------------------------------------------------------
  // Clicks that reach the main process

  /** `Array.from(state.selected)`: the selected ids in some order. */
  ghost predicate Lists(order: seq<string>, ids: set<string>) {
    forall k :: k in order <==> k in ids
  }

  /** The start button: nothing without a selection; otherwise the preload
      bridge wraps the id array into a `{ profileIds }` object. */
  function StartClick(p: Panel, order: seq<string>): (req: Option<ControlCenter.StartRequest>)
    requires Lists(order, p.selected)
    ensures p.selected == {} <==> req.None?
    ensures req.Some? ==> req.value == ControlCenter.IdObject(order)
  {
    if p.selected == {} then None else Some(ControlCenter.IdObject(order))
  }

  /** As written, with profiles loaded, the start button starts nothing:
      the main process's handler throws on the wrapped request. */
  lemma StartClickAsWrittenStartsNothing(p: Panel, order: seq<string>, c: ControlCenter.Center)
    requires Lists(order, p.selected) && p.selected != {} && c.loaded != []
    ensures ControlCenter.StartWorkersAsWritten(c, StartClick(p, order).value) == (c, ControlCenter.Rejected)
  {
  }

  /** Corrected, the start button gives a thread to exactly the selected ids
      that name loaded profiles, and leaves running threads alone. */
  lemma StartClickStartsSelected(p: Panel, order: seq<string>, c: ControlCenter.Center)
    requires Lists(order, p.selected) && p.selected != {} && c.loaded != []
    requires ControlCenter.WellFormed(c)
    ensures var r := ControlCenter.HandleStartRequest(c, StartClick(p, order).value);
      && r.1 == ControlCenter.Accepted
      && ControlCenter.WellFormed(r.0)
      && forall k :: HasKey(r.0.workers, k) <==> HasKey(c.workers, k) || (k in p.selected && FindProfile(c.loaded, k).Some?)
  {
    ControlCenter.StartListedExact(c, order);
  }

  /** The stop button: nothing without a selection; otherwise the id array
      is sent as it is. */
  function StopClick(p: Panel, order: seq<string>): (ids: Option<seq<string>>)
    requires Lists(order, p.selected)
    ensures p.selected == {} <==> ids.None?
    ensures ids.Some? ==> forall k :: k in ids.value <==> k in p.selected
  {
    if p.selected == {} then None else Some(order)
  }

  /** The stop button removes the thread of every selected id and of no
      other. */
  lemma StopClickStopsSelected(p: Panel, order: seq<string>, c: ControlCenter.Center)
    requires Lists(order, p.selected) && p.selected != {}
    requires ControlCenter.WellFormed(c)
    ensures var r := ControlCenter.StopWorkers(c, StopClick(p, order).value);
      && (forall k :: k in p.selected ==> !HasKey(r.workers, k))
      && (forall k :: k !in p.selected ==> Get(r.workers, k) == Get(c.workers, k))
  {
    ControlCenter.StopWorkersRemovesListed(c, order);
  }
}
