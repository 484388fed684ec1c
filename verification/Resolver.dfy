/** Stream resolution and 65-second normalisation (`dow.js`): choosing a
    playable download link for a video through a two-tier probe race, the
    download target path, and the plan for stretching a clip to 65 seconds
    by stream-copy looping. Probes, downloads and ffmpeg runs are not
    modelled; their outcomes are parameters: the set of urls whose probe
    answered ok, the order in which concurrent probes settle, and the probed
    duration. */
module Resolver {
  import opened Options
  import opened Strings
  import opened Seqs

  /** One entry of the video's format list. `height` is `None` when the
      format has no height (audio-only formats). */
  datatype Format = Format(hasVideo: bool, hasAudio: bool, height: Option<int>, url: string)

  const CombinedMaxHeight: int := 720
  const VideoOnlyMaxHeight: int := 360

  // ---------------------------------------------------------------------
  // Probing a url

  /** What a `HEAD` request for a url came back with. */
  datatype ProbeReply = Answered(status: int) | Threw

  /** `checkUrl`: the response's `ok` flag (a 2xx status), and false when the
      request throws. */
  function CheckUrl(reply: ProbeReply): (ok: bool)
    ensures ok <==> reply.Answered? && 200 <= reply.status <= 299
    ensures reply.Threw? ==> !ok
  {
    match reply
    case Threw => false
    case Answered(status) => 200 <= status < 300
  }

  /** The urls a set of probe replies reports as live. */
  function LiveUrls(replies: map<string, ProbeReply>): (live: set<string>)
    ensures forall u :: u in live ==> u in replies && replies[u].Answered? && 200 <= replies[u].status <= 299
    ensures forall u :: u in replies && replies[u].Answered? && 200 <= replies[u].status <= 299 ==> u in live
    ensures live <= replies.Keys
  {
    set u | u in replies && CheckUrl(replies[u])
  }

  /** A new reply for one url decides that url's liveness alone. */
  lemma LiveUrlsUpdate(replies: map<string, ProbeReply>, u: string, reply: ProbeReply)
    ensures LiveUrls(replies[u := reply]) == (LiveUrls(replies) - {u}) + (if CheckUrl(reply) then {u} else {})
  {
  }

  // ---------------------------------------------------------------------
  // Candidate lists

  /** Tier A: formats with both video and audio and a truthy height of at
      most 720. */
  predicate CombinedCandidate(f: Format) {
    f.hasVideo && f.hasAudio && f.height.Some? && f.height.value != 0 && f.height.value <= CombinedMaxHeight
  }

  /** Tier B video leg: video without audio of height at most 360 (a missing
      height compares false). */
  predicate VideoLeg(f: Format) {
    f.hasVideo && !f.hasAudio && f.height.Some? && f.height.value <= VideoOnlyMaxHeight
  }

  /** Tier B audio leg: audio without video. */
  predicate AudioLeg(f: Format) {
    f.hasAudio && !f.hasVideo
  }

  /** `formats.filter(p)`: the formats satisfying `p`, in their order
      (`KeepAppend` states the order and multiplicity). */
  function Keep(formats: seq<Format>, p: Format -> bool): (r: seq<Format>)
    ensures forall f :: f in r <==> f in formats && p(f)
    ensures multiset(r) <= multiset(formats)
  {
    if |formats| == 0 then []
    else
      var rest := Keep(formats[1..], p);
      assert formats == [formats[0]] + formats[1..];
      if p(formats[0]) then [formats[0]] + rest else rest
  }

  /** Filtering a concatenation filters each part; together with the
      one-element case this pins `Keep` down completely. */
  lemma {:induction false} KeepAppend(a: seq<Format>, b: seq<Format>, p: Format -> bool)
    ensures Keep(a + b, p) == Keep(a, p) + Keep(b, p)
    ensures forall f :: Keep([f], p) == (if p(f) then [f] else [])
  {
    if |a| > 0 {
      AppendTail(a, b);
      KeepAppend(a[1..], b, p);
      if p(a[0]) {
        AppendAssoc([a[0]], Keep(a[1..], p), Keep(b, p));
      }
    } else {
      assert a + b == b;
    }
    forall f
      ensures Keep([f], p) == (if p(f) then [f] else [])
    {
      assert [f][1..] == [];
    }
  }

  function HeightOf(f: Format): int {
    f.height.GetOr(0)
  }

  predicate SortedByHeight(s: seq<Format>) {
    forall i, j :: 0 <= i < j < |s| ==> HeightOf(s[i]) <= HeightOf(s[j])
  }

  /** Puts `f` in front of the first element that is not lower, so that
      equal heights keep their original order. */
  function InsertByHeight(f: Format, s: seq<Format>): (r: seq<Format>)
    requires SortedByHeight(s)
    ensures SortedByHeight(r)
    ensures multiset(r) == multiset(s) + multiset{f}
    ensures |r| == |s| + 1 && (r[0] == f || (|s| > 0 && r[0] == s[0]))
  {
    if |s| == 0 || HeightOf(f) <= HeightOf(s[0]) then
      ConsSorted(f, s);
      [f] + s
    else
      var rest := InsertByHeight(f, s[1..]);
      assert multiset(s) == multiset{s[0]} + multiset(s[1..]) by {
        assert s == [s[0]] + s[1..];
      }
      ConsSorted(s[0], rest);
      [s[0]] + rest
  }

  /** A sorted list stays sorted under a new head that is not higher than
      its first element. */
  lemma ConsSorted(x: Format, s: seq<Format>)
    requires SortedByHeight(s)
    requires |s| > 0 ==> HeightOf(x) <= HeightOf(s[0])
    ensures SortedByHeight([x] + s)
  {
    var r := [x] + s;
    forall i, j | 0 <= i < j < |r|
      ensures HeightOf(r[i]) <= HeightOf(r[j])
    {
      assert r[j] == s[j - 1];
      if i > 0 {
        assert r[i] == s[i - 1];
      }
    }
  }

  /** The stable ascending-height sort of `Array.prototype.sort` with the
      comparator `a.height - b.height`. */
  function SortByHeight(s: seq<Format>): (r: seq<Format>)
    ensures SortedByHeight(r)
    ensures multiset(r) == multiset(s)
  {
    if |s| == 0 then []
    else
      assert s == [s[0]] + s[1..];
      InsertByHeight(s[0], SortByHeight(s[1..]))
  }

  /** The tier-A candidate list, in probing order. */
  function CombinedCandidates(formats: seq<Format>): (r: seq<Format>)
    ensures SortedByHeight(r)
    ensures multiset(r) == multiset(Keep(formats, CombinedCandidate))
  {
    SortByHeight(Keep(formats, CombinedCandidate))
  }

  /** Tier A lists exactly the eligible formats, each as often as it occurs
      among them, lowest first. */
  lemma CombinedCandidatesExact(formats: seq<Format>)
    ensures forall f :: f in CombinedCandidates(formats) <==> f in formats && CombinedCandidate(f)
    ensures multiset(CombinedCandidates(formats)) == multiset(Keep(formats, CombinedCandidate))
    ensures SortedByHeight(CombinedCandidates(formats))
  {
    var kept := Keep(formats, CombinedCandidate);
    var r := CombinedCandidates(formats);
    forall f
      ensures f in r <==> f in kept
    {
      assert f in r <==> f in multiset(r);
      assert f in kept <==> f in multiset(kept);
    }
  }

  datatype Pair = Pair(video: Format, audio: Format)

  /** Every video leg with every audio leg, video-major, as the nested loops
      build them. */
  function CrossPairs(videos: seq<Format>, audios: seq<Format>): (r: seq<Pair>)
    ensures |r| == |videos| * |audios|
    ensures forall p :: p in r <==> p.video in videos && p.audio in audios
  {
    if |videos| == 0 then []
    else
      var row := seq(|audios|, k requires 0 <= k < |audios| => Pair(videos[0], audios[k]));
      assert forall p :: p in row <==> p.video == videos[0] && p.audio in audios by {
        forall p ensures p in row <==> p.video == videos[0] && p.audio in audios {
          if p.video == videos[0] && p.audio in audios {
            var k :| 0 <= k < |audios| && audios[k] == p.audio;
            assert row[k] == p;
          }
        }
      }
      var rest := CrossPairs(videos[1..], audios);
      assert videos == [videos[0]] + videos[1..];
      row + rest
  }

  /** The tier-B pair list, in probing order. */
  function FallbackPairs(formats: seq<Format>): seq<Pair> {
    CrossPairs(Keep(formats, VideoLeg), Keep(formats, AudioLeg))
  }

  predicate PairLive(p: Pair, live: set<string>) {
    p.video.url in live && p.audio.url in live
  }

  // ---------------------------------------------------------------------
  // The races. `arrival` lists the candidates in the order their probes
  // settle, which the network decides: any rearrangement of the probing
  // order is possible.

  /** `Promise.any` over tier A: each probe fulfils with its url when live
      and rejects otherwise, so the race yields the first live candidate to
      settle, or nothing when every probe rejects (or there are none). */
  function FirstLive(arrival: seq<Format>, live: set<string>): (r: Option<string>)
    ensures r.None? <==> forall k :: 0 <= k < |arrival| ==> arrival[k].url !in live
    ensures r.Some? ==> r.value in live && exists k :: 0 <= k < |arrival| && arrival[k].url == r.value
  {
    if |arrival| == 0 then None
    else if arrival[0].url in live then Some(arrival[0].url)
    else
      var r := FirstLive(arrival[1..], live);
      assert forall k :: 1 <= k < |arrival| ==> arrival[k] == arrival[1..][k - 1];
      r
  }

  /** Which candidate wins is the scheduler's choice: every live candidate
      wins under some settling order, so the race's outcomes are exactly the
      live candidates' urls. */
  lemma AnyLiveCandidateCanWin(cands: seq<Format>, live: set<string>, c: Format)
    requires c in cands && c.url in live
    ensures exists arrival :: multiset(arrival) == multiset(cands) && FirstLive(arrival, live) == Some(c.url)
  {
    var others := RemoveOne(cands, c);
    var arrival := [c] + others;
    assert multiset(arrival) == multiset(cands);
    assert FirstLive(arrival, live) == Some(c.url);
  }

  function RemoveOne<T(==)>(s: seq<T>, x: T): (r: seq<T>)
    requires x in s
    ensures multiset(r) + multiset{x} == multiset(s)
  {
    if s[0] == x then
      assert s == [s[0]] + s[1..];
      s[1..]
    else
      assert s == [s[0]] + s[1..];
      [s[0]] + RemoveOne(s[1..], x)
  }

  /** As written: every tier-B probe pair fulfils (with the pair or with
      null), so `Promise.any` yields whatever the first pair to settle
      fulfilled with; an empty list rejects and gives null. */
  function FirstSettledPair(arrival: seq<Pair>, live: set<string>): (r: Option<Pair>)
    ensures r.Some? ==> r.value in arrival && PairLive(r.value, live)
    ensures r.None? && |arrival| > 0 ==> !PairLive(arrival[0], live)
    ensures r.Some? <==> |arrival| > 0 && PairLive(arrival[0], live)
  {
    if |arrival| == 0 then None
    else if PairLive(arrival[0], live) then Some(arrival[0])
    else None
  }

  /** The first pair that settles before any fully live one decides the
      outcome: with a dead pair settling first the race gives null even
      though a fully live pair exists. */
  lemma FirstSettledPairMissesLivePair()
    ensures var v1 := Format(true, false, Some(144), "v1");
            var v2 := Format(true, false, Some(360), "v2");
            var a := Format(false, true, None, "a");
            var live := {"v2", "a"};
            var arrival := FallbackPairs([v1, v2, a]);
            && arrival == [Pair(v1, a), Pair(v2, a)]
            && PairLive(Pair(v2, a), live)
            && FirstSettledPair(arrival, live) == None
            && FirstLivePair(arrival, live) == Some(Pair(v2, a))
  {
    var v1 := Format(true, false, Some(144), "v1");
    var v2 := Format(true, false, Some(360), "v2");
    var a := Format(false, true, None, "a");
    TwoVideoLegsOneAudioLeg(v1, v2, a);
    var live := {"v2", "a"};
    assert "v1" !in live by {
      assert "v1"[1] != "v2"[1];
      assert |"v1"| != |"a"|;
    }
    var arrival := [Pair(v1, a), Pair(v2, a)];
    assert !PairLive(arrival[0], live);
    assert arrival[1..] == [Pair(v2, a)];
  }

  /** Two video legs followed by one audio leg pair up as two pairs sharing
      the audio leg, in the video legs' order. */
  lemma TwoVideoLegsOneAudioLeg(v1: Format, v2: Format, a: Format)
    requires VideoLeg(v1) && VideoLeg(v2) && AudioLeg(a)
    ensures FallbackPairs([v1, v2, a]) == [Pair(v1, a), Pair(v2, a)]
  {
    var formats := [v1, v2, a];
    assert formats[1..] == [v2, a];
    assert [v2, a][1..] == [a];
    assert [a][1..] == [];
    assert Keep([a], VideoLeg) == [];
    assert Keep([v2, a], VideoLeg) == [v2];
    assert Keep(formats, VideoLeg) == [v1, v2];
    assert Keep([a], AudioLeg) == [a];
    assert Keep([v2, a], AudioLeg) == [a];
    assert Keep(formats, AudioLeg) == [a];
    assert [v1, v2][1..] == [v2];
    assert [v2][1..] == [];
    assert CrossPairs([v2], [a]) == [Pair(v2, a)];
  }

  /** The evidently intended tier-B race: the first pair to settle with
      both legs live wins. */
  function FirstLivePair(arrival: seq<Pair>, live: set<string>): (r: Option<Pair>)
    ensures r.None? <==> forall k :: 0 <= k < |arrival| ==> !PairLive(arrival[k], live)
    ensures r.Some? ==> r.value in arrival && PairLive(r.value, live)
  {
    if |arrival| == 0 then None
    else if PairLive(arrival[0], live) then Some(arrival[0])
    else
      var r := FirstLivePair(arrival[1..], live);
      assert forall k :: 1 <= k < |arrival| ==> arrival[k] == arrival[1..][k - 1];
      r
  }

  /** The two readings of the tier-B race agree whenever the race as
      written yields a pair; they differ exactly when it yields nothing
      while a fully live pair settles later. */
  lemma SettledVersusLive(arrival: seq<Pair>, live: set<string>)
    ensures FirstSettledPair(arrival, live).Some? ==> FirstSettledPair(arrival, live) == FirstLivePair(arrival, live)
    ensures FirstSettledPair(arrival, live) != FirstLivePair(arrival, live) <==>
      FirstSettledPair(arrival, live).None? && FirstLivePair(arrival, live).Some?
  {
  }

  // ---------------------------------------------------------------------
  // getDownloadLink

  /** The link handed to the download stage; `NoLink` is the `null` result. */
  datatype Link = NoLink | Combined(url: string) | VideoAudio(video: string, audio: string)

  /** Tier A's race result when it is a non-empty url, otherwise the tier-B
      race result. */
  function LinkFrom(valid: Option<string>, pair: Option<Pair>): (l: Link)
    ensures l.Combined? <==> valid.Some? && valid.value != ""
    ensures l.Combined? ==> l.url == valid.value
    ensures l.VideoAudio? ==> pair.Some? && l.video == pair.value.video.url && l.audio == pair.value.audio.url
    ensures l.NoLink? ==> pair.None?
    ensures !l.Combined? && pair.Some? ==> l.VideoAudio?
  {
    if valid.Some? && valid.value != "" then Combined(valid.value)
    else
      match pair
      case None => NoLink
      case Some(p) => VideoAudio(p.video.url, p.audio.url)
  }

  /** `getDownloadLink` as written, once the format list is known: a null
      result only says that the first tier-B pair to settle was not live in
      both legs. */
  function GetDownloadLink(formats: seq<Format>, live: set<string>, arrivalA: seq<Format>, arrivalB: seq<Pair>): (l: Link)
    requires multiset(arrivalA) == multiset(CombinedCandidates(formats))
    requires multiset(arrivalB) == multiset(FallbackPairs(formats))
    ensures l.Combined? ==> (l.url != "" && l.url in live &&
      exists f :: f in formats && CombinedCandidate(f) && f.url == l.url)
    ensures l.VideoAudio? ==> (l.video in live && l.audio in live &&
      exists p :: p in FallbackPairs(formats) && p.video.url == l.video && p.audio.url == l.audio)
    ensures l.NoLink? ==> |arrivalB| == 0 || !PairLive(arrivalB[0], live)
    ensures !l.Combined? && "" !in live ==> forall f :: f in formats && CombinedCandidate(f) ==> f.url !in live
  {
    CombinedRace(formats, live, arrivalA);
    SettledFallbackRace(formats, live, arrivalB);
    LinkFrom(FirstLive(arrivalA, live), FirstSettledPair(arrivalB, live))
  }

  /** The evidently intended `getDownloadLink`: tier B yields the first
      pair live in both legs, so null means no eligible pair is live. */
  function GetDownloadLinkCorrected(formats: seq<Format>, live: set<string>, arrivalA: seq<Format>, arrivalB: seq<Pair>): (l: Link)
    requires multiset(arrivalA) == multiset(CombinedCandidates(formats))
    requires multiset(arrivalB) == multiset(FallbackPairs(formats))
    ensures l.Combined? ==> (l.url != "" && l.url in live &&
      exists f :: f in formats && CombinedCandidate(f) && f.url == l.url)
    ensures l.VideoAudio? ==> (l.video in live && l.audio in live &&
      exists p :: p in FallbackPairs(formats) && p.video.url == l.video && p.audio.url == l.audio)
    ensures l.NoLink? ==> forall p :: p in FallbackPairs(formats) ==> !PairLive(p, live)
    ensures !l.Combined? && "" !in live ==> forall f :: f in formats && CombinedCandidate(f) ==> f.url !in live
  {
    CombinedRace(formats, live, arrivalA);
    CorrectedFallbackRace(formats, live, arrivalB);
    LinkFrom(FirstLive(arrivalA, live), FirstLivePair(arrivalB, live))
  }

  /** The link as written and the corrected link coincide except when the
      one as written is null and the corrected one is a live pair. */
  lemma GetDownloadLinkReadings(formats: seq<Format>, live: set<string>, arrivalA: seq<Format>, arrivalB: seq<Pair>)
    requires multiset(arrivalA) == multiset(CombinedCandidates(formats))
    requires multiset(arrivalB) == multiset(FallbackPairs(formats))
    ensures var w := GetDownloadLink(formats, live, arrivalA, arrivalB);
            var c := GetDownloadLinkCorrected(formats, live, arrivalA, arrivalB);
            w != c <==> w.NoLink? && c.VideoAudio?
  {
    SettledVersusLive(arrivalB, live);
  }

  /** What tier A's race result says about the format list. */
  lemma CombinedRace(formats: seq<Format>, live: set<string>, arrivalA: seq<Format>)
    requires multiset(arrivalA) == multiset(CombinedCandidates(formats))
    ensures FirstLive(arrivalA, live).Some? ==>
      exists f :: f in formats && CombinedCandidate(f) && f.url == FirstLive(arrivalA, live).value
    ensures FirstLive(arrivalA, live).None? ==>
      forall f :: f in formats && CombinedCandidate(f) ==> f.url !in live
  {
    CombinedCandidatesExact(formats);
    SameMembers(arrivalA, CombinedCandidates(formats));
    var valid := FirstLive(arrivalA, live);
    if valid.Some? {
      var k :| 0 <= k < |arrivalA| && arrivalA[k].url == valid.value;
      assert arrivalA[k] in arrivalA;
    } else {
      forall f | f in formats && CombinedCandidate(f)
        ensures f.url !in live
      {
        assert f in arrivalA;
        var k :| 0 <= k < |arrivalA| && arrivalA[k] == f;
      }
    }
  }

  /** As written, a pair that tier B's race yields is an eligible pair live
      in both legs. */
  lemma SettledFallbackRace(formats: seq<Format>, live: set<string>, arrivalB: seq<Pair>)
    requires multiset(arrivalB) == multiset(FallbackPairs(formats))
    ensures FirstSettledPair(arrivalB, live).Some? ==>
      FirstSettledPair(arrivalB, live).value in FallbackPairs(formats) && PairLive(FirstSettledPair(arrivalB, live).value, live)
  {
    SameMembers(arrivalB, FallbackPairs(formats));
  }

  /** The corrected tier-B race yields a live eligible pair, and nothing
      only when no eligible pair is live. */
  lemma CorrectedFallbackRace(formats: seq<Format>, live: set<string>, arrivalB: seq<Pair>)
    requires multiset(arrivalB) == multiset(FallbackPairs(formats))
    ensures FirstLivePair(arrivalB, live).Some? ==>
      FirstLivePair(arrivalB, live).value in FallbackPairs(formats) && PairLive(FirstLivePair(arrivalB, live).value, live)
    ensures FirstLivePair(arrivalB, live).None? ==>
      forall p :: p in FallbackPairs(formats) ==> !PairLive(p, live)
  {
    SameMembers(arrivalB, FallbackPairs(formats));
  }

  // ---------------------------------------------------------------------
  // downloadVideo

  /** `downloadVideo` saves to, and returns, `join(temp, filename)`. */
  function DownloadTarget(temp: string, filename: string): string {
    JoinPath(temp, filename)
  }

  /** The download lands under the temporary directory at the requested
      relative name, directly inside it when that name is a plain file
      name. */
  lemma DownloadTargetInsideTemp(temp: string, filename: string)
    ensures DownloadTarget(temp, filename)[..|temp| + 1] == temp + "/"
    ensures DownloadTarget(temp, filename)[|temp| + 1..] == filename
    ensures PlainSegment(filename) ==> InsideDir(DownloadTarget(temp, filename), temp)
  {
    var p := DownloadTarget(temp, filename);
    assert p[..|temp| + 1] == temp + "/";
    assert p[|temp| + 1..] == filename;
  }

  /** The worker asks for `temp/<name>`, so its downloads land in a `temp`
      directory nested inside the temporary directory, not in it directly. */
  lemma WorkerDownloadsNested(temp: string, name: string)
    requires PlainSegment(name)
    ensures DownloadTarget(temp, "temp/" + name) == JoinPath(JoinPath(temp, "temp"), name)
    ensures InsideDir(DownloadTarget(temp, "temp/" + name), JoinPath(temp, "temp"))
    ensures !InsideDir(DownloadTarget(temp, "temp/" + name), temp)
  {
    var p := DownloadTarget(temp, "temp/" + name);
    var nested := JoinPath(temp, "temp");
    assert p == nested + "/" + name;
    DownloadTargetInsideTemp(nested, name);
    assert p[|temp| + 1..] == "temp/" + name;
    assert ("temp/" + name)[4] == '/';
  }

  // ---------------------------------------------------------------------
  // make65sVideo

  const TargetSeconds: real := 65.0

  /** `Math.ceil` on reals. */
  function Ceil(x: real): (n: int)
    ensures x <= n as real < x + 1.0
  {
    -((-x).Floor)
  }

  /** The backslash-to-slash rewrite applied to the input path. */
  function ForwardSlashes(s: string): (r: string)
    ensures |r| == |s|
    ensures forall i :: 0 <= i < |s| ==> r[i] == (if s[i] == '\\' then '/' else s[i])
  {
    if |s| == 0 then "" else [if s[0] == '\\' then '/' else s[0]] + ForwardSlashes(s[1..])
  }

  /** One line of the concat list file. */
  function ListLine(input: string): string {
    "file '" + ForwardSlashes(input) + "'"
  }

  function Repeat(line: string, n: nat): (r: seq<string>)
    ensures |r| == n && forall k :: 0 <= k < n ==> r[k] == line
  {
    if n == 0 then [] else [line] + Repeat(line, n - 1)
  }

  /** What `make65sVideo` does with an input of duration `d`: copy it
      verbatim, loop it `loops` times through a concat list, or reject a
      non-positive `d`. For `-65 <= d <= 0` the code throws (`Array(loops)`
      with an infinite or negative length); durations below -65, which
      ffprobe does not report, are rejected here as well. */
  datatype Plan = CopyVerbatim | Loop(loops: nat, listing: string) | LoopRejected

  function Make65Plan(d: real, input: string): (p: Plan)
    ensures p.CopyVerbatim? <==> d >= TargetSeconds
    ensures p.LoopRejected? <==> d <= 0.0
    ensures p.Loop? ==> p.loops >= 2 && p.loops as real * d >= TargetSeconds && (p.loops - 1) as real * d < TargetSeconds
  {
    if d >= TargetSeconds then CopyVerbatim
    else if d <= 0.0 then LoopRejected
    else
      var loops := Ceil(TargetSeconds / d);
      LoopBounds(d, loops);
      Loop(loops, Join(Repeat(ListLine(input), loops), '\n'))
  }

  lemma LoopBounds(d: real, loops: int)
    requires 0.0 < d < TargetSeconds
    requires TargetSeconds / d <= loops as real < TargetSeconds / d + 1.0
    ensures loops >= 2
    ensures loops as real * d >= TargetSeconds
    ensures (loops - 1) as real * d < TargetSeconds
  {
    var q := TargetSeconds / d;
    assert q * d == TargetSeconds;
    assert q > 1.0;
    assert loops as real * d >= q * d;
    assert (loops - 1) as real < q;
    assert (loops - 1) as real * d < q * d;
  }

  /** The list file holds exactly `loops` identical lines naming the input
      with forward slashes. */
  lemma ListFileLines(d: real, input: string)
    requires 0.0 < d < TargetSeconds
    requires '\n' !in input
    ensures var p := Make65Plan(d, input);
      && Split(p.listing, '\n') == Repeat(ListLine(input), p.loops)
      && '\\' !in ListLine(input)
  {
    var p := Make65Plan(d, input);
    var line := ListLine(input);
    assert '\n' !in ForwardSlashes(input) by {
      forall i | 0 <= i < |input| ensures ForwardSlashes(input)[i] != '\n' {
        assert input[i] in input;
      }
    }
    assert '\\' !in ForwardSlashes(input);
    assert '\n' !in line && '\\' !in line;
    SplitJoin(Repeat(line, p.loops), '\n');
  }

  /** Length of the produced clip: the copy keeps the input's duration; the
      loop concatenates `loops` copies and cuts at 65 seconds (`-t 65`). */
  function OutputSeconds(d: real, p: Plan): real
    requires !p.LoopRejected?
  {
    if p.CopyVerbatim? then d
    else if p.loops as real * d < TargetSeconds then p.loops as real * d else TargetSeconds
  }

  /** Normalisation reaches the target, lands exactly on it when looping,
      and normalising its output again is a verbatim copy. */
  lemma NormalizeReachesTarget(d: real, input: string, output: string)
    requires d > 0.0
    ensures var p := Make65Plan(d, input);
      && OutputSeconds(d, p) >= TargetSeconds
      && (p.Loop? ==> OutputSeconds(d, p) == TargetSeconds)
      && Make65Plan(OutputSeconds(d, p), output).CopyVerbatim?
  {
  }
}
