/** The per-profile worker (`worker.js`): detection of newly published
    videos on the watched channels, the de-duplicating pending queue, the
    start-up guards, and the per-job pipeline from link resolution to the
    post. The YouTube Data API, the browser, the downloads and the clocks
    are not modelled: their answers are the inputs of these functions. */
module Monitor {
  import opened Options
  import opened Strings
  import opened Seqs
  import Resolver

  // ---------------------------------------------------------------------
  // What the API returns

  /** One uploads-playlist item; `publishedAt` is absent when the timestamp
      does not parse (an invalid date compares false with everything). */
  datatype Item = Item(videoId: string, title: string, publishedAt: Option<int>)

  /** A playlist entry is unreadable when it lacks the snippet or resource
      id; reading it throws. */
  datatype Entry = Readable(item: Item) | Unreadable

  /** The outcome of the two API calls for one channel. */
  datatype Listing = QueryFailed | ChannelNotFound | Uploads(entries: seq<Entry>)

  datatype Video = Video(id: string, title: string, url: string, channelId: string)

  const WatchPrefix: string := "https://www.youtube.com/watch?v="

  function ToVideo(it: Item, channelId: string): Video {
    Video(it.videoId, it.title, WatchPrefix + it.videoId, channelId)
  }

  predicate PublishedAfter(it: Item, start: int) {
    it.publishedAt.Some? && it.publishedAt.value > start
  }

  function IdsOf(vs: seq<Video>): set<string> {
    set v | v in vs :: v.id
  }

  predicate DistinctIds(vs: seq<Video>) {
    forall i, j :: 0 <= i < j < |vs| ==> vs[i].id != vs[j].id
  }

  /** Every video carries its channel and its watch url. */
  predicate FromChannel(vs: seq<Video>, channelId: string) {
    forall v :: v in vs ==> v.channelId == channelId && v.url == WatchPrefix + v.id
  }

  predicate Broken(entries: seq<Entry>) {
    exists i :: 0 <= i < |entries| && entries[i].Unreadable?
  }

  lemma IdsOfAppend(vs: seq<Video>, v: Video)
    ensures IdsOf(vs + [v]) == IdsOf(vs) + {v.id}
  {
    assert forall w :: w in vs + [v] <==> w in vs || w == v;
  }

  lemma IdsOfConcat(a: seq<Video>, b: seq<Video>)
    ensures IdsOf(a + b) == IdsOf(a) + IdsOf(b)
  {
    assert forall w :: w in a + b <==> w in a || w in b;
  }

  // ---------------------------------------------------------------------
  // checkChannel

  /** State of the loop over one page: the shared seen-id set, the videos
      found so far, and whether an unreadable entry ended the loop. */
  datatype Scan = Scan(seen: set<string>, found: seq<Video>, broken: bool)

  /** The loop over the playlist page. An item is taken when it was
      published after the worker started and its id has not been seen; its
      id is marked seen at once. An unreadable entry throws out of the loop,
      keeping the ids already marked. */
  function ScanEntries(seen: set<string>, start: int, channelId: string, entries: seq<Entry>): (r: Scan)
    ensures r.seen == seen + IdsOf(r.found)
    ensures forall v :: v in r.found ==> v.id !in seen
    ensures FromChannel(r.found, channelId)
    ensures DistinctIds(r.found)
    ensures r.broken <==> Broken(entries)
    decreases |entries|
  {
    if |entries| == 0 then Scan(seen, [], false)
    else
      var prefix := entries[..|entries| - 1];
      var r := ScanEntries(seen, start, channelId, prefix);
      var e := entries[|entries| - 1];
      assert Broken(entries) <==> Broken(prefix) || e.Unreadable? by {
        if Broken(entries) && !e.Unreadable? {
          var i :| 0 <= i < |entries| && entries[i].Unreadable?;
          assert prefix[i] == entries[i];
        }
        if Broken(prefix) {
          var i :| 0 <= i < |prefix| && prefix[i].Unreadable?;
          assert entries[i] == prefix[i];
        }
      }
      if r.broken then r
      else if e.Unreadable? then r.(broken := true)
      else if PublishedAfter(e.item, start) && e.item.videoId !in r.seen then
        var v := ToVideo(e.item, channelId);
        IdsOfAppend(r.found, v);
        assert forall i :: 0 <= i < |r.found| ==> r.found[i].id in IdsOf(r.found) by {
          forall i | 0 <= i < |r.found| ensures r.found[i].id in IdsOf(r.found) {
            assert r.found[i] in r.found;
          }
        }
        Scan(r.seen + {v.id}, r.found + [v], false)
      else r
  }

  /** What one channel check leaves behind: the updated seen set and the
      videos returned for enqueueing. */
  datatype Check = Check(seen: set<string>, videos: seq<Video>)

  /** `checkChannel`: nothing when a query fails or the channel is unknown,
      nothing (but the ids marked so far stay marked) when the page holds
      an unreadable entry, and the new videos otherwise. */
  function CheckChannel(seen: set<string>, start: int, channelId: string, listing: Listing): (c: Check)
    ensures seen <= c.seen
    ensures IdsOf(c.videos) <= c.seen
    ensures forall v :: v in c.videos ==> v.id !in seen
    ensures FromChannel(c.videos, channelId)
    ensures DistinctIds(c.videos)
    ensures !listing.Uploads? ==> c == Check(seen, [])
    ensures listing.Uploads? && Broken(listing.entries) ==> c.videos == []
    ensures listing.Uploads? && !Broken(listing.entries) ==> c.seen == seen + IdsOf(c.videos)
  {
    match listing
    case QueryFailed => Check(seen, [])
    case ChannelNotFound => Check(seen, [])
    case Uploads(entries) =>
      var r := ScanEntries(seen, start, channelId, entries);
      if r.broken then Check(r.seen, []) else Check(r.seen, r.found)
  }

  // ---------------------------------------------------------------------
  // A reference definition of "new video" and its agreement with the scan

  function Items(entries: seq<Entry>): (items: seq<Item>)
    requires !Broken(entries)
    ensures |items| == |entries| && forall i :: 0 <= i < |entries| ==> items[i] == entries[i].item
  {
    seq(|entries|, i requires 0 <= i < |entries| => entries[i].item)
  }

  /** Item `i` is reported: it was published after the start, its id was
      not seen before the check, and no earlier item on the page with the
      same id was published after the start. */
  predicate NewAt(seen: set<string>, start: int, items: seq<Item>, i: int)
    requires 0 <= i < |items|
  {
    && PublishedAfter(items[i], start)
    && items[i].videoId !in seen
    && forall j :: 0 <= j < i ==> !(items[j].videoId == items[i].videoId && PublishedAfter(items[j], start))
  }

  /** The reported videos, in page order. */
  function NewVideos(seen: set<string>, start: int, channelId: string, items: seq<Item>): seq<Video>
    decreases |items|
  {
    if |items| == 0 then []
    else
      var n := |items| - 1;
      NewVideos(seen, start, channelId, items[..n]) + (if NewAt(seen, start, items, n) then [ToVideo(items[n], channelId)] else [])
  }

  /** Ids on the page published after the start. */
  function AfterIds(start: int, items: seq<Item>): set<string> {
    set i | 0 <= i < |items| && PublishedAfter(items[i], start) :: items[i].videoId
  }

  lemma AfterIdsSnoc(start: int, items: seq<Item>)
    requires |items| > 0
    ensures var n := |items| - 1;
      AfterIds(start, items) == AfterIds(start, items[..n]) + (if PublishedAfter(items[n], start) then {items[n].videoId} else {})
  {
    var n := |items| - 1;
    var p := items[..n];
    forall id | id in AfterIds(start, items)
      ensures id in AfterIds(start, p) || (PublishedAfter(items[n], start) && id == items[n].videoId)
    {
      var i :| 0 <= i < |items| && PublishedAfter(items[i], start) && items[i].videoId == id;
      if i < n {
        assert p[i] == items[i];
      }
    }
    forall id | id in AfterIds(start, p)
      ensures id in AfterIds(start, items)
    {
      var i :| 0 <= i < |p| && PublishedAfter(p[i], start) && p[i].videoId == id;
      assert items[i] == p[i];
    }
  }

  /** The last item is new exactly when it is published after the start and
      its id is neither previously seen nor among the earlier qualifying
      ids. */
  lemma NewAtLast(seen: set<string>, start: int, items: seq<Item>)
    requires |items| > 0
    ensures var n := |items| - 1;
      NewAt(seen, start, items, n) <==>
        PublishedAfter(items[n], start) && items[n].videoId !in seen + AfterIds(start, items[..n])
  {
    var n := |items| - 1;
    var p := items[..n];
    if items[n].videoId in AfterIds(start, p) {
      var j :| 0 <= j < |p| && PublishedAfter(p[j], start) && p[j].videoId == items[n].videoId;
      assert items[j] == p[j];
    }
    if exists j :: 0 <= j < n && items[j].videoId == items[n].videoId && PublishedAfter(items[j], start) {
      var j :| 0 <= j < n && items[j].videoId == items[n].videoId && PublishedAfter(items[j], start);
      assert p[j] == items[j];
    }
  }

  /** The scan over a readable page reports exactly the reference's new
      videos, and marks exactly the qualifying ids as seen. */
  lemma {:induction false} ScanMatchesReference(seen: set<string>, start: int, channelId: string, entries: seq<Entry>)
    requires !Broken(entries)
    ensures ScanEntries(seen, start, channelId, entries).found == NewVideos(seen, start, channelId, Items(entries))
    ensures ScanEntries(seen, start, channelId, entries).seen == seen + AfterIds(start, Items(entries))
    decreases |entries|
  {
    if |entries| > 0 {
      var n := |entries| - 1;
      var prefix := entries[..n];
      assert forall i :: 0 <= i < |prefix| ==> prefix[i] == entries[i];
      ScanMatchesReference(seen, start, channelId, prefix);
      var items := Items(entries);
      assert Items(prefix) == items[..n];
      NewAtLast(seen, start, items);
      AfterIdsSnoc(start, items);
    }
  }

  /** The reference's videos are the new items, each once, in page order:
      `idx` gives the page position of each reported video. */
  lemma NewVideosExactly(seen: set<string>, start: int, channelId: string, items: seq<Item>)
    returns (idx: seq<nat>)
    ensures |idx| == |NewVideos(seen, start, channelId, items)|
    ensures forall k :: 0 <= k < |idx| ==>
      && idx[k] < |items| && NewAt(seen, start, items, idx[k])
      && NewVideos(seen, start, channelId, items)[k] == ToVideo(items[idx[k]], channelId)
    ensures forall a, b :: 0 <= a < b < |idx| ==> idx[a] < idx[b]
    ensures forall i :: 0 <= i < |items| && NewAt(seen, start, items, i) ==>
      ToVideo(items[i], channelId) in NewVideos(seen, start, channelId, items)
  {
    idx := NewVideosIndices(seen, start, channelId, items);
    NewVideosComplete(seen, start, channelId, items);
  }

  /** The reported videos come from new items, in increasing page order. */
  lemma {:induction false} NewVideosIndices(seen: set<string>, start: int, channelId: string, items: seq<Item>)
    returns (idx: seq<nat>)
    ensures |idx| == |NewVideos(seen, start, channelId, items)|
    ensures forall k :: 0 <= k < |idx| ==>
      && idx[k] < |items| && NewAt(seen, start, items, idx[k])
      && NewVideos(seen, start, channelId, items)[k] == ToVideo(items[idx[k]], channelId)
    ensures forall a, b :: 0 <= a < b < |idx| ==> idx[a] < idx[b]
    decreases |items|
  {
    if |items| == 0 {
      idx := [];
    } else {
      var n := |items| - 1;
      var p := items[..n];
      var pidx := NewVideosIndices(seen, start, channelId, p);
      var pv := NewVideos(seen, start, channelId, p);
      var nv := NewVideos(seen, start, channelId, items);
      var isNew := NewAt(seen, start, items, n);
      assert nv == pv + (if isNew then [ToVideo(items[n], channelId)] else []);
      forall k | 0 <= k < |pidx|
        ensures NewAt(seen, start, items, pidx[k]) && p[pidx[k]] == items[pidx[k]]
      {
        NewAtPrefixAt(seen, start, items, pidx[k]);
      }
      idx := if isNew then pidx + [n] else pidx;
    }
  }

  /** Every new item is reported. */
  lemma {:induction false} NewVideosComplete(seen: set<string>, start: int, channelId: string, items: seq<Item>)
    ensures forall i :: 0 <= i < |items| && NewAt(seen, start, items, i) ==>
      ToVideo(items[i], channelId) in NewVideos(seen, start, channelId, items)
    decreases |items|
  {
    if |items| > 0 {
      NewVideosComplete(seen, start, channelId, items[..|items| - 1]);
      NewVideosSnocComplete(seen, start, channelId, items);
    }
  }

  /** The last item's step keeps every new item reported. */
  lemma NewVideosSnocComplete(seen: set<string>, start: int, channelId: string, items: seq<Item>)
    requires |items| > 0
    requires var p := items[..|items| - 1];
      forall i :: 0 <= i < |p| && NewAt(seen, start, p, i) ==> ToVideo(p[i], channelId) in NewVideos(seen, start, channelId, p)
    ensures forall i :: 0 <= i < |items| && NewAt(seen, start, items, i) ==>
      ToVideo(items[i], channelId) in NewVideos(seen, start, channelId, items)
  {
    var n := |items| - 1;
    var p := items[..n];
    var pv := NewVideos(seen, start, channelId, p);
    var nv := NewVideos(seen, start, channelId, items);
    assert nv == pv + (if NewAt(seen, start, items, n) then [ToVideo(items[n], channelId)] else []);
    NewAtPrefix(seen, start, items);
    forall i | 0 <= i < |items| && NewAt(seen, start, items, i)
      ensures ToVideo(items[i], channelId) in nv
    {
      if i < n {
        assert p[i] == items[i];
        assert ToVideo(p[i], channelId) in pv;
      } else {
        assert nv[|pv|] == ToVideo(items[i], channelId);
      }
    }
  }

  /** Whether an item is new depends only on the items before it. */
  lemma NewAtPrefix(seen: set<string>, start: int, items: seq<Item>)
    requires |items| > 0
    ensures var n := |items| - 1;
      forall i :: 0 <= i < n ==> (NewAt(seen, start, items[..n], i) <==> NewAt(seen, start, items, i))
  {
    forall i | 0 <= i < |items| - 1
      ensures NewAt(seen, start, items[..|items| - 1], i) <==> NewAt(seen, start, items, i)
    {
      NewAtPrefixAt(seen, start, items, i);
    }
  }

  lemma NewAtPrefixAt(seen: set<string>, start: int, items: seq<Item>, i: nat)
    requires i < |items| - 1
    ensures var p := items[..|items| - 1];
      p[i] == items[i] && (NewAt(seen, start, p, i) <==> NewAt(seen, start, items, i))
  {
    var p := items[..|items| - 1];
    assert forall j :: 0 <= j < i ==> p[j] == items[j];
  }

  lemma {:induction false} NothingNewNoVideos(seen: set<string>, start: int, channelId: string, items: seq<Item>)
    requires forall i :: 0 <= i < |items| ==> !NewAt(seen, start, items, i)
    ensures NewVideos(seen, start, channelId, items) == []
    decreases |items|
  {
    if |items| > 0 {
      NewAtPrefix(seen, start, items);
      NothingNewNoVideos(seen, start, channelId, items[..|items| - 1]);
    }
  }

  /** Checking the same listing again right after a check reports nothing:
      every id a readable page can report is already marked seen. */
  lemma RecheckFindsNothing(seen: set<string>, start: int, channelId: string, listing: Listing)
    ensures var c := CheckChannel(seen, start, channelId, listing);
      CheckChannel(c.seen, start, channelId, listing).videos == []
  {
    if listing.Uploads? && !Broken(listing.entries) {
      var entries := listing.entries;
      var items := Items(entries);
      var c := CheckChannel(seen, start, channelId, listing);
      ScanMatchesReference(seen, start, channelId, entries);
      ScanMatchesReference(c.seen, start, channelId, entries);
      forall i | 0 <= i < |items| && PublishedAfter(items[i], start)
        ensures items[i].videoId in c.seen
      {
        assert items[i].videoId in AfterIds(start, items);
      }
      NothingNewNoVideos(c.seen, start, channelId, items);
    }
  }

  // ---------------------------------------------------------------------
  // detectionLoop

  /** `order` lists every channel position once: the order in which the
      concurrent checks run their (uninterrupted) page loops. */
  predicate IsOrder(order: seq<nat>, n: nat) {
    && |order| == n
    && (forall t :: 0 <= t < n ==> order[t] < n)
    && DistinctPositions(order)
    && (forall k :: 0 <= k < n ==> k in order)
  }

  predicate DistinctPositions(order: seq<nat>) {
    forall a, b :: 0 <= a < b < |order| ==> order[a] != order[b]
  }

  /** Runs the checks in `order`, each against the seen set the previous
      ones left; result `k` is the list returned for channel position `k`. */
  function CheckInOrder(seen: set<string>, start: int, channels: seq<string>, listings: seq<Listing>, order: seq<nat>)
    : (r: (set<string>, seq<seq<Video>>))
    requires |listings| == |channels|
    requires forall t :: 0 <= t < |order| ==> order[t] < |channels|
    ensures seen <= r.0
    ensures |r.1| == |channels|
    ensures forall k :: 0 <= k < |channels| ==>
      DistinctIds(r.1[k]) && IdsOf(r.1[k]) <= r.0 - seen && FromChannel(r.1[k], channels[k])
    ensures forall a, b :: 0 <= a < b < |channels| ==> IdsOf(r.1[a]) !! IdsOf(r.1[b])
    ensures forall k :: 0 <= k < |channels| && k !in order ==> r.1[k] == []
    decreases |order|
  {
    if |order| == 0 then
      var none := seq(|channels|, _ => []);
      assert forall k :: 0 <= k < |channels| ==> IdsOf(none[k]) == {};
      (seen, none)
    else
      var t := |order| - 1;
      var prev := CheckInOrder(seen, start, channels, listings, order[..t]);
      var k := order[t];
      var c := CheckChannel(prev.0, start, channels[k], listings[k]);
      var blocks := prev.1[k := c.videos];
      assert forall j :: 0 <= j < |channels| && j != k ==> IdsOf(blocks[j]) <= prev.0 - seen;
      assert IdsOf(c.videos) !! prev.0 by {
        forall id | id in IdsOf(c.videos) ensures id !in prev.0 {
          var v :| v in c.videos && v.id == id;
        }
      }
      assert forall j :: 0 <= j < |channels| && j !in order ==> j !in order[..t];
      (c.seen, blocks)
  }

  /** The check of position `order[t]` is the one that fills its block:
      the block holds what `checkChannel` returns against the seen set the
      earlier checks left. */
  lemma {:induction false} CheckInOrderBlock(seen: set<string>, start: int, channels: seq<string>, listings: seq<Listing>,
                                             order: seq<nat>, t: nat)
    requires |listings| == |channels|
    requires forall u :: 0 <= u < |order| ==> order[u] < |channels|
    requires DistinctPositions(order) && t < |order|
    ensures CheckInOrder(seen, start, channels, listings, order).1[order[t]]
         == CheckChannel(CheckInOrder(seen, start, channels, listings, order[..t]).0, start,
                         channels[order[t]], listings[order[t]]).videos
    decreases |order|
  {
    var n := |order| - 1;
    var p := order[..n];
    assert forall u :: 0 <= u < |p| ==> p[u] == order[u];
    var prev := CheckInOrder(seen, start, channels, listings, p);
    var k := order[n];
    var c := CheckChannel(prev.0, start, channels[k], listings[k]);
    assert CheckInOrder(seen, start, channels, listings, order).1 == prev.1[k := c.videos];
    if t < n {
      assert p[..t] == order[..t] && p[t] == order[t];
      assert order[t] != k;
      CheckInOrderBlock(seen, start, channels, listings, p, t);
    }
  }

  /** The seen set only grows from one check to the next. */
  lemma {:induction false} CheckInOrderPrefixSeen(seen: set<string>, start: int, channels: seq<string>, listings: seq<Listing>,
                                                  order: seq<nat>, t: nat)
    requires |listings| == |channels|
    requires forall u :: 0 <= u < |order| ==> order[u] < |channels|
    requires t <= |order|
    ensures CheckInOrder(seen, start, channels, listings, order[..t]).0 <= CheckInOrder(seen, start, channels, listings, order).0
    decreases |order|
  {
    if t < |order| {
      var n := |order| - 1;
      var p := order[..n];
      assert p[..t] == order[..t];
      CheckInOrderPrefixSeen(seen, start, channels, listings, p, t);
    } else {
      assert order[..t] == order;
    }
  }

  /** No page holds an unreadable entry. */
  predicate AllReadable(listings: seq<Listing>) {
    forall j :: 0 <= j < |listings| && listings[j].Uploads? ==> !Broken(listings[j].entries)
  }

  /** With every page readable, the ids marked during the checks are
      exactly the ids the blocks report. */
  lemma {:induction false} CheckInOrderSeenReported(seen: set<string>, start: int, channels: seq<string>, listings: seq<Listing>,
                                                    order: seq<nat>)
    requires |listings| == |channels|
    requires forall u :: 0 <= u < |order| ==> order[u] < |channels|
    requires DistinctPositions(order) && AllReadable(listings)
    ensures CheckInOrder(seen, start, channels, listings, order).0
         == seen + IdsOf(Flatten(CheckInOrder(seen, start, channels, listings, order).1))
    decreases |order|
  {
    var r := CheckInOrder(seen, start, channels, listings, order);
    if |order| == 0 {
      FlattenEmpty(r.1);
    } else {
      var n := |order| - 1;
      var p := order[..n];
      assert forall u :: 0 <= u < |p| ==> p[u] == order[u];
      CheckInOrderSeenReported(seen, start, channels, listings, p);
      var prev := CheckInOrder(seen, start, channels, listings, p);
      var k := order[n];
      assert k !in p;
      FlattenIdsUpdate(prev.1, k, r.1[k]);
      assert r.1 == prev.1[k := r.1[k]];
    }
  }

  function Flatten(blocks: seq<seq<Video>>): seq<Video> {
    if |blocks| == 0 then [] else blocks[0] + Flatten(blocks[1..])
  }

  lemma {:induction false} FlattenEmpty(blocks: seq<seq<Video>>)
    requires forall k :: 0 <= k < |blocks| ==> blocks[k] == []
    ensures Flatten(blocks) == []
  {
    if |blocks| > 0 {
      FlattenEmpty(blocks[1..]);
    }
  }

  /** Filling an empty block adds exactly its ids to the flattened ids. */
  lemma {:induction false} FlattenIdsUpdate(blocks: seq<seq<Video>>, k: nat, b: seq<Video>)
    requires k < |blocks| && blocks[k] == []
    ensures IdsOf(Flatten(blocks[k := b])) == IdsOf(Flatten(blocks)) + IdsOf(b)
  {
    var u := blocks[k := b];
    IdsOfConcat(u[0], Flatten(u[1..]));
    IdsOfConcat(blocks[0], Flatten(blocks[1..]));
    if k > 0 {
      assert u[1..] == blocks[1..][k - 1 := b];
      FlattenIdsUpdate(blocks[1..], k - 1, b);
    } else {
      assert u[1..] == blocks[1..];
    }
  }

  lemma {:induction false} FlattenIds(blocks: seq<seq<Video>>)
    ensures forall id :: id in IdsOf(Flatten(blocks)) ==> exists k :: 0 <= k < |blocks| && id in IdsOf(blocks[k])
  {
    if |blocks| > 0 {
      FlattenIds(blocks[1..]);
      IdsOfConcat(blocks[0], Flatten(blocks[1..]));
      forall id | id in IdsOf(Flatten(blocks))
        ensures exists k :: 0 <= k < |blocks| && id in IdsOf(blocks[k])
      {
        if id !in IdsOf(blocks[0]) {
          var k :| 0 <= k < |blocks[1..]| && id in IdsOf(blocks[1..][k]);
          assert blocks[k + 1] == blocks[1..][k];
        }
      }
    }
  }

  lemma DistinctConcat(a: seq<Video>, b: seq<Video>)
    requires DistinctIds(a) && DistinctIds(b) && IdsOf(a) !! IdsOf(b)
    ensures DistinctIds(a + b)
  {
    forall i, j | 0 <= i < j < |a + b|
      ensures (a + b)[i].id != (a + b)[j].id
    {
      if i < |a| <= j {
        assert a[i] in a && b[j - |a|] in b;
        assert (a + b)[i].id in IdsOf(a) && (a + b)[j].id in IdsOf(b);
      }
    }
  }

  /** Pairwise disjoint blocks of distinct ids concatenate to distinct ids. */
  lemma {:induction false} FlattenDistinct(blocks: seq<seq<Video>>)
    requires forall k :: 0 <= k < |blocks| ==> DistinctIds(blocks[k])
    requires forall a, b :: 0 <= a < b < |blocks| ==> IdsOf(blocks[a]) !! IdsOf(blocks[b])
    ensures DistinctIds(Flatten(blocks))
  {
    if |blocks| > 0 {
      var rest := blocks[1..];
      assert forall a, b :: 0 <= a < b < |rest| ==> rest[a] == blocks[a + 1] && rest[b] == blocks[b + 1];
      FlattenDistinct(rest);
      FlattenIds(rest);
      assert IdsOf(blocks[0]) !! IdsOf(Flatten(rest)) by {
        forall id | id in IdsOf(Flatten(rest)) ensures id !in IdsOf(blocks[0]) {
          var k :| 0 <= k < |rest| && id in IdsOf(rest[k]);
          assert rest[k] == blocks[k + 1];
        }
      }
      DistinctConcat(blocks[0], Flatten(rest));
    }
  }

  lemma {:induction false} FlattenWithin(blocks: seq<seq<Video>>, bound: set<string>)
    requires forall k :: 0 <= k < |blocks| ==> IdsOf(blocks[k]) <= bound
    ensures IdsOf(Flatten(blocks)) <= bound
  {
    FlattenIds(blocks);
  }

  /** The worker's detection state: start time, seen ids, pending queue. */
  datatype Monitor = Monitor(start: int, seen: set<string>, queue: seq<Video>)

  function Init(start: int): Monitor {
    Monitor(start, {}, [])
  }

  /** One detection cycle's findings: the seen set after all checks and the
      videos to enqueue, channel by channel in the configured order. */
  function CycleFindings(m: Monitor, channels: seq<string>, listings: seq<Listing>, order: seq<nat>)
    : (r: (set<string>, seq<Video>))
    requires |listings| == |channels| && IsOrder(order, |channels|)
    ensures m.seen <= r.0
    ensures DistinctIds(r.1)
    ensures IdsOf(r.1) <= r.0 - m.seen
    ensures r.1 == Flatten(CheckInOrder(m.seen, m.start, channels, listings, order).1)
  {
    var (seen, blocks) := CheckInOrder(m.seen, m.start, channels, listings, order);
    FlattenDistinct(blocks);
    FlattenWithin(blocks, seen - m.seen);
    (seen, Flatten(blocks))
  }

  /** The check at turn `t` of a readable page marks every id on it
      published after the start. */
  lemma TurnMarksPage(seen: set<string>, start: int, channels: seq<string>, listings: seq<Listing>, order: seq<nat>, t: nat)
    requires |listings| == |channels|
    requires forall u :: 0 <= u < |order| ==> order[u] < |channels|
    requires t < |order| && listings[order[t]].Uploads? && !Broken(listings[order[t]].entries)
    ensures AfterIds(start, Items(listings[order[t]].entries)) <= CheckInOrder(seen, start, channels, listings, order[..t + 1]).0
  {
    var k := order[t];
    var q := order[..t + 1];
    assert q[..t] == order[..t] && q[t] == k;
    var before := CheckInOrder(seen, start, channels, listings, order[..t]).0;
    ScanMatchesReference(before, start, channels[k], listings[k].entries);
  }

  /** With every page readable, a cycle enqueues every video published
      after the start on any configured channel that was not seen before. */
  lemma CycleReportsEveryNewVideo(m: Monitor, channels: seq<string>, listings: seq<Listing>, order: seq<nat>, k: nat, i: nat)
    requires |listings| == |channels| && IsOrder(order, |channels|) && AllReadable(listings)
    requires k < |channels| && listings[k].Uploads? && i < |listings[k].entries|
    requires PublishedAfter(listings[k].entries[i].item, m.start)
    ensures listings[k].entries[i].item.videoId in m.seen + IdsOf(CycleFindings(m, channels, listings, order).1)
  {
    var entries := listings[k].entries;
    assert Items(entries)[i] == entries[i].item;
    assert entries[i].item.videoId in AfterIds(m.start, Items(entries));
    assert k in order;
    var t :| 0 <= t < |order| && order[t] == k;
    TurnMarksPage(m.seen, m.start, channels, listings, order, t);
    CheckInOrderPrefixSeen(m.seen, m.start, channels, listings, order, t + 1);
    CheckInOrderSeenReported(m.seen, m.start, channels, listings, order);
  }

  /** Something that happens to the worker: a detection cycle (with the
      listings each channel's queries returned and the order the checks ran
      in), or the consumer taking the head of the queue. */
  datatype Event = Detect(listings: seq<Listing>, order: seq<nat>) | Take

  predicate Admissible(e: Event, n: nat) {
    e.Detect? ==> |e.listings| == n && IsOrder(e.order, n)
  }

  /** A run: the state reached, every video enqueued, every video taken. */
  datatype Trace = Trace(m: Monitor, enqueued: seq<Video>, taken: seq<Video>)

  /** The detection loop and the consumer interleaved as `events` says;
      taking from an empty queue leaves everything as it is (the consumer
      sleeps and polls again). The queue is first-in first-out, and no id
      is ever enqueued twice or enqueued when already seen. */
  function Run(m: Monitor, channels: seq<string>, events: seq<Event>): (t: Trace)
    requires forall i :: 0 <= i < |events| ==> Admissible(events[i], |channels|)
    ensures t.m.start == m.start
    ensures m.seen <= t.m.seen
    ensures DistinctIds(t.enqueued)
    ensures IdsOf(t.enqueued) <= t.m.seen - m.seen
    ensures t.taken + t.m.queue == m.queue + t.enqueued
    decreases |events|
  {
    if |events| == 0 then Trace(m, [], [])
    else
      var n := |events| - 1;
      var prev := Run(m, channels, events[..n]);
      match events[n]
      case Detect(listings, order) =>
        assert Admissible(events[n], |channels|);
        var (seen, found) := CycleFindings(prev.m, channels, listings, order);
        IdsOfConcat(prev.enqueued, found);
        DistinctConcat(prev.enqueued, found);
        AppendAssoc(prev.taken, prev.m.queue, found);
        AppendAssoc(m.queue, prev.enqueued, found);
        Trace(Monitor(m.start, seen, prev.m.queue + found), prev.enqueued + found, prev.taken)
      case Take =>
        if |prev.m.queue| == 0 then prev
        else
          var q := prev.m.queue;
          AppendAssoc(prev.taken, [q[0]], q[1..]);
          HeadTail(q);
          Trace(prev.m.(queue := q[1..]), prev.enqueued, prev.taken + [q[0]])
  }

  /** From a fresh start, no video is ever taken twice, and what has been
      taken is the front of what has been enqueued. */
  lemma EachVideoTakenOnce(start: int, channels: seq<string>, events: seq<Event>)
    requires forall i :: 0 <= i < |events| ==> Admissible(events[i], |channels|)
    ensures var t := Run(Init(start), channels, events);
      && DistinctIds(t.taken)
      && DistinctIds(t.m.queue)
      && t.taken == t.enqueued[..|t.taken|]
  {
    var t := Run(Init(start), channels, events);
    assert t.taken + t.m.queue == t.enqueued;
    assert t.taken == t.enqueued[..|t.taken|];
    assert t.m.queue == t.enqueued[|t.taken|..];
    DistinctSlices(t.enqueued, |t.taken|);
  }

  lemma DistinctSlices(vs: seq<Video>, k: nat)
    requires DistinctIds(vs) && k <= |vs|
    ensures DistinctIds(vs[..k]) && DistinctIds(vs[k..])
  {
    assert forall i :: 0 <= i < |vs| - k ==> vs[k..][i] == vs[k + i];
  }

  const CyclePeriod: real := 1000.0

  /** `Math.max(0, 1000 - elapsed)`: the pause before the next cycle. */
  function CycleWait(elapsed: real): (w: real)
    ensures w >= 0.0
    ensures elapsed + w >= CyclePeriod
    ensures w == 0.0 <==> elapsed >= CyclePeriod
    ensures w > 0.0 ==> elapsed + w == CyclePeriod
    ensures elapsed >= 0.0 ==> w <= CyclePeriod
  {
    if CyclePeriod - elapsed > 0.0 then CyclePeriod - elapsed else 0.0
  }

  // ---------------------------------------------------------------------
  // main

  /** The data a worker is started with; absent fields are `None`. */
  datatype WorkerData = WorkerData(profileId: string, apiKey: Option<string>, channels: Option<seq<string>>, wsEndpoint: Option<string>)

  datatype Startup = MissingApiKey | NoChannels | MissingEndpoint | Monitoring

  predicate Truthy(s: Option<string>) {
    s.Some? && s.value != ""
  }

  /** The guards `main` runs before connecting to the browser, in order. */
  function StartupCheck(w: WorkerData): (s: Startup)
    ensures s.Monitoring? <==> Truthy(w.apiKey) && w.channels.GetOr([]) != [] && Truthy(w.wsEndpoint)
    ensures s.MissingApiKey? <==> !Truthy(w.apiKey)
    ensures s.NoChannels? <==> Truthy(w.apiKey) && w.channels.GetOr([]) == []
  {
    if !Truthy(w.apiKey) then MissingApiKey
    else if w.channels.None? || |w.channels.value| == 0 then NoChannels
    else if !Truthy(w.wsEndpoint) then MissingEndpoint
    else Monitoring
  }

  // ---------------------------------------------------------------------
  // processQueue

  /** How the download stage uses a resolved link. */
  datatype Route = SingleDownload(url: string) | DownloadAndMerge(video: string, audio: string) | NoRoute

  /** A truthy combined url is downloaded alone; otherwise two truthy legs
      are downloaded and merged; anything else throws "no valid link". */
  function RouteFor(link: Resolver.Link): (r: Route)
    ensures r.SingleDownload? <==> link.Combined? && link.url != ""
    ensures r.DownloadAndMerge? <==> link.VideoAudio? && link.video != "" && link.audio != ""
    ensures r.SingleDownload? ==> r.url == link.url
    ensures r.DownloadAndMerge? ==> r.video == link.video && r.audio == link.audio
  {
    match link
    case Combined(u) => if u != "" then SingleDownload(u) else NoRoute
    case VideoAudio(v, a) => if v != "" && a != "" then DownloadAndMerge(v, a) else NoRoute
    case NoLink => NoRoute
  }

  /** Every link the resolver hands back is usable unless it is the null
      result, given that the empty url is never live (a request for it
      cannot succeed). */
  lemma ResolvedLinkRoutable(formats: seq<Resolver.Format>, live: set<string>, arrivalA: seq<Resolver.Format>, arrivalB: seq<Resolver.Pair>)
    requires multiset(arrivalA) == multiset(Resolver.CombinedCandidates(formats))
    requires multiset(arrivalB) == multiset(Resolver.FallbackPairs(formats))
    requires "" !in live
    ensures var l := Resolver.GetDownloadLink(formats, live, arrivalA, arrivalB);
      RouteFor(l).NoRoute? <==> l.NoLink?
  {
  }

  /** Where the upload stage can end. `PostUnconfirmed` is a file handed to
      the upload input whose Post button never became ready, or whose post
      did not redirect to the content page in time. */
  datatype UploadOutcome = FileRejected | PostUnconfirmed | Posted

  /** The outcomes of the external steps of one job: the resolver's link
      (`None` when it threw), whether the downloads (and merge) succeeded,
      the probed duration of the raw file, whether ffmpeg succeeded, and the
      upload. */
  datatype JobOutcomes = JobOutcomes(link: Option<Resolver.Link>, fetched: bool, duration: real, encoded: bool, upload: UploadOutcome)

  datatype Stage = Resolve | Acquire | Normalize | Publish

  datatype JobResult = Completed | Failed(stage: Stage)

  /** The stages up to the upload: the first that fails ends the job. */
  function StagesBeforeUpload(o: JobOutcomes): (r: Option<Stage>)
    ensures r.None? <==> o.link.Some? && !RouteFor(o.link.value).NoRoute? && o.fetched && o.duration > 0.0 && o.encoded
  {
    if o.link.None? || RouteFor(o.link.value).NoRoute? then Some(Resolve)
    else if !o.fetched then Some(Acquire)
    else if Resolver.Make65Plan(o.duration, "raw").LoopRejected? || !o.encoded then Some(Normalize)
    else None
  }

  /** As written: `uploadVideo` rethrows only when the file cannot be handed
      to the input; a post that is never confirmed is logged and swallowed,
      and the job goes on to report the upload as done. */
  function ProcessJobAsWritten(o: JobOutcomes): (r: JobResult)
    ensures r.Completed? <==> StagesBeforeUpload(o).None? && o.upload != FileRejected
  {
    match StagesBeforeUpload(o)
    case Some(s) => Failed(s)
    case None => if o.upload == FileRejected then Failed(Publish) else Completed
  }

  /** A job whose post was never confirmed is reported as uploaded. */
  lemma UnconfirmedPostReportedDone()
    ensures var o := JobOutcomes(Some(Resolver.Combined("https://v")), true, 70.0, true, PostUnconfirmed);
      ProcessJobAsWritten(o) == Completed && ProcessJob(o) == Failed(Publish)
  {
  }

  /** The evidently intended pipeline: a job completes only when every
      stage succeeds, the post included; otherwise it fails at the first
      stage that did not succeed. */
  function ProcessJob(o: JobOutcomes): (r: JobResult)
    ensures r.Completed? <==> StagesBeforeUpload(o).None? && o.upload == Posted
    ensures r.Failed? && StagesBeforeUpload(o).Some? ==> r.stage == StagesBeforeUpload(o).value
    ensures r.Failed? && StagesBeforeUpload(o).None? ==> r.stage == Publish
  {
    match StagesBeforeUpload(o)
    case Some(s) => Failed(s)
    case None => if o.upload == Posted then Completed else Failed(Publish)
  }

  /** The two readings differ only on unconfirmed posts. */
  lemma ProcessJobDiffersOnlyOnUnconfirmed(o: JobOutcomes)
    ensures ProcessJob(o) != ProcessJobAsWritten(o) <==> StagesBeforeUpload(o).None? && o.upload == PostUnconfirmed
  {
  }

  /** The marker the supervisor counts uploads by. */
  const UploadDoneMarker: string := "✅ Upload xong"

  /** The words ("total time") that open the timing line. */
  const TimingWords: string := "Tổng thời gian"
  /** The text of the timing line before the fixed `65s` it mentions. */
  const TimingLead: string := "] ⏱ " + TimingWords + " từ nhận → download → merge → "
  /** The text between that `65s` and the elapsed time. */
  const TimingTail: string := " → upload (đã trừ redirect 1s): "

  /** The timing line posted after a completed job; `elapsed` is the total
      minus one second, printed with two decimals. */
  function TimingLine(profileId: string, elapsed: string): string {
    "[" + profileId + TimingLead + "65s" + TimingTail + elapsed + "s"
  }

  /** The text between the profile id and the per-stage durations of the
      details line. */
  const DetailsLead: string := "] Chi tiết thời gian: "

  /** The line the job's `catch` block posts. */
  function ErrorLine(profileId: string, message: string): string {
    "❌ [" + profileId + "] Error: " + message
  }

  /** The log lines one job ends with. A completed job posts the upload
      line, the timing line and the details line (`details` stands for the
      four per-stage durations), then reopens the upload page; when that
      throws (`reopen` holds its message) the error line follows. A failed
      job posts the error line alone. */
  function JobReport(profileId: string, v: Video, finalFile: string, elapsed: string, details: string,
                     result: JobResult, reason: string, reopen: Option<string>)
    : (lines: seq<string>)
    ensures result.Completed? ==> |lines| == (if reopen.Some? then 4 else 3)
    ensures result.Completed? ==> OccursAt(lines[0], UploadDoneMarker, |profileId| + 3)
    ensures result.Completed? ==> lines[1] == TimingLine(profileId, elapsed)
    ensures result.Completed? ==> StartsWith(lines[2], "[" + profileId + DetailsLead)
    ensures result.Completed? && reopen.Some? ==> StartsWith(lines[3], "❌ [" + profileId + "] Error: ")
    ensures result.Failed? ==> |lines| == 1 && StartsWith(lines[0], "❌ [" + profileId + "] Error: ")
  {
    if result.Completed? then
      var head := "[" + profileId + "] ";
      var line := head + UploadDoneMarker + ": " + v.title + " → " + finalFile;
      assert |head| == |profileId| + 3;
      assert line[|head|..|head| + |UploadDoneMarker|] == UploadDoneMarker;
      var lead := "[" + profileId + DetailsLead;
      assert (lead + details)[..|lead|] == lead;
      var done := [line, TimingLine(profileId, elapsed), lead + details];
      match reopen
      case None => done
      case Some(msg) =>
        var eHead := "❌ [" + profileId + "] Error: ";
        assert (eHead + msg)[..|eHead|] == eHead;
        done + [ErrorLine(profileId, msg)]
    else
      var head := "❌ [" + profileId + "] Error: ";
      assert (head + reason)[..|head|] == head;
      [ErrorLine(profileId, reason)]
  }

  /** How many lines carry the upload marker. */
  function CountMarked(lines: seq<string>): nat {
    if |lines| == 0 then 0
    else (if Contains(lines[0], UploadDoneMarker) then 1 else 0) + CountMarked(lines[1..])
  }

  lemma {:induction false} CountMarkedNone(lines: seq<string>)
    requires forall k :: 0 <= k < |lines| ==> '✅' !in lines[k]
    ensures CountMarked(lines) == 0
  {
    if |lines| > 0 {
      assert UploadDoneMarker[0] == '✅';
      MissingFirstChar(lines[0], UploadDoneMarker);
      CountMarkedNone(lines[1..]);
    }
  }

  /** The fixed texts of the report lines do not contain the check mark. */
  lemma TimingLeadUnmarked()
    ensures '✅' !in TimingLead
  {
    assert '✅' !in TimingWords;
  }

  lemma TimingTailUnmarked()
    ensures '✅' !in TimingTail
  {
  }

  lemma DetailsLeadUnmarked()
    ensures '✅' !in DetailsLead
  {
  }

  lemma TimingLineUnmarked(profileId: string, elapsed: string)
    requires '✅' !in profileId && '✅' !in elapsed
    ensures '✅' !in TimingLine(profileId, elapsed)
  {
    TimingLeadUnmarked();
    TimingTailUnmarked();
  }

  /** Every line after the upload line of a completed job is free of the
      check mark when the texts put into it are. */
  lemma ReportTailUnmarked(profileId: string, v: Video, finalFile: string, elapsed: string, details: string,
                           reason: string, reopen: Option<string>)
    requires '✅' !in profileId && '✅' !in elapsed && '✅' !in details
    requires reopen.Some? ==> '✅' !in reopen.value
    ensures var lines := JobReport(profileId, v, finalFile, elapsed, details, Completed, reason, reopen);
      forall k :: 1 <= k < |lines| ==> '✅' !in lines[k]
  {
    var lines := JobReport(profileId, v, finalFile, elapsed, details, Completed, reason, reopen);
    TimingLineUnmarked(profileId, elapsed);
    DetailsLeadUnmarked();
    assert lines[2] == "[" + profileId + DetailsLead + details;
    if reopen.Some? {
      assert lines[3] == ErrorLine(profileId, reopen.value);
    }
  }

  /** Of the lines a job ends with, exactly the upload line of a completed
      job carries the upload marker, provided the profile id, the times and
      the error messages do not contain the check mark that starts it. */
  lemma JobReportMarksOneUpload(profileId: string, v: Video, finalFile: string, elapsed: string, details: string,
                                result: JobResult, reason: string, reopen: Option<string>)
    requires '✅' !in profileId && '✅' !in elapsed && '✅' !in details && '✅' !in reason
    requires reopen.Some? ==> '✅' !in reopen.value
    ensures CountMarked(JobReport(profileId, v, finalFile, elapsed, details, result, reason, reopen))
         == (if result.Completed? then 1 else 0)
  {
    var lines := JobReport(profileId, v, finalFile, elapsed, details, result, reason, reopen);
    if result.Completed? {
      assert Contains(lines[0], UploadDoneMarker);
      ReportTailUnmarked(profileId, v, finalFile, elapsed, details, reason, reopen);
      CountMarkedNone(lines[1..]);
    } else {
      assert lines[0] == ErrorLine(profileId, reason);
      CountMarkedNone(lines);
    }
  }
}
