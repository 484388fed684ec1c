/** The pure helpers of the dashboard renderer (`renderer/renderer.js`):
    key masking, search, pagination, sort direction, select-all state,
    log-line classes and the header counters. The DOM itself is left out. */
module Dashboard {
  import opened Options
  import opened Strings
  import opened Seqs
  import opened ProfileFile
  import Selection
  import opened Table
  import Supervisor

  // ---------------------------------------------------------------------
  // Key masking

  const Bullet: char := '\U{2022}'

  function Bullets(n: nat): (r: string)
    ensures |r| == n && forall i :: 0 <= i < n ==> r[i] == Bullet
  {
    if n == 0 then "" else [Bullet] + Bullets(n - 1)
  }

  /** `maskApiKey`: four bullets for a missing or short key; otherwise the
      key's first and last four characters around one bullet per hidden
      character. */
  function MaskApiKey(key: Option<string>): (r: string)
    ensures key.None? || |key.value| < 8 ==> r == Bullets(4)
    ensures key.Some? && |key.value| >= 8 ==>
      && |r| == |key.value|
      && r[..4] == key.value[..4]
      && r[|r| - 4..] == key.value[|key.value| - 4..]
      && forall i :: 4 <= i < |r| - 4 ==> r[i] == Bullet
  {
    match key
    case None => Bullets(4)
    case Some(k) =>
      if |k| < 8 then Bullets(4)
      else
        var r := k[..4] + Bullets(|k| - 8) + k[|k| - 4..];
        assert r[..4] == k[..4];
        assert r[|r| - 4..] == k[|k| - 4..];
        r
  }

  /** The mask shows nothing but the length and the outer four characters:
      keys that agree on those are masked alike. */
  lemma MaskHidesMiddle(a: string, b: string)
    requires |a| == |b| >= 8
    requires a[..4] == b[..4] && a[|a| - 4..] == b[|b| - 4..]
    ensures MaskApiKey(Some(a)) == MaskApiKey(Some(b))
  {
    var ma, mb := MaskApiKey(Some(a)), MaskApiKey(Some(b));
    forall i | 0 <= i < |ma|
      ensures ma[i] == mb[i]
    {
      if i < 4 {
        assert ma[i] == ma[..4][i] && mb[i] == mb[..4][i];
      } else if i >= |ma| - 4 {
        assert ma[i] == ma[|ma| - 4..][i - (|ma| - 4)] && mb[i] == mb[|mb| - 4..][i - (|mb| - 4)];
      }
    }
  }

  // ---------------------------------------------------------------------
  // Search

  function SomeChannelMatches(chs: seq<string>, q: string): (b: bool)
    ensures b <==> exists i :: 0 <= i < |chs| && Contains(Lower(chs[i]), q)
  {
    if |chs| == 0 then false
    else
      assert forall i :: 1 <= i < |chs| ==> chs[i] == chs[1..][i - 1];
      Contains(Lower(chs[0]), q) || SomeChannelMatches(chs[1..], q)
  }

  /** A profile matches a lower-cased query when its id or one of its
      channels, lower-cased, contains the query. */
  predicate Matches(p: Profile, q: string) {
    Contains(Lower(p.profileId), q) || SomeChannelMatches(p.channels, q)
  }

  function Filter(ps: seq<Profile>, q: string): (r: seq<Profile>)
    ensures |r| <= |ps|
    ensures forall p :: p in r <==> p in ps && Matches(p, q)
  {
    if |ps| == 0 then []
    else
      var rest := Filter(ps[1..], q);
      assert forall p :: p in ps <==> p == ps[0] || p in ps[1..];
      if Matches(ps[0], q) then [ps[0]] + rest else rest
  }

  /** The filter keeps list order: it distributes over concatenation. */
  lemma {:induction false} FilterAppend(a: seq<Profile>, b: seq<Profile>, q: string)
    ensures Filter(a + b, q) == Filter(a, q) + Filter(b, q)
  {
    if |a| > 0 {
      FilterAppend(a[1..], b, q);
      var head := if Matches(a[0], q) then [a[0]] else [];
      AppendTail(a, b);
      assert Filter(a + b, q) == head + (Filter(a[1..], q) + Filter(b, q));
      assert Filter(a, q) == head + Filter(a[1..], q);
      AppendAssoc(head, Filter(a[1..], q), Filter(b, q));
    } else {
      assert a + b == b;
    }
  }

  /** Filtering twice with the same query filters once. */
  lemma {:induction false} FilterIdempotent(ps: seq<Profile>, q: string)
    ensures Filter(Filter(ps, q), q) == Filter(ps, q)
  {
    if |ps| > 0 {
      FilterIdempotent(ps[1..], q);
    }
  }

  /** The empty query matches every profile. */
  lemma {:induction false} EmptyQueryKeepsAll(ps: seq<Profile>)
    ensures Filter(ps, "") == ps
  {
    if |ps| > 0 {
      assert OccursAt(Lower(ps[0].profileId), "", 0);
      EmptyQueryKeepsAll(ps[1..]);
    }
  }

  /** `handleSearch`: the profiles matching the lower-cased query, and the
      page reset to the first. */
  function Search(ps: seq<Profile>, query: string): (r: (seq<Profile>, nat))
    ensures r.1 == 1
    ensures forall p :: p in r.0 <==> p in ps && Matches(p, Lower(query))
  {
    (Filter(ps, Lower(query)), 1)
  }

  // ---------------------------------------------------------------------
  // Pagination

  const PerPage: nat := 25

  /** `Math.ceil(total / perPage)`. */
  function TotalPages(total: nat, per: nat): (n: nat)
    requires per > 0
    ensures n == 0 <==> total == 0
    ensures n * per >= total
    ensures n > 0 ==> (n - 1) * per < total
  {
    (total + per - 1) / per
  }

  /** The rows of page `page` (counted from 1): `slice(start, start + per)`
      with `start = (page - 1) * per`. */
  function PageSlice<T>(items: seq<T>, page: nat, per: nat): (r: seq<T>)
    requires page >= 1 && per > 0
    ensures |r| <= per
    ensures page <= TotalPages(|items|, per) ==> |r| > 0
    ensures page > TotalPages(|items|, per) ==> r == []
  {
    PageExists(|items|, page, per);
    var start := Min((page - 1) * per, |items|);
    var end := Min((page - 1) * per + per, |items|);
    items[start..end]
  }

  /** Page `page` exists exactly when it starts before the last row. */
  lemma PageExists(total: nat, page: nat, per: nat)
    requires page >= 1 && per > 0
    ensures page <= TotalPages(total, per) <==> (page - 1) * per < total
  {
    var n := TotalPages(total, per);
    if page <= n {
      MulMono(page - 1, n - 1, per);
    } else {
      MulMono(n, page - 1, per);
    }
  }

  lemma MulMono(a: nat, b: nat, c: nat)
    requires a <= b
    ensures a * c <= b * c
  {
  }

  /** Pages `1..k` put together. */
  function Pages<T>(items: seq<T>, per: nat, k: nat): seq<T>
    requires per > 0
  {
    if k == 0 then [] else Pages(items, per, k - 1) + PageSlice(items, k, per)
  }

  lemma {:induction false} PagesPrefix<T>(items: seq<T>, per: nat, k: nat)
    requires per > 0
    ensures Pages(items, per, k) == items[..Min(k * per, |items|)]
  {
    if k > 0 {
      PagesPrefix(items, per, k - 1);
      var start := (k - 1) * per;
      assert 0 <= start && k * per == start + per by {
        MulPred(k, per);
      }
      var a, b := Min(start, |items|), Min(start + per, |items|);
      assert PageSlice(items, k, per) == items[a..b];
      assert items[..a] + items[a..b] == items[..b];
    }
  }

  /** Paging through every page shows each row exactly once, in order. */
  lemma PagesCoverAll<T>(items: seq<T>, per: nat)
    requires per > 0
    ensures Pages(items, per, TotalPages(|items|, per)) == items
  {
    PagesPrefix(items, per, TotalPages(|items|, per));
  }

  /** What `updatePagination` shows. */
  datatype Footer = Footer(showingFrom: nat, showingTo: nat, total: nat, current: nat, prevDisabled: bool, nextDisabled: bool)

  function UpdatePagination(total: nat, page: nat, per: nat): (f: Footer)
    requires page >= 1 && per > 0
    ensures f.total == total && f.current == page
    ensures f.showingTo <= total
    ensures f.prevDisabled <==> page == 1
    ensures f.nextDisabled <==> page >= TotalPages(total, per)
  {
    var from := if total > 0 then (page - 1) * per + 1 else 0;
    var to := Min(page * per, total);
    Footer(from, to, total, page, page == 1, page >= TotalPages(total, per))
  }

  /** On every existing page the footer names exactly the rows shown: rows
      `from` to `to`, counted from 1. */
  lemma FooterMatchesPage<T>(items: seq<T>, page: nat, per: nat)
    requires per > 0 && 1 <= page <= TotalPages(|items|, per)
    ensures var f := UpdatePagination(|items|, page, per);
      1 <= f.showingFrom <= f.showingTo <= |items| && items[f.showingFrom - 1..f.showingTo] == PageSlice(items, page, per)
  {
    var start := (page - 1) * per;
    assert 0 <= start && page * per == start + per by {
      MulPred(page, per);
    }
    assert start < |items| by {
      PageExists(|items|, page, per);
    }
    var f := UpdatePagination(|items|, page, per);
    assert f.showingFrom == start + 1 && f.showingTo == Min(start + per, |items|);
    assert PageSlice(items, page, per) == items[start..Min(start + per, |items|)];
  }

  lemma MulPred(page: nat, per: nat)
    requires page >= 1
    ensures 0 <= (page - 1) * per && page * per == (page - 1) * per + per
  {
  }

  /** The table's list state: the loaded profiles, the ones the search
      kept, and the current page. */
  datatype Board = Board(profiles: seq<Profile>, filtered: seq<Profile>, page: nat)

  /** `handleLoadProfiles` as written: the new list is shown unfiltered but
      the page number is kept from the old list. */
  function LoadAsWritten(b: Board, ps: seq<Profile>): (r: Board)
    ensures r.profiles == ps && r.filtered == ps && r.page == b.page
  {
    Board(ps, ps, b.page)
  }

  /** As written, a page number beyond the new list's last page shows no
      rows, and the footer's first row lies past its last. */
  lemma LoadAsWrittenShowsStalePage(b: Board, ps: seq<Profile>)
    requires b.page > TotalPages(|ps|, PerPage) && |ps| > 0
    ensures var r := LoadAsWritten(b, ps);
      && PageSlice(r.filtered, r.page, PerPage) == []
      && UpdatePagination(|r.filtered|, r.page, PerPage).showingFrom > UpdatePagination(|r.filtered|, r.page, PerPage).showingTo
  {
    var r := LoadAsWritten(b, ps);
    PageExists(|ps|, r.page, PerPage);
  }

  /** Loading as the search does it: back to the first page. */
  function Load(b: Board, ps: seq<Profile>): (r: Board)
    ensures r.profiles == ps && r.filtered == ps && r.page == 1
  {
    Board(ps, ps, 1)
  }

  /** After a corrected load the first rows are shown and the footer names
      exactly them. */
  lemma LoadShowsFirstPage(b: Board, ps: seq<Profile>)
    requires |ps| > 0
    ensures var r := Load(b, ps);
      var f := UpdatePagination(|r.filtered|, r.page, PerPage);
      && PageSlice(r.filtered, r.page, PerPage) == ps[..Min(|ps|, PerPage)]
      && f.showingFrom == 1
      && ps[f.showingFrom - 1..f.showingTo] == PageSlice(r.filtered, r.page, PerPage)
  {
    FooterMatchesPage(ps, 1, PerPage);
  }

  /** `changePage`: move by `delta` only when the target page exists. */
  function ChangePage(page: nat, delta: int, total: nat, per: nat): (r: nat)
    requires per > 0
    ensures r == page || (r == page + delta && 1 <= r <= TotalPages(total, per))
    ensures 1 <= page + delta <= TotalPages(total, per) ==> r == page + delta
  {
    var target := page + delta;
    if 1 <= target <= TotalPages(total, per) then target else page
  }

  /** Stepping forward and then back returns to the page, whenever the
      forward step moved. */
  lemma NextThenPrev(page: nat, total: nat, per: nat)
    requires per > 0 && page >= 1
    requires ChangePage(page, 1, total, per) != page
    ensures ChangePage(ChangePage(page, 1, total, per), -1, total, per) == page
  {
  }

  // ---------------------------------------------------------------------
  // Sorting

  datatype Direction = Asc | Desc

  datatype SortState = SortState(column: Option<string>, direction: Direction)

  function Flip(d: Direction): Direction {
    if d == Asc then Desc else Asc
  }

  /** `handleSort`: the same column flips the direction; another column
      becomes the sort column, ascending. */
  function HandleSort(st: SortState, column: string): (r: SortState)
    ensures r.column == Some(column)
    ensures st.column == Some(column) ==> r.direction != st.direction
    ensures st.column != Some(column) ==> r.direction == Asc
  {
    if st.column == Some(column) then SortState(st.column, Flip(st.direction)) else SortState(Some(column), Asc)
  }

  /** Two clicks on the sorted column restore the state; two clicks on a new
      column leave it sorted descending. */
  lemma SortTwice(st: SortState, column: string)
    ensures st.column == Some(column) ==> HandleSort(HandleSort(st, column), column) == st
    ensures st.column != Some(column) ==> HandleSort(HandleSort(st, column), column) == SortState(Some(column), Desc)
  {
  }

  // ---------------------------------------------------------------------
  // Selection

  /** A row checkbox change. */
  function OnRowCheckbox(selected: set<string>, id: string, checked: bool): (r: set<string>)
    ensures id in r <==> checked
    ensures forall k :: k != id ==> (k in r <==> k in selected)
  {
    Selection.Mark(selected, id, checked)
  }

  /** `handleSelectAll`: every checkbox on the page follows the header box. */
  function HandleSelectAll(selected: set<string>, pageIds: seq<string>, checked: bool): (r: set<string>)
    ensures forall k :: k in pageIds ==> (k in r <==> checked)
    ensures forall k :: k !in pageIds ==> (k in r <==> k in selected)
  {
    Selection.MarkAll(selected, pageIds, checked)
  }

  function CountTrue(bs: seq<bool>): (n: nat)
    ensures n <= |bs|
    ensures n == |bs| <==> forall i :: 0 <= i < |bs| ==> bs[i]
    ensures n == 0 <==> forall i :: 0 <= i < |bs| ==> !bs[i]
  {
    if |bs| == 0 then 0
    else
      assert forall i :: 1 <= i < |bs| ==> bs[i] == bs[1..][i - 1];
      (if bs[0] then 1 else 0) + CountTrue(bs[1..])
  }

  datatype HeaderBox = HeaderBox(checked: bool, indeterminate: bool)

  /** `updateSelectAllState`: checked when there are boxes and all are
      checked, indeterminate when some but not all are. */
  function SelectAllState(boxes: seq<bool>): (h: HeaderBox)
    ensures h.checked <==> |boxes| > 0 && forall i :: 0 <= i < |boxes| ==> boxes[i]
    ensures h.indeterminate <==> (exists i :: 0 <= i < |boxes| && boxes[i]) && (exists i :: 0 <= i < |boxes| && !boxes[i])
    ensures !(h.checked && h.indeterminate)
  {
    var n := CountTrue(boxes);
    HeaderBox(|boxes| > 0 && n == |boxes|, n > 0 && n < |boxes|)
  }

  // ---------------------------------------------------------------------
  // Log lines

  datatype LogClass = Plain | ErrorLine | WarningLine | SuccessLine

  const CrossMark: string := "\U{274C}"
  const WarningSign: string := "\U{26A0}\U{FE0F}"
  const CheckMark: string := "\U{2705}"

  predicate ErrorText(m: string) {
    Contains(m, CrossMark) || Contains(m, "ERROR")
  }

  predicate WarningText(m: string) {
    Contains(m, WarningSign) || Contains(m, "WARNING")
  }

  predicate SuccessText(m: string) {
    Contains(m, CheckMark) || Contains(m, "SUCCESS")
  }

  /** `formatLogEntry`'s class: error before warning before success. */
  function ClassOf(m: string): (c: LogClass)
    ensures c == ErrorLine <==> ErrorText(m)
    ensures c == WarningLine <==> !ErrorText(m) && WarningText(m)
    ensures c == SuccessLine <==> !ErrorText(m) && !WarningText(m) && SuccessText(m)
    ensures c == Plain <==> !ErrorText(m) && !WarningText(m) && !SuccessText(m)
  {
    if ErrorText(m) then ErrorLine
    else if WarningText(m) then WarningLine
    else if SuccessText(m) then SuccessLine
    else Plain
  }

  /** The supervisor's worker-error log line always shows as an error. */
  lemma WorkerErrorLineIsError(message: string)
    ensures ClassOf("❌ Worker error: " + message) == ErrorLine
  {
    assert ("❌ Worker error: " + message)[0..1] == CrossMark;
    assert OccursAt("❌ Worker error: " + message, CrossMark, 0);
  }

  // ---------------------------------------------------------------------
  // Header counters

  /** `updateStats`: the number of running profiles, and the upload counts
      of all profiles, running or not, added up. `UpdateStatsAppend` and
      `UpdateStatsSingle` pin both down. */
  function UpdateStats(views: seq<Supervisor.ProfileView>): (r: (nat, nat))
    ensures r.0 <= |views|
    ensures r.0 == 0 <==> forall i :: 0 <= i < |views| ==> views[i].status != Supervisor.Running
  {
    if |views| == 0 then (0, 0)
    else
      var rest := UpdateStats(views[1..]);
      assert forall i :: 1 <= i < |views| ==> views[i] == views[1..][i - 1];
      ((if views[0].status == Supervisor.Running then 1 else 0) + rest.0, views[0].stats.totalVideos + rest.1)
  }

  /** The counters add up over any split of the profile list. */
  lemma {:induction false} UpdateStatsAppend(a: seq<Supervisor.ProfileView>, b: seq<Supervisor.ProfileView>)
    ensures UpdateStats(a + b).0 == UpdateStats(a).0 + UpdateStats(b).0
    ensures UpdateStats(a + b).1 == UpdateStats(a).1 + UpdateStats(b).1
  {
    if |a| > 0 {
      UpdateStatsAppend(a[1..], b);
      assert (a + b)[0] == a[0];
      assert (a + b)[1..] == a[1..] + b;
    } else {
      assert a + b == b;
    }
  }

  /** One profile counts as running exactly when it is, and contributes its
      own upload count. */
  lemma UpdateStatsSingle(v: Supervisor.ProfileView)
    ensures UpdateStats([v]) == (if v.status == Supervisor.Running then 1 else 0, v.stats.totalVideos)
  {
  }

  /** The running count reaches the list length exactly when every profile
      runs, and the upload total bounds every profile's count and is zero
      exactly when every count is. */
  lemma {:induction false} UpdateStatsBounds(views: seq<Supervisor.ProfileView>)
    ensures UpdateStats(views).0 == |views| <==> forall i :: 0 <= i < |views| ==> views[i].status == Supervisor.Running
    ensures forall i :: 0 <= i < |views| ==> views[i].stats.totalVideos <= UpdateStats(views).1
    ensures UpdateStats(views).1 == 0 <==> forall i :: 0 <= i < |views| ==> views[i].stats.totalVideos == 0
  {
    if |views| > 0 {
      UpdateStatsBounds(views[1..]);
      assert forall i :: 1 <= i < |views| ==> views[i] == views[1..][i - 1];
    }
  }

  /** Before any worker is started, the header shows nothing running and no
      uploads. */
  lemma NoRecordsNoCounts(s: Supervisor.State)
    requires s.workers == []
    ensures UpdateStats(Supervisor.GetProfiles(s)) == (0, 0)
  {
    NoRecordsNoCountsFrom(Supervisor.GetProfiles(s));
  }

  lemma {:induction false} NoRecordsNoCountsFrom(views: seq<Supervisor.ProfileView>)
    requires forall i :: 0 <= i < |views| ==> views[i].status == Supervisor.Stopped && views[i].stats == Supervisor.NoStats
    ensures UpdateStats(views) == (0, 0)
  {
    if |views| > 0 {
      NoRecordsNoCountsFrom(views[1..]);
    }
  }
}
