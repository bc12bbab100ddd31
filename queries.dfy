/**
 * The read-only views of issues/views.py as functions over the store's rows:
 * `complaint_list`, `my_complaints`, `search`, `unread_count_api`,
 * `dashboard` and `admin_complaints`. Rows are kept in creation order, so
 * `order_by("-created_at")` is the reversed sequence.
 */
module Queries {
  import opened Models
  import opened Text
  import opened Access

  /** `Paginator(complaints, 10)` in `complaint_list`. */
  const PublicPageSize: nat := 10
  /** `Paginator(qs, 20)` in `admin_complaints`. */
  const StaffPageSize: nat := 20
  /** `[:5]` on the dashboard's recent list. */
  const RecentLimit: nat := 5

  predicate InCreationOrder(s: seq<Complaint>) {
    forall i, j :: 0 <= i < j < |s| ==> s[i].createdAt < s[j].createdAt
  }

  predicate InNewestFirstOrder(s: seq<Complaint>) {
    forall i, j :: 0 <= i < j < |s| ==> s[i].createdAt > s[j].createdAt
  }

  // ---------------------------------------------------------------- query building blocks

  /** `qs.filter(p)`: the rows satisfying `p`, in their original relative order. */
  function Where(s: seq<Complaint>, p: Complaint -> bool): (r: seq<Complaint>)
    ensures |r| <= |s|
    ensures forall c :: c in r <==> c in s && p(c)
  {
    if s == [] then []
    else
      var rest := Where(s[1..], p);
      if p(s[0]) then [s[0]] + rest else rest
  }

  /** Filtering keeps the order of what remains, in either direction. */
  lemma {:induction false} WhereKeepsOrder(s: seq<Complaint>, p: Complaint -> bool)
    ensures InCreationOrder(s) ==> InCreationOrder(Where(s, p))
    ensures InNewestFirstOrder(s) ==> InNewestFirstOrder(Where(s, p))
  {
    if s != [] {
      WhereKeepsOrder(s[1..], p);
      var rest := Where(s[1..], p);
      if p(s[0]) {
        var r := [s[0]] + rest;
        assert Where(s, p) == r;
        HeadBeforeTail(s);
        forall i, j | 0 <= i < j < |r|
          ensures InCreationOrder(s) ==> r[i].createdAt < r[j].createdAt
          ensures InNewestFirstOrder(s) ==> r[i].createdAt > r[j].createdAt
        {
          if i == 0 {
            assert r[j] == rest[j - 1] && rest[j - 1] in rest;
          } else {
            assert r[i] == rest[i - 1] && r[j] == rest[j - 1];
          }
        }
      }
    }
  }

  /** In an ordered sequence the head lies strictly before, or after, everything else. */
  lemma HeadBeforeTail(s: seq<Complaint>)
    requires s != []
    ensures InCreationOrder(s) ==> forall c :: c in s[1..] ==> s[0].createdAt < c.createdAt
    ensures InNewestFirstOrder(s) ==> forall c :: c in s[1..] ==> s[0].createdAt > c.createdAt
  {
  }

  /** `order_by("-created_at")` over rows held in creation order. */
  function NewestFirst(s: seq<Complaint>): (r: seq<Complaint>)
    ensures |r| == |s|
    ensures forall k :: 0 <= k < |s| ==> r[k] == s[|s| - 1 - k]
    ensures forall c :: c in r <==> c in s
    ensures InCreationOrder(s) ==> InNewestFirstOrder(r)
  {
    if s == [] then [] else NewestFirst(s[1..]) + [s[0]]
  }

  /** Page `index` (counted from 0) of `s` cut into pages of `size`. */
  function PageOf(s: seq<Complaint>, size: nat, index: nat): (r: seq<Complaint>)
    requires size > 0
    ensures |r| <= size
    ensures forall k :: 0 <= k < |r| ==> index * size + k < |s| && r[k] == s[index * size + k]
    ensures |r| < size ==> index * size + |r| >= |s|
  {
    var start := index * size;
    if start >= |s| then [] else s[start..if start + size <= |s| then start + size else |s|]
  }

  /** Every element of `s` sits on exactly the page its position says, so paging loses nothing. */
  lemma PageCovers(s: seq<Complaint>, size: nat, j: nat)
    requires size > 0 && j < |s|
    ensures j % size < |PageOf(s, size, j / size)|
    ensures PageOf(s, size, j / size)[j % size] == s[j]
  {
    var page := PageOf(s, size, j / size);
    assert (j / size) * size + j % size == j;
  }

  /**
   * Over rows held in creation order (so no row occurs twice), a filtered
   * queryset's `count()` is the number of distinct rows that qualify.
   */
  lemma {:induction false} WhereCountIsSetSize(s: seq<Complaint>, p: Complaint -> bool)
    ensures InCreationOrder(s) ==> |Where(s, p)| == |set c | c in s && p(c)|
  {
    if s != [] && InCreationOrder(s) {
      assert InCreationOrder(s[1..]);
      WhereCountIsSetSize(s[1..], p);
      assert s[0] !in s[1..] by { HeadBeforeTail(s); }
      QualifyingHeadAndTail(s, p);
    }
  }

  /** The qualifying rows of `s` are those of its tail, plus its head when that qualifies too. */
  lemma QualifyingHeadAndTail(s: seq<Complaint>, p: Complaint -> bool)
    requires s != [] && s[0] !in s[1..]
    ensures |set c | c in s && p(c)| == |set c | c in s[1..] && p(c)| + if p(s[0]) then 1 else 0
  {
    var rest := set c | c in s[1..] && p(c);
    var all := set c | c in s && p(c);
    assert forall c :: c in s <==> c == s[0] || c in s[1..];
    if p(s[0]) {
      assert all == rest + {s[0]};
    } else {
      assert all == rest;
    }
  }

  lemma {:induction false} WhereCountMono(s: seq<Complaint>, p: Complaint -> bool, q: Complaint -> bool)
    requires forall c :: p(c) ==> q(c)
    ensures |Where(s, p)| <= |Where(s, q)|
  {
    if s != [] {
      WhereCountMono(s[1..], p, q);
    }
  }

  /** Counting over a disjoint split of a predicate adds up. */
  lemma {:induction false} WhereCountSplit(s: seq<Complaint>, p: Complaint -> bool, q: Complaint -> bool, r: Complaint -> bool)
    requires forall c :: p(c) <==> q(c) || r(c)
    requires forall c :: !(q(c) && r(c))
    ensures |Where(s, p)| == |Where(s, q)| + |Where(s, r)|
  {
    if s != [] {
      WhereCountSplit(s[1..], p, q, r);
    }
  }

  lemma {:induction false} WhereAppend(s: seq<Complaint>, x: Complaint, p: Complaint -> bool)
    ensures Where(s + [x], p) == Where(s, p) + (if p(x) then [x] else [])
  {
    if s != [] {
      assert (s + [x])[1..] == s[1..] + [x];
      WhereAppend(s[1..], x, p);
    }
  }

  /** Replacing one row changes a count by what the old and the new row contribute. */
  lemma {:induction false} WhereCountUpdate(s: seq<Complaint>, i: nat, x: Complaint, p: Complaint -> bool)
    requires i < |s|
    ensures |Where(s[i := x], p)| + (if p(s[i]) then 1 else 0)
         == |Where(s, p)| + (if p(x) then 1 else 0)
  {
    if i == 0 {
      assert s[i := x][1..] == s[1..];
    } else {
      assert s[i := x][1..] == s[1..][i - 1 := x];
      WhereCountUpdate(s[1..], i - 1, x, p);
    }
  }

  // ---------------------------------------------------------------- filters

  function ReportedBy(who: Identity): Complaint -> bool {
    c => IsReporter(who, c)
  }

  function UnreadFor(who: Identity): Complaint -> bool {
    c => IsReporter(who, c) && !c.isReadByReporter
  }

  function OpenBy(who: Identity): Complaint -> bool {
    c => IsReporter(who, c) && c.status == Open.Code()
  }

  function HighBy(who: Identity): Complaint -> bool {
    c => IsReporter(who, c) && c.priority == High.Code()
  }

  function NotResolved(): Complaint -> bool {
    (c: Complaint) => c.status != Resolved.Code()
  }

  function IsResolved(): Complaint -> bool {
    (c: Complaint) => c.status == Resolved.Code()
  }

  // ---------------------------------------------------------------- views

  /** `complaint_list`: page `page` (from 0) of all complaints, newest first, 10 per page, no ownership filter. */
  function ComplaintList(rows: seq<Complaint>, page: nat): (r: seq<Complaint>)
    ensures |r| <= PublicPageSize
    ensures forall k :: 0 <= k < |r| ==>
      page * PublicPageSize + k < |rows| && r[k] == rows[|rows| - 1 - (page * PublicPageSize + k)]
    ensures |r| < PublicPageSize ==> page * PublicPageSize + |r| >= |rows|
    ensures InCreationOrder(rows) ==> InNewestFirstOrder(r)
  {
    PageOf(NewestFirst(rows), PublicPageSize, page)
  }

  /** `my_complaints`: exactly the caller's complaints, newest first. */
  function MyComplaints(rows: seq<Complaint>, who: Identity): (r: seq<Complaint>)
    ensures |r| <= |rows|
    ensures forall c :: c in r <==> c in rows && IsReporter(who, c)
    ensures InCreationOrder(rows) ==> InNewestFirstOrder(r)
    ensures InCreationOrder(rows) ==> |r| == |set c | c in rows && IsReporter(who, c)|
  {
    WhereKeepsOrder(rows, ReportedBy(who));
    WhereCountIsSetSize(rows, ReportedBy(who));
    assert (set c | c in rows && ReportedBy(who)(c)) == (set c | c in rows && IsReporter(who, c));
    NewestFirst(Where(rows, ReportedBy(who)))
  }

  /** `title__icontains | description__icontains | category__icontains`. */
  predicate SearchHit(c: Complaint, q: string) {
    IContains(c.title, q) || IContains(c.description, q) || IContains(c.category, q)
  }

  /**
   * `search`: a query that is blank once stripped finds nothing; otherwise the
   * complaints whose title, description or category contain it, ignoring case,
   * newest first.
   */
  function Search(rows: seq<Complaint>, query: string): (r: seq<Complaint>)
    ensures AllSpace(query) ==> r == []
    ensures !AllSpace(query) ==> forall c :: c in r <==> c in rows && SearchHit(c, Strip(query))
    ensures InCreationOrder(rows) ==> InNewestFirstOrder(r)
  {
    var q := Strip(query);
    if q == "" then []
    else
      var hits := c => SearchHit(c, q);
      WhereKeepsOrder(rows, hits);
      NewestFirst(Where(rows, hits))
  }

  /** `unread_count_api`: how many of the caller's complaints they have not seen since a staff update. */
  function UnreadCount(rows: seq<Complaint>, who: Identity): (n: nat)
    ensures n <= |MyComplaints(rows, who)|
    ensures n == 0 <==> forall c :: c in rows && IsReporter(who, c) ==> c.isReadByReporter
    ensures InCreationOrder(rows) ==> n == |set c | c in rows && IsReporter(who, c) && !c.isReadByReporter|
  {
    WhereCountMono(rows, UnreadFor(who), ReportedBy(who));
    WhereCountIsSetSize(rows, UnreadFor(who));
    assert (set c | c in rows && UnreadFor(who)(c)) == (set c | c in rows && IsReporter(who, c) && !c.isReadByReporter);
    var unread := Where(rows, UnreadFor(who));
    assert unread != [] ==> unread[0] in unread;
    |unread|
  }

  /** `filter(reporter=user, status='open')`. */
  function OpenComplaints(rows: seq<Complaint>, who: Identity): (r: seq<Complaint>)
    ensures forall c :: c in r <==> c in rows && IsReporter(who, c) && c.status == Open.Code()
    ensures InCreationOrder(rows) ==> |r| == |set c | c in rows && IsReporter(who, c) && c.status == Open.Code()|
  {
    WhereCountIsSetSize(rows, OpenBy(who));
    assert (set c | c in rows && OpenBy(who)(c)) == (set c | c in rows && IsReporter(who, c) && c.status == Open.Code());
    Where(rows, OpenBy(who))
  }

  /** `filter(reporter=user, priority='high').exclude(status='resolved')`. */
  function HighPending(rows: seq<Complaint>, who: Identity): (r: seq<Complaint>)
    ensures forall c :: c in r <==>
      c in rows && IsReporter(who, c) && c.priority == High.Code() && c.status != Resolved.Code()
    ensures InCreationOrder(rows) ==>
      |r| == |set c | c in rows && IsReporter(who, c) && c.priority == High.Code() && c.status != Resolved.Code()|
  {
    var high := Where(rows, HighBy(who));
    WhereKeepsOrder(rows, HighBy(who));
    WhereCountIsSetSize(high, NotResolved());
    assert (set c | c in high && NotResolved()(c)) == (set c |
      c in rows && IsReporter(who, c) && c.priority == High.Code() && c.status != Resolved.Code());
    Where(high, NotResolved())
  }

  datatype Summary = Summary(myCount: nat, openCount: nat, highPending: nat, unread: nat, recent: seq<Complaint>)

  /** `dashboard`: the caller's counters and their five most recent complaints. */
  function Dashboard(rows: seq<Complaint>, who: Identity): (d: Summary)
    ensures d.myCount == |MyComplaints(rows, who)|
    ensures d.openCount == |OpenComplaints(rows, who)|
    ensures d.highPending == |HighPending(rows, who)|
    ensures d.unread == UnreadCount(rows, who)
    ensures d.openCount <= d.myCount && d.highPending <= d.myCount && d.unread <= d.myCount
    ensures |d.recent| == if d.myCount < RecentLimit then d.myCount else RecentLimit
    ensures d.recent == MyComplaints(rows, who)[..|d.recent|]
  {
    var mine := Where(rows, ReportedBy(who));
    WhereCountMono(rows, OpenBy(who), ReportedBy(who));
    WhereCountMono(rows, HighBy(who), ReportedBy(who));
    var recent := PageOf(NewestFirst(mine), RecentLimit, 0);
    assert recent == NewestFirst(mine)[..|recent|];
    Summary(
      myCount := |mine|,
      openCount := |OpenComplaints(rows, who)|,
      highPending := |HighPending(rows, who)|,
      unread := UnreadCount(rows, who),
      recent := recent)
  }

  /**
   * Only `resolved` is excluded from `high_pending`: every high-priority complaint
   * of the caller is either pending or resolved, so a `closed` one still counts.
   */
  lemma HighPendingCountsClosed(rows: seq<Complaint>, who: Identity)
    ensures Dashboard(rows, who).highPending + |Where(Where(rows, HighBy(who)), IsResolved())|
         == |Where(rows, HighBy(who))|
  {
    var high := Where(rows, HighBy(who));
    WhereCountSplit(high, c => true, NotResolved(), IsResolved());
    assert Where(high, c => true) == high by { WhereAll(high); }
  }

  lemma {:induction false} WhereAll(s: seq<Complaint>)
    ensures Where(s, c => true) == s
  {
    if s != [] {
      WhereAll(s[1..]);
    }
  }

  // ---------------------------------------------------------------- staff list

  /** The query string of `admin_complaints`; an absent parameter is `None`. */
  datatype StaffFilters = StaffFilters(q: Option<string>, status: Option<string>, priority: Option<string>)

  /** Python's `if value:` on a query parameter: present and not empty. */
  predicate Given(o: Option<string>) {
    o.Some? && o.value != ""
  }

  /** `title__icontains | description__icontains | reporter__username__icontains`. */
  predicate StaffHit(c: Complaint, q: string) {
    IContains(c.title, q) || IContains(c.description, q) || IContains(c.reporter.username, q)
  }

  /** The supplied filters, ANDed; the text filter is itself an OR over three fields. */
  predicate SatisfiesFilters(c: Complaint, f: StaffFilters) {
    && (Given(f.q) ==> StaffHit(c, f.q.value))
    && (Given(f.status) ==> c.status == f.status.value)
    && (Given(f.priority) ==> c.priority == f.priority.value)
  }

  /** The queryset `admin_complaints` builds by narrowing `qs` once per supplied filter. */
  function StaffQuery(rows: seq<Complaint>, f: StaffFilters): (r: seq<Complaint>)
    ensures forall c :: c in r <==> c in rows && SatisfiesFilters(c, f)
    ensures InCreationOrder(rows) ==> InNewestFirstOrder(r)
  {
    var byText := c => StaffHit(c, f.q.GetOr(""));
    var byStatus := (c: Complaint) => c.status == f.status.GetOr("");
    var byPriority := (c: Complaint) => c.priority == f.priority.GetOr("");
    var qs := NewestFirst(rows);
    WhereKeepsOrder(qs, byText);
    var qs := if Given(f.q) then Where(qs, byText) else qs;
    WhereKeepsOrder(qs, byStatus);
    var qs := if Given(f.status) then Where(qs, byStatus) else qs;
    WhereKeepsOrder(qs, byPriority);
    if Given(f.priority) then Where(qs, byPriority) else qs
  }

  /** `admin_complaints`: staff only; page `page` (from 0) of the filtered list, 20 per page. */
  function AdminComplaints(rows: seq<Complaint>, who: Identity, f: StaffFilters, page: nat): (r: Result<seq<Complaint>>)
    ensures r.Err? <==> !IsStaff(who)
    ensures r.Err? ==> r.error == PermissionDenied
    ensures r.Ok? ==> |r.value| <= StaffPageSize
    ensures r.Ok? ==> forall k :: 0 <= k < |r.value| ==>
      page * StaffPageSize + k < |StaffQuery(rows, f)| && r.value[k] == StaffQuery(rows, f)[page * StaffPageSize + k]
    ensures r.Ok? && |r.value| < StaffPageSize ==> page * StaffPageSize + |r.value| >= |StaffQuery(rows, f)|
    ensures r.Ok? ==> forall c :: c in r.value ==> c in rows && SatisfiesFilters(c, f)
    ensures r.Ok? && InCreationOrder(rows) ==> InNewestFirstOrder(r.value)
  {
    if !IsStaff(who) then Err(PermissionDenied)
    else
      var all := StaffQuery(rows, f);
      var slice := PageOf(all, StaffPageSize, page);
      assert forall c :: c in slice ==> c in all;
      Ok(slice)
  }

  /** Every stored complaint that satisfies the filters is on some page of the staff list. */
  lemma AdminComplaintsComplete(rows: seq<Complaint>, who: Identity, f: StaffFilters, c: Complaint)
    requires IsStaff(who)
    requires c in rows && SatisfiesFilters(c, f)
    ensures exists page: nat :: c in AdminComplaints(rows, who, f, page).value
  {
    var all := StaffQuery(rows, f);
    var j :| 0 <= j < |all| && all[j] == c;
    PageCovers(all, StaffPageSize, j);
    assert c in AdminComplaints(rows, who, f, j / StaffPageSize).value;
  }
}
