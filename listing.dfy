/**
 * `log_list`: the filtered, newest-first, paginated list of maintenance logs.
 * The query is pure: it reads the tables and writes nothing.
 */
module Listing {
  import opened Wrappers
  import opened Text
  import opened Models

  /** The columns of `auth.User` the search reads. */
  datatype User = User(username: string, firstName: string, lastName: string)

  /** The rows the query reads; every log key is below `nextLogId`. */
  datatype Tables = Tables(
    equipment: map<EquipmentId, Equipment>,
    logs: map<LogId, MaintenanceLog>,
    steps: map<StepId, Step>,
    users: map<UserId, User>,
    nextLogId: LogId)
  {
    ghost predicate KeysBounded() {
      forall l :: l in logs ==> l < nextLogId
    }
  }

  /**
   * The GET parameters, as submitted: a missing text parameter is the empty
   * string, and `page` is `None` when it is not an integer (a missing `page`
   * is `Some(1)`).
   */
  datatype ListQuery = ListQuery(q: string, zone: string, difficulty: string, myLogs: string, page: Option<int>)

  // ---------- The filters ----------

  /** Some step of log `id` has the term in its action or result. */
  predicate StepMatches(steps: map<StepId, Step>, id: LogId, term: string) {
    exists s :: s in steps && steps[s].log == id && (IContains(steps[s].action, term) || IContains(steps[s].result, term))
  }

  /** The linked equipment has the term in its name or (non-null) asset tag. */
  predicate EquipmentMatches(equipment: map<EquipmentId, Equipment>, ref: Option<EquipmentId>, term: string) {
    && ref.Some? && ref.value in equipment
    && (|| IContains(equipment[ref.value].name, term)
        || (equipment[ref.value].assetTag.Some? && IContains(equipment[ref.value].assetTag.value, term)))
  }

  /** The author has the term in their user name, first name or last name. */
  predicate AuthorMatches(users: map<UserId, User>, author: Option<UserId>, term: string) {
    && author.Some? && author.value in users
    && (|| IContains(users[author.value].username, term)
        || IContains(users[author.value].firstName, term)
        || IContains(users[author.value].lastName, term))
  }

  /** The `Q(...) | Q(...)` search: a case-insensitive substring of any of ten columns. */
  predicate SearchMatches(t: Tables, id: LogId, term: string)
    requires id in t.logs
  {
    var log := t.logs[id];
    || IContains(log.alarmCode, term)
    || IContains(log.alarmName, term)
    || IContains(log.description, term)
    || StepMatches(t.steps, id, term)
    || EquipmentMatches(t.equipment, log.equipment, term)
    || AuthorMatches(t.users, log.createdBy, term)
  }

  /** Every filter the stripped parameters switch on: search, zone (`iexact`), difficulty (exact), own logs. */
  predicate Matches(t: Tables, query: ListQuery, viewer: Option<UserId>, id: LogId)
    requires id in t.logs
  {
    var q, zone, diff, mine := Strip(query.q), Strip(query.zone), Strip(query.difficulty), Strip(query.myLogs);
    var log := t.logs[id];
    && (q != "" ==> SearchMatches(t, id, q))
    && (zone != "" ==> Lower(log.zone) == Lower(zone))
    && (diff != "" ==> DifficultyValue(log.difficulty) == diff)
    && (mine == "true" && viewer.Some? ==> log.createdBy == viewer)
  }

  // ---------- Building the list ----------

  predicate Distinct(s: seq<LogId>) {
    forall i, j :: 0 <= i < j < |s| ==> s[i] != s[j]
  }

  /** The log ids below `n`, ascending. */
  function IdsBelow(logs: map<LogId, MaintenanceLog>, n: nat): (r: seq<LogId>)
    ensures forall id :: id in r <==> id in logs && id < n
    ensures forall i :: 0 <= i < |r| ==> r[i] < n
    ensures Distinct(r)
  {
    if n == 0 then []
    else
      var init := IdsBelow(logs, n - 1);
      if n - 1 in logs then init + [n - 1] else init
  }

  /** The ids of `ids` whose logs pass the filters, in order. */
  function Filtered(t: Tables, query: ListQuery, viewer: Option<UserId>, ids: seq<LogId>): (r: seq<LogId>)
    requires forall i :: 0 <= i < |ids| ==> ids[i] in t.logs
    ensures forall id :: id in r <==> id in ids && Matches(t, query, viewer, id)
    ensures Distinct(ids) ==> Distinct(r)
  {
    if ids == [] then []
    else
      var rest := Filtered(t, query, viewer, ids[1..]);
      assert forall id :: id in ids[1..] ==> id in ids;
      if Matches(t, query, viewer, ids[0]) then [ids[0]] + rest else rest
  }

  /** `order_by("-created_at")`: creation times never increase along the list. */
  ghost predicate NewestFirst(logs: map<LogId, MaintenanceLog>, s: seq<LogId>) {
    && (forall i :: 0 <= i < |s| ==> s[i] in logs)
    && (forall i, j :: 0 <= i < j < |s| ==> logs[s[i]].createdAt >= logs[s[j]].createdAt)
  }

  /** Places `id` before the first entry created earlier than it. */
  function InsertByAge(logs: map<LogId, MaintenanceLog>, id: LogId, s: seq<LogId>): (r: seq<LogId>)
    requires id in logs && forall i :: 0 <= i < |s| ==> s[i] in logs
    ensures multiset(r) == multiset(s) + multiset{id}
    ensures forall x :: x in r <==> x in s || x == id
    ensures forall i :: 0 <= i < |r| ==> r[i] in logs
  {
    if s == [] then [id]
    else if logs[id].createdAt >= logs[s[0]].createdAt then [id] + s
    else
      assert s == [s[0]] + s[1..];
      [s[0]] + InsertByAge(logs, id, s[1..])
  }

  /** An entry created no earlier than every entry of a newest-first list can go in front of it. */
  lemma PrependNewestFirst(logs: map<LogId, MaintenanceLog>, x: LogId, s: seq<LogId>)
    requires x in logs && NewestFirst(logs, s)
    requires forall j :: 0 <= j < |s| ==> logs[x].createdAt >= logs[s[j]].createdAt
    ensures NewestFirst(logs, [x] + s)
  {
    var r := [x] + s;
    forall i, j | 0 <= i < j < |r| ensures logs[r[i]].createdAt >= logs[r[j]].createdAt {
      assert r[j] == s[j - 1];
    }
  }

  lemma {:induction false} InsertByAgeNewestFirst(logs: map<LogId, MaintenanceLog>, id: LogId, s: seq<LogId>)
    requires id in logs && NewestFirst(logs, s)
    ensures NewestFirst(logs, InsertByAge(logs, id, s))
  {
    if s == [] {
    } else if logs[id].createdAt >= logs[s[0]].createdAt {
      PrependNewestFirst(logs, id, s);
    } else {
      var rest := InsertByAge(logs, id, s[1..]);
      InsertByAgeNewestFirst(logs, id, s[1..]);
      forall j | 0 <= j < |rest| ensures logs[s[0]].createdAt >= logs[rest[j]].createdAt {
        if rest[j] != id {
          assert rest[j] in s[1..];
          var k :| 0 <= k < |s[1..]| && s[1..][k] == rest[j];
          assert s[k + 1] == rest[j];
        }
      }
      PrependNewestFirst(logs, s[0], rest);
    }
  }

  /** Insertion sort on creation time, newest first. */
  function SortByAge(logs: map<LogId, MaintenanceLog>, s: seq<LogId>): (r: seq<LogId>)
    requires forall i :: 0 <= i < |s| ==> s[i] in logs
    ensures multiset(r) == multiset(s)
    ensures forall i :: 0 <= i < |r| ==> r[i] in logs
  {
    if s == [] then []
    else
      assert s == [s[0]] + s[1..];
      InsertByAge(logs, s[0], SortByAge(logs, s[1..]))
  }

  lemma {:induction false} SortByAgeNewestFirst(logs: map<LogId, MaintenanceLog>, s: seq<LogId>)
    requires forall i :: 0 <= i < |s| ==> s[i] in logs
    ensures NewestFirst(logs, SortByAge(logs, s))
  {
    if s != [] {
      var rest := SortByAge(logs, s[1..]);
      SortByAgeNewestFirst(logs, s[1..]);
      InsertByAgeNewestFirst(logs, s[0], rest);
    }
  }

  /** No entry repeats exactly when every entry occurs at most once. */
  lemma {:induction false} DistinctCounts(s: seq<LogId>)
    ensures Distinct(s) <==> forall x :: multiset(s)[x] <= 1
  {
    if s != [] {
      var rest := s[1..];
      assert s == [s[0]] + rest;
      DistinctCounts(rest);
      if Distinct(s) {
        assert Distinct(rest) by {
          forall i, j | 0 <= i < j < |rest| ensures rest[i] != rest[j] {
            assert s[i + 1] != s[j + 1];
          }
        }
        assert s[0] !in rest by {
          forall k | 0 <= k < |rest| ensures rest[k] != s[0] {
            assert s[k + 1] != s[0];
          }
        }
      }
      if forall x :: multiset(s)[x] <= 1 {
        assert forall x :: multiset(rest)[x] <= multiset(s)[x];
        assert multiset(rest)[s[0]] == 0;
        forall i, j | 0 <= i < j < |s| ensures s[i] != s[j] {
          if i == 0 {
            assert s[j] == rest[j - 1];
          } else {
            assert s[i] == rest[i - 1] && s[j] == rest[j - 1];
          }
        }
      }
    }
  }

  /** The query set before pagination. */
  function LogList(t: Tables, query: ListQuery, viewer: Option<UserId>): (r: seq<LogId>)
  {
    var ids := IdsBelow(t.logs, t.nextLogId);
    SortByAge(t.logs, Filtered(t, query, viewer, ids))
  }

  /**
   * The list holds each matching log exactly once, and no other log, newest
   * first: the `.distinct()` after the search join keeps a log whose steps
   * match twice from appearing twice.
   */
  lemma LogListCorrect(t: Tables, query: ListQuery, viewer: Option<UserId>)
    requires t.KeysBounded()
    ensures var r := LogList(t, query, viewer);
      && Distinct(r)
      && NewestFirst(t.logs, r)
      && forall id :: id in r <==> id in t.logs && Matches(t, query, viewer, id)
  {
    var ids := IdsBelow(t.logs, t.nextLogId);
    var f := Filtered(t, query, viewer, ids);
    var r := LogList(t, query, viewer);
    SortByAgeNewestFirst(t.logs, f);
    DistinctCounts(f);
    DistinctCounts(r);
    forall id ensures id in r <==> id in f {
      assert id in r <==> id in multiset(r);
    }
  }

  /** A log whose only match is in one or more step results is listed, once. */
  lemma StepResultMatchListedOnce(t: Tables, query: ListQuery, viewer: Option<UserId>, id: LogId, s: StepId)
    requires t.KeysBounded() && id in t.logs
    requires Strip(query.q) != "" && Strip(query.zone) == "" && Strip(query.difficulty) == "" && Strip(query.myLogs) == ""
    requires s in t.steps && t.steps[s].log == id && IContains(t.steps[s].result, Strip(query.q))
    ensures multiset(LogList(t, query, viewer))[id] == 1
  {
    var r := LogList(t, query, viewer);
    LogListCorrect(t, query, viewer);
    assert StepMatches(t.steps, id, Strip(query.q));
    assert Matches(t, query, viewer, id);
    assert id in r;
    DistinctCounts(r);
  }

  // ---------- Pagination ----------

  const PAGE_SIZE: nat := 10

  /** `Paginator.num_pages` with an allowed empty first page. */
  function NumPages(count: nat): (n: nat)
    ensures n >= 1
    ensures count == 0 ==> n == 1
    ensures count > 0 ==> (n - 1) * PAGE_SIZE < count
    ensures count <= n * PAGE_SIZE
  {
    if count == 0 then 1 else (count + PAGE_SIZE - 1) / PAGE_SIZE
  }

  /** `Paginator.get_page`: a non-integer gives page 1; a page out of range gives the last page. */
  function PageNumber(page: Option<int>, count: nat): (p: nat)
    ensures 1 <= p <= NumPages(count)
    ensures page.Some? && 1 <= page.value <= NumPages(count) ==> p == page.value
    ensures page.None? ==> p == 1
    ensures page.Some? && !(1 <= page.value <= NumPages(count)) ==> p == NumPages(count)
  {
    match page
    case None => 1
    case Some(n) => if 1 <= n <= NumPages(count) then n else NumPages(count)
  }

  /** The entries on the requested page. */
  function Page(list: seq<LogId>, page: Option<int>): (r: seq<LogId>)
    ensures |r| <= PAGE_SIZE
    ensures forall x :: x in r ==> x in list
    ensures list != [] ==> r != []
  {
    var p := PageNumber(page, |list|);
    var bottom := (p - 1) * PAGE_SIZE;
    var top := if bottom + PAGE_SIZE <= |list| then bottom + PAGE_SIZE else |list|;
    list[bottom..top]
  }

  /** Entry `i` of the list is entry `i % 10` of page `i / 10 + 1`: pages cut the list without gaps or overlaps. */
  lemma PageHolds(list: seq<LogId>, i: nat)
    requires i < |list|
    ensures var r := Page(list, Some(i / PAGE_SIZE + 1));
      i % PAGE_SIZE < |r| && r[i % PAGE_SIZE] == list[i]
  {
    var p := i / PAGE_SIZE + 1;
    assert (p - 1) * PAGE_SIZE <= i;
    assert p <= NumPages(|list|);
  }
}
