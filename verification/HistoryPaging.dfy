/** Keyset paging over the history table: pages, the export loop over all of them, and the list behind the
    history table. A table is its rows in id order; new rows get larger ids. */
module HistoryPaging {
  import opened HistoryQuery
  import opened HistoryFilters
  import opened UrlPath
  import opened Lists

  ghost predicate Ascending(rows: seq<Row>) {
    && (forall i :: 0 <= i < |rows| ==> rows[i].id >= 1)
    && (forall i, j :: 0 <= i < j < |rows| ==> rows[i].id < rows[j].id)
  }

  predicate Below(r: Row, before: nat) { before > 0 ==> r.id < before }

  /** WHERE … ORDER BY id DESC, without the limit. */
  ghost function Select(rows: seq<Row>, before: nat, f: Filter): seq<Row>
    decreases |rows|
  {
    if rows == [] then []
    else
      var r := rows[|rows| - 1];
      (if Below(r, before) && Meets(r, f) then [r] else []) + Select(rows[..|rows| - 1], before, f)
  }

  ghost function Page(rows: seq<Row>, before: nat, f: Filter): seq<Row> {
    var all := Select(rows, before, f);
    if |all| > PAGE_SIZE then all[..PAGE_SIZE] else all
  }

  /** TransactionsPage: build the conditions, then go down the table until the page is full. */
  method TransactionsPage(rows: seq<Row>, beforeID: nat, f: Filter) returns (page: seq<Row>)
    ensures page == Page(rows, beforeID, f)
    ensures |page| <= 100 && page <= Select(rows, beforeID, f) && (|page| < 100 ==> page == Select(rows, beforeID, f))
  {
    hide Meets, Clause, AllHold, Select, Below;
    var conditions := BuildConditions(beforeID, f);
    page := [];
    var n := |rows|;
    assert rows[..n] == rows;
    while n > 0 && |page| < PAGE_SIZE
      invariant n <= |rows| && |page| <= PAGE_SIZE
      invariant page + Select(rows[..n], beforeID, f) == Select(rows, beforeID, f)
    {
      n := n - 1;
      var r := rows[n];
      SelectTop(rows, n, beforeID, f);
      var ok := Selected(r, conditions);
      if ok {
        Regroup(page, [r], Select(rows[..n], beforeID, f));
        page := page + [r];
      }
    }
    SelectNone(beforeID, f);
  }

  lemma SelectTop(rows: seq<Row>, n: nat, before: nat, f: Filter)
    requires n < |rows|
    ensures Select(rows[..n + 1], before, f) ==
      if AllHold(rows[n], Clause(before, f)) then [rows[n]] + Select(rows[..n], before, f)
        else Select(rows[..n], before, f)
  {
    hide Meets, Clause, AllHold;
    ClauseMeans(rows[n], before, f);
    assert rows[..n + 1][..n] == rows[..n];
    assert [] + Select(rows[..n], before, f) == Select(rows[..n], before, f);
  }

  lemma SelectNone(before: nat, f: Filter)
    ensures Select([], before, f) == []
  {
  }

  method Selected(r: Row, cs: seq<Condition>) returns (ok: bool)
    ensures ok <==> AllHold(r, cs)
  {
    hide Holds;
    for i := 0 to |cs|
      invariant forall k :: 0 <= k < i ==> Holds(r, cs[k])
    {
      if !Holds(r, cs[i]) {
        return false;
      }
    }
    return true;
  }

  // ---- the unpaged query ----

  /** It has exactly the rows that meet the conditions, each once, newest first. */
  lemma {:induction false} SelectExact(rows: seq<Row>, before: nat, f: Filter)
    requires Ascending(rows)
    ensures var s := Select(rows, before, f);
      && (forall r :: r in s <==> r in rows && Below(r, before) && Meets(r, f))
      && (forall i, j :: 0 <= i < j < |s| ==> s[i].id > s[j].id)
    decreases |rows|
  {
    hide Meets, Below, Select, Ascending;
    SelectStep(rows, before, f);
    if rows != [] {
      var init, r := rows[..|rows| - 1], rows[|rows| - 1];
      InitAscends(rows);
      SelectExact(init, before, f);
      assert rows == init + [r];
      var s, rest := Select(rows, before, f), Select(init, before, f);
      forall i, j | 0 <= i < j < |s| ensures s[i].id > s[j].id {
        assert s == rest || (s == [r] + rest && s[j] == rest[j - 1] && rest[j - 1] in init);
      }
    }
  }

  lemma InitAscends(rows: seq<Row>)
    requires Ascending(rows) && rows != []
    ensures var init, r := rows[..|rows| - 1], rows[|rows| - 1];
      Ascending(init) && forall x :: x in init ==> x.id < r.id
  {
  }

  lemma SelectStep(rows: seq<Row>, before: nat, f: Filter)
    ensures if rows == [] then Select(rows, before, f) == []
      else
        var rest, r := Select(rows[..|rows| - 1], before, f), rows[|rows| - 1];
        Select(rows, before, f) == if Below(r, before) && Meets(r, f) then [r] + rest else rest
  {
    hide Meets, Below;
  }

  /** Rows added with ids at or above the cursor are not seen. */
  lemma {:induction false} SelectIgnoresNew(rows: seq<Row>, more: seq<Row>, before: nat, f: Filter)
    requires before > 0 && forall i :: 0 <= i < |more| ==> more[i].id >= before
    ensures Select(rows + more, before, f) == Select(rows, before, f)
    decreases |more|
  {
    if more == [] {
      assert rows + more == rows;
    } else {
      var init := more[..|more| - 1];
      SelectIgnoresNew(rows, init, before, f);
      assert (rows + more)[..|rows + more| - 1] == rows + init;
    }
  }

  lemma Older(rows: seq<Row>, before: nat, f: Filter)
    requires Ascending(rows) && rows != []
    ensures var init, r := rows[..|rows| - 1], rows[|rows| - 1];
      && Ascending(init) && r.id > 0 && (forall i :: 0 <= i < |init| ==> init[i].id < r.id)
      && forall k :: 0 <= k < |Select(init, before, f)| ==> 0 < Select(init, before, f)[k].id < r.id
  {
    hide Meets, Select;
    var init := rows[..|rows| - 1];
    SelectExact(init, before, f);
    forall k | 0 <= k < |Select(init, before, f)|
      ensures 0 < Select(init, before, f)[k].id < rows[|rows| - 1].id
    {
      assert Select(init, before, f)[k] in init;
    }
  }

  /** Going on below the k-th row gives the rows after it. */
  lemma {:induction false} SelectBelow(rows: seq<Row>, before: nat, f: Filter, k: nat)
    requires Ascending(rows) && k < |Select(rows, before, f)|
    ensures var s := Select(rows, before, f); s[k].id > 0 && Select(rows, s[k].id, f) == s[k + 1..]
    decreases |rows|
  {
    hide Meets, Ascending;
    var init, r := rows[..|rows| - 1], rows[|rows| - 1];
    var rest := Select(init, before, f);
    Older(rows, before, f);
    if Below(r, before) && Meets(r, f) {
      assert Select(rows, before, f) == [r] + rest;
      if k == 0 {
        NotBelowAll(init, r, before, f);
        assert ([r] + rest)[1..] == rest;
      } else {
        SelectBelow(init, before, f, k - 1);
        assert ([r] + rest)[k] == rest[k - 1] && ([r] + rest)[k + 1..] == rest[k..];
      }
    } else {
      SelectBelow(init, before, f, k);
      assert Select(rows, before, f) == [] + rest == rest;
    }
  }

  /** Everything before a row in the table is below it. */
  lemma {:induction false} NotBelowAll(init: seq<Row>, r: Row, before: nat, f: Filter)
    requires Below(r, before) && r.id > 0 && forall i :: 0 <= i < |init| ==> init[i].id < r.id
    ensures Select(init, r.id, f) == Select(init, before, f)
    decreases |init|
  {
    hide Meets;
    if init != [] {
      NotBelowAll(init[..|init| - 1], r, before, f);
    }
  }

  // ---- the export loop ----

  /** The table at the k-th query, when `arrivals(i)` came in between query i and the next. */
  ghost function Table(rows: seq<Row>, arrivals: nat -> seq<Row>, k: nat): seq<Row> {
    if k == 0 then rows else Table(rows, arrivals, k - 1) + arrivals(k - 1)
  }

  /** All that has come in since the first query. */
  ghost function Arrived(arrivals: nat -> seq<Row>, k: nat): seq<Row> {
    if k == 0 then [] else Arrived(arrivals, k - 1) + arrivals(k - 1)
  }

  lemma {:induction false} TableIs(rows: seq<Row>, arrivals: nat -> seq<Row>, k: nat)
    ensures Table(rows, arrivals, k) == rows + Arrived(arrivals, k)
  {
    if k > 0 {
      TableIs(rows, arrivals, k - 1);
    }
  }

  lemma LaterIsLarger(rows: seq<Row>, arrivals: nat -> seq<Row>, k: nat, cursor: nat)
    requires Ascending(Table(rows, arrivals, k)) && exists i :: 0 <= i < |rows| && rows[i].id == cursor
    ensures forall i :: 0 <= i < |Arrived(arrivals, k)| ==> Arrived(arrivals, k)[i].id >= cursor
  {
    TableIs(rows, arrivals, k);
    var t, a := Table(rows, arrivals, k), Arrived(arrivals, k);
    assert forall i :: 0 <= i < |a| ==> a[i] == t[|rows| + i];
    assert forall i :: 0 <= i < |rows| ==> rows[i] == t[i];
  }

  /** The cursor of the query after `k`: none, or the id of a row. */
  ghost predicate CursorOk(rows: seq<Row>, cursor: nat, k: nat) {
    if k == 0 then cursor == 0 else exists i :: 0 <= i < |rows| && rows[i].id == cursor
  }

  /** One turn: a page of the grown table continues the unpaged query of the first one. */
  lemma PageContinues(rows: seq<Row>, arrivals: nat -> seq<Row>, k: nat, cursor: nat, f: Filter)
    requires Ascending(rows) && Ascending(Table(rows, arrivals, k))
    requires CursorOk(rows, cursor, k)
    ensures Select(Table(rows, arrivals, k), cursor, f) == Select(rows, cursor, f)
  {
    if k > 0 {
      TableIs(rows, arrivals, k);
      LaterIsLarger(rows, arrivals, k, cursor);
      SelectIgnoresNew(rows, Arrived(arrivals, k), cursor, f);
    }
  }

  /** The paging loop ends and collects exactly the unpaged query of the table as it was at the first page,
      whatever comes in meanwhile. */
  method ExportRows(rows: seq<Row>, arrivals: nat -> seq<Row>, f: Filter) returns (all: seq<Row>, queries: nat)
    requires forall k: nat :: Ascending(Table(rows, arrivals, k))
    ensures all == Select(rows, 0, f)
    ensures queries == |all| / PAGE_SIZE + 1
  {
    hide Select, Ascending, Table, CursorOk;
    all := [];
    queries := 0;
    var cursor := 0;
    var table := rows;
    ghost var whole := Select(rows, 0, f);
    FirstTable(rows, arrivals);
    while true
      invariant Ascending(rows) && table == Table(rows, arrivals, queries)
      invariant CursorOk(rows, cursor, queries)
      invariant all + Select(rows, cursor, f) == whole && |all| == queries * PAGE_SIZE
      decreases |whole| - |all|
    {
      PageContinues(rows, arrivals, queries, cursor, f);
      ghost var rest := Select(rows, cursor, f);
      var page := TransactionsPage(table, cursor, f);
      queries := queries + 1;
      if |page| == 0 {
        break;
      }
      all := all + page;
      if |page| < PAGE_SIZE {
        break;
      }
      NextCursor(rows, cursor, f, page, queries);
      NextTable(rows, arrivals, queries);
      assert rest == page + rest[PAGE_SIZE..];
      cursor := page[|page| - 1].id;
      table := table + arrivals(queries - 1);
    }
  }

  lemma FirstTable(rows: seq<Row>, arrivals: nat -> seq<Row>)
    ensures Table(rows, arrivals, 0) == rows && CursorOk(rows, 0, 0)
  {
  }

  lemma NextTable(rows: seq<Row>, arrivals: nat -> seq<Row>, k: nat)
    requires k > 0
    ensures Table(rows, arrivals, k) == Table(rows, arrivals, k - 1) + arrivals(k - 1)
  {
  }

  lemma NextCursor(rows: seq<Row>, cursor: nat, f: Filter, page: seq<Row>, k: nat)
    requires Ascending(rows) && |page| == PAGE_SIZE && page <= Select(rows, cursor, f) && k > 0
    ensures Select(rows, page[|page| - 1].id, f) == Select(rows, cursor, f)[PAGE_SIZE..]
    ensures CursorOk(rows, page[|page| - 1].id, k)
  {
    var s := Select(rows, cursor, f);
    SelectBelow(rows, cursor, f, PAGE_SIZE - 1);
    SelectExact(rows, cursor, f);
    assert s[PAGE_SIZE - 1] == page[|page| - 1] && s[PAGE_SIZE - 1] in s;
    var i :| 0 <= i < |rows| && rows[i] == s[PAGE_SIZE - 1];
  }

  // ---- the page behind the history table ----

  ghost function Keep(rows: seq<Row>, f: Filter): seq<Row> {
    if rows == [] then [] else (if Exact(rows[0], f) then [rows[0]] else []) + Keep(rows[1..], f)
  }

  /** Which rows of a queried page are shown: those at or under the path, no static files if they are hidden; and
      then the port counts even without a host. */
  ghost predicate ShownOn(r: Row, f: Filter) {
    && (f.pathPrefix != "" ==> TreePathOf(r.url) == f.pathPrefix || (f.pathPrefix + "/") <= TreePathOf(r.url))
    && (f.hideStatic ==> !EndsStatic(r.url))
    && ((f.pathPrefix != "" || f.hideStatic) && f.port != 0 ==> r.port == f.port)
  }

  lemma {:induction false} SelectedMeets(rows: seq<Row>, before: nat, f: Filter, r: Row)
    requires r in Select(rows, before, f)
    ensures MeetsRest(r, f)
    decreases |rows|
  {
    hide MeetsRest, Below;
    var init, last := rows[..|rows| - 1], rows[|rows| - 1];
    if r in Select(init, before, f) {
      SelectedMeets(init, before, f, r);
    } else {
      assert r == last && Meets(last, f);
    }
  }

  lemma ShownRows(rows: seq<Row>, cursor: nat, f: Filter)
    ensures forall r :: r in Page(rows, cursor, f) && (f.pathPrefix != "" || f.hideStatic) ==>
      (Exact(r, f) <==> ShownOn(r, f))
    ensures f.pathPrefix == "" && !f.hideStatic ==> forall r :: ShownOn(r, f)
    ensures forall r :: r in Keep(Page(rows, cursor, f), f) <==> r in Page(rows, cursor, f) && Exact(r, f)
  {
    hide Select, Exact, MeetsRest, EndsStatic;
    forall r | r in Page(rows, cursor, f) ensures MeetsRest(r, f) {
      SelectedMeets(rows, cursor, f, r);
    }
    forall r | MeetsRest(r, f) ensures Exact(r, f) <==>
      && (f.pathPrefix != "" ==> TreePathOf(r.url) == f.pathPrefix || (f.pathPrefix + "/") <= TreePathOf(r.url))
      && (f.hideStatic ==> !EndsStatic(r.url)) && (f.port != 0 ==> r.port == f.port)
    {
      ExactOfQueried(r, f);
    }
    forall r ensures r in Keep(Page(rows, cursor, f), f) <==> r in Page(rows, cursor, f) && Exact(r, f) {
      KeepExact(Page(rows, cursor, f), f, r);
    }
  }

  /** fetchPage: a page of the query, filtered exactly when a path or the static files matter. */
  method FetchPage(rows: seq<Row>, cursor: nat, f: Filter) returns (txs: seq<Row>, fullLen: nat)
    ensures fullLen == |Page(rows, cursor, f)|
    ensures txs == if f.pathPrefix != "" || f.hideStatic then Keep(Page(rows, cursor, f), f) else Page(rows, cursor, f)
    ensures forall r :: r in txs <==> r in Page(rows, cursor, f) && ShownOn(r, f)
  {
    hide Keep, Page, ShownOn, Exact;
    ShownRows(rows, cursor, f);
    txs := TransactionsPage(rows, cursor, f);
    fullLen := |txs|;
    if f.pathPrefix != "" || f.hideStatic {
      txs := KeepLoop(txs, f);
    }
  }

  method KeepLoop(txs: seq<Row>, f: Filter) returns (filtered: seq<Row>)
    ensures filtered == Keep(txs, f)
  {
    hide Exact;
    filtered := [];
    assert txs[0..] == txs;
    for i := 0 to |txs|
      invariant filtered + Keep(txs[i..], f) == Keep(txs, f)
    {
      assert txs[i..][1..] == txs[i + 1..];
      var ok := MatchesFilter(txs[i], f);
      if ok {
        assert filtered + ([txs[i]] + Keep(txs[i + 1..], f)) == (filtered + [txs[i]]) + Keep(txs[i + 1..], f);
        filtered := filtered + [txs[i]];
      }
    }
  }

  lemma {:induction false} KeepExact(rows: seq<Row>, f: Filter, r: Row)
    ensures r in Keep(rows, f) <==> r in rows && Exact(r, f)
  {
    hide Exact;
    if rows != [] {
      KeepExact(rows[1..], f, r);
      assert r in rows <==> r == rows[0] || r in rows[1..];
    }
  }

  /** Filtering the query's rows exactly keeps every row that passes the exact filter and the rest of the
      query: the LIKE patterns in front of it hide none. */
  lemma RefilterMissesNothing(rows: seq<Row>, f: Filter, r: Row)
    requires Ascending(rows)
    ensures r in Keep(Select(rows, 0, f), f) <==> r in rows && Exact(r, f) && MeetsRest(r, f)
  {
    hide Exact, Select, Ascending;
    SelectExact(rows, 0, f);
    KeepExact(Select(rows, 0, f), f, r);
    assert Meets(r, f) ==> MeetsRest(r, f);
    hide Meets, MeetsRest;
    if Exact(r, f) && MeetsRest(r, f) {
      QuerySeesExact(r, f);
    }
  }
}
