/** The list queries: the rows that a filter selects, in ORDER BY order, served page by page. */
module Listing {
  import opened Wrappers
  import opened Cursor
  import opened Pagination
  import opened Walks
  import opened Filters

  // ---------- WHERE and ORDER BY ----------

  /** ORDER BY input_index ASC, output_index ASC; inputs have the first column only. */
  datatype Rank = Rank(input: int, output: int)

  predicate Before(a: Rank, b: Rank) { a.input < b.input || (a.input == b.input && a.output < b.output) }

  function Where<R(!new)>(p: R -> bool, rows: seq<R>): (r: seq<R>)
    ensures forall x :: x in r <==> x in rows && p(x)
  {
    if rows == [] then []
    else
      var last := |rows| - 1;
      assert rows == rows[..last] + [rows[last]];
      Where(p, rows[..last]) + if p(rows[last]) then [rows[last]] else []
  }

  function InsertLast<R>(rank: R -> Rank, x: R, rows: seq<R>): seq<R> {
    if rows == [] || !Before(rank(x), rank(rows[|rows| - 1])) then rows + [x]
    else InsertLast(rank, x, rows[..|rows| - 1]) + [rows[|rows| - 1]]
  }

  function OrderBy<R>(rank: R -> Rank, rows: seq<R>): seq<R> {
    if rows == [] then [] else InsertLast(rank, rows[|rows| - 1], OrderBy(rank, rows[..|rows| - 1]))
  }

  predicate Ordered<R>(rank: R -> Rank, rows: seq<R>) {
    forall i, j :: 0 <= i < j < |rows| ==> !Before(rank(rows[j]), rank(rows[i]))
  }

  /** Ordered rows ascend in the first column, and in the second among rows of equal first. */
  lemma OrderedByColumns<R>(rank: R -> Rank, rows: seq<R>)
    ensures Ordered(rank, rows) <==>
            forall i, j :: 0 <= i < j < |rows| ==>
              && rank(rows[i]).input <= rank(rows[j]).input
              && (rank(rows[i]).input == rank(rows[j]).input ==> rank(rows[i]).output <= rank(rows[j]).output)
  {
    forall i, j | 0 <= i < j < |rows|
      ensures !Before(rank(rows[j]), rank(rows[i])) <==>
              && rank(rows[i]).input <= rank(rows[j]).input
              && (rank(rows[i]).input == rank(rows[j]).input ==> rank(rows[i]).output <= rank(rows[j]).output)
    {
    }
  }

  lemma {:induction false} InsertLastKeeps<R>(rank: R -> Rank, x: R, rows: seq<R>)
    ensures multiset(InsertLast(rank, x, rows)) == multiset(rows) + multiset{x}
    decreases |rows|
  {
    if rows != [] && Before(rank(x), rank(rows[|rows| - 1])) {
      var init, last := rows[..|rows| - 1], rows[|rows| - 1];
      InsertLastKeeps(rank, x, init);
      assert rows == init + [last];
    }
  }

  lemma OrderedAppend<R>(rank: R -> Rank, rows: seq<R>, last: R)
    requires Ordered(rank, rows) && forall i :: 0 <= i < |rows| ==> !Before(rank(last), rank(rows[i]))
    ensures Ordered(rank, rows + [last])
  {
  }

  lemma {:induction false} InsertLastIsOrdered<R>(rank: R -> Rank, x: R, rows: seq<R>)
    requires Ordered(rank, rows)
    ensures Ordered(rank, InsertLast(rank, x, rows))
    decreases |rows|
  {
    if rows == [] {
    } else if !Before(rank(x), rank(rows[|rows| - 1])) {
      OrderedAppend(rank, rows, x);
    } else {
      var init, last := rows[..|rows| - 1], rows[|rows| - 1];
      var inner := InsertLast(rank, x, init);
      InsertLastIsOrdered(rank, x, init);
      forall i | 0 <= i < |inner| ensures !Before(rank(last), rank(inner[i])) {
        InsertedFrom(rank, x, init, i);
      }
      OrderedAppend(rank, inner, last);
    }
  }

  lemma InsertedFrom<R>(rank: R -> Rank, x: R, rows: seq<R>, i: nat)
    requires i < |InsertLast(rank, x, rows)|
    ensures InsertLast(rank, x, rows)[i] == x || InsertLast(rank, x, rows)[i] in rows
  {
    InsertLastKeeps(rank, x, rows);
    assert InsertLast(rank, x, rows)[i] in multiset(InsertLast(rank, x, rows));
  }

  /** The result of a list query holds the rows of the table, each as often as there, in order. */
  lemma {:induction false} OrderByOrders<R>(rank: R -> Rank, rows: seq<R>)
    ensures Ordered(rank, OrderBy(rank, rows)) && multiset(OrderBy(rank, rows)) == multiset(rows)
    decreases |rows|
  {
    if rows != [] {
      var init, last := rows[..|rows| - 1], rows[|rows| - 1];
      OrderByOrders(rank, init);
      InsertLastIsOrdered(rank, last, OrderBy(rank, init));
      InsertLastKeeps(rank, last, OrderBy(rank, init));
      assert rows == init + [last];
    }
  }

  // ---------- Rows that sort behind the existing ones ----------

  ghost predicate AllBehind<R(!new)>(rank: R -> Rank, rows: seq<R>, more: seq<R>) {
    forall x, y :: x in rows && y in more ==> !Before(rank(y), rank(x))
  }

  lemma {:induction false} WhereAppend<R(!new)>(p: R -> bool, rows: seq<R>, more: seq<R>)
    ensures Where(p, rows + more) == Where(p, rows) + Where(p, more)
    decreases |more|
  {
    if more == [] {
      assert rows + more == rows;
    } else {
      var init := more[..|more| - 1];
      assert (rows + more)[..|rows + more| - 1] == rows + init;
      WhereAppend(p, rows, init);
    }
  }

  // ---------- Lists without a reference order ----------

  /** What the database may answer: the rows in rank order. ORDER BY fixes nothing about rows of equal rank, and need
      not order them the same way twice. */
  ghost predicate IsSorted<R>(rank: R -> Rank, rows: seq<R>, list: seq<R>) {
    Ordered(rank, list) && multiset(list) == multiset(rows)
  }

  /** No two different rows have the same rank. */
  ghost predicate DistinctRanks<R(!new)>(rank: R -> Rank, rows: seq<R>) {
    forall x, y :: x in rows && y in rows && rank(x) == rank(y) ==> x == y
  }

  predicate Ascending(ranks: seq<Rank>) { forall i, j :: 0 <= i < j < |ranks| ==> !Before(ranks[j], ranks[i]) }

  function Without<T>(s: seq<T>, j: nat): (r: seq<T>)
    requires j < |s|
    ensures |r| == |s| - 1
  {
    s[..j] + s[j + 1..]
  }

  lemma WithoutOne<T>(s: seq<T>, j: nat)
    requires j < |s|
    ensures multiset(Without(s, j)) == multiset(s) - multiset{s[j]}
  {
    assert s == s[..j] + [s[j]] + s[j + 1..];
  }

  lemma GreatestIsLast(a: seq<Rank>, b: seq<Rank>)
    requires Ascending(a) && Ascending(b) && multiset(a) == multiset(b) && a != []
    ensures |b| == |a| && b[|a| - 1] == a[|a| - 1]
  {
    assert |a| == |multiset(a)| == |multiset(b)| == |b|;
    var n := |a| - 1;
    assert a[n] in multiset(b) && b[n] in multiset(a);
    var i :| 0 <= i <= n && b[i] == a[n];
    var j :| 0 <= j <= n && a[j] == b[n];
    assert !Before(b[n], b[i]) && !Before(a[n], a[j]);
  }

  lemma WithoutLast<T>(a: seq<T>, b: seq<T>, n: nat)
    requires |a| == |b| == n + 1 && a[n] == b[n] && multiset(a) == multiset(b)
    ensures multiset(a[..n]) == multiset(b[..n])
  {
    WithoutOne(a, n);
    WithoutOne(b, n);
    assert Without(a, n) == a[..n] && Without(b, n) == b[..n];
  }

  lemma {:induction false} AscendingIsUnique(a: seq<Rank>, b: seq<Rank>)
    requires Ascending(a) && Ascending(b) && multiset(a) == multiset(b)
    ensures a == b
    decreases |a|
  {
    if a == [] {
      assert |b| == |multiset(b)| == 0;
    } else {
      GreatestIsLast(a, b);
      var n := |a| - 1;
      WithoutLast(a, b, n);
      AscendingIsUnique(a[..n], b[..n]);
    }
  }

  lemma ImagesWithoutOne<R>(rank: R -> Rank, s: seq<R>, j: nat)
    requires j < |s|
    ensures multiset(Images(rank, s)) == multiset(Images(rank, Without(s, j))) + multiset{rank(s[j])}
  {
    var images := Images(rank, s);
    assert Images(rank, Without(s, j)) == Without(images, j);
    WithoutOne(images, j);
    assert images[j] in multiset(images);
  }

  lemma WithoutSame<T>(a: seq<T>, b: seq<T>, j: nat)
    requires a != [] && j < |b| && b[j] == a[0] && multiset(a) == multiset(b)
    ensures multiset(Without(a, 0)) == multiset(Without(b, j))
  {
    WithoutOne(a, 0);
    WithoutOne(b, j);
  }

  lemma {:induction false} ImagesCount<R>(rank: R -> Rank, a: seq<R>, b: seq<R>)
    requires multiset(a) == multiset(b)
    ensures multiset(Images(rank, a)) == multiset(Images(rank, b))
    decreases |a|
  {
    if a == [] {
      assert |b| == |multiset(b)| == 0;
    } else {
      assert a[0] in multiset(b);
      var j :| 0 <= j < |b| && b[j] == a[0];
      WithoutSame(a, b, j);
      ImagesCount(rank, Without(a, 0), Without(b, j));
      ImagesWithoutOne(rank, a, 0);
      ImagesWithoutOne(rank, b, j);
    }
  }

  /** All answers have the same ranks in the same places. */
  lemma SameRanks<R>(rank: R -> Rank, rows: seq<R>, a: seq<R>, b: seq<R>)
    requires IsSorted(rank, rows, a) && IsSorted(rank, rows, b)
    ensures Images(rank, a) == Images(rank, b)
  {
    ImagesCount(rank, a, b);
    AscendingIsUnique(Images(rank, a), Images(rank, b));
  }

  lemma MemberOfSorted<R>(rank: R -> Rank, rows: seq<R>, list: seq<R>, i: nat)
    requires IsSorted(rank, rows, list) && i < |list|
    ensures list[i] in rows
  {
    assert list[i] in multiset(list);
  }

  lemma DistinctRanksGiveOneAnswer<R(!new)>(rank: R -> Rank, rows: seq<R>, a: seq<R>, b: seq<R>)
    requires DistinctRanks(rank, rows) && IsSorted(rank, rows, a) && IsSorted(rank, rows, b)
    ensures a == b
  {
    SameRanks(rank, rows, a, b);
    assert |a| == |Images(rank, a)| == |Images(rank, b)| == |b|;
    forall i | 0 <= i < |a| ensures a[i] == b[i] {
      MemberOfSorted(rank, rows, a, i);
      MemberOfSorted(rank, rows, b, i);
      assert Images(rank, a)[i] == Images(rank, b)[i];
    }
  }

  /** Two rows of one rank can change places. */
  lemma SwappedAnswer<R>(rank: R -> Rank, rows: seq<R>, list: seq<R>, i: nat, j: nat)
    requires IsSorted(rank, rows, list) && i < j < |list| && rank(list[i]) == rank(list[j])
    ensures IsSorted(rank, rows, list[i := list[j]][j := list[i]])
  {
    var other := list[i := list[j]][j := list[i]];
    assert Images(rank, other) == Images(rank, list);
    forall k, l | 0 <= k < l < |other| ensures !Before(rank(other[l]), rank(other[k])) {
      assert rank(other[k]) == Images(rank, list)[k] && rank(other[l]) == Images(rank, list)[l];
    }
  }

  lemma AnotherAnswer<R>(rank: R -> Rank, rows: seq<R>, list: seq<R>, x: R, y: R) returns (other: seq<R>)
    requires IsSorted(rank, rows, list) && x in rows && y in rows && rank(x) == rank(y) && x != y
    ensures IsSorted(rank, rows, other) && other != list
  {
    assert x in multiset(list) && y in multiset(list);
    var k :| 0 <= k < |list| && list[k] == x;
    var l :| 0 <= l < |list| && list[l] == y;
    var i, j := if k < l then k else l, if k < l then l else k;
    SwappedAnswer(rank, rows, list, i, j);
    other := list[i := list[j]][j := list[i]];
    assert other[i] != list[i];
  }

  /** The database has one possible answer if and only if no two different rows have the same rank. */
  lemma OneAnswerIff<R(!new)>(rank: R -> Rank, rows: seq<R>)
    ensures (forall list :: IsSorted(rank, rows, list) ==> list == OrderBy(rank, rows)) <==> DistinctRanks(rank, rows)
  {
    OrderByOrders(rank, rows);
    if DistinctRanks(rank, rows) {
      forall other | IsSorted(rank, rows, other) ensures other == OrderBy(rank, rows) {
        DistinctRanksGiveOneAnswer(rank, rows, other, OrderBy(rank, rows));
      }
    } else {
      var x, y :| x in rows && y in rows && rank(x) == rank(y) && x != y;
      var other := AnotherAnswer(rank, rows, OrderBy(rank, rows), x, y);
    }
  }

  /** Whatever the database answers, rows that sort behind all existing ones come last: their ranks always, and when no
      two rows have the same rank, the rows themselves. */
  lemma RowsBehindComeLast<R(!new)>(rank: R -> Rank, rows: seq<R>, more: seq<R>, a: seq<R>, b: seq<R>, all: seq<R>)
    requires AllBehind(rank, rows, more)
    requires IsSorted(rank, rows, a) && IsSorted(rank, more, b) && IsSorted(rank, rows + more, all)
    ensures Images(rank, all) == Images(rank, a) + Images(rank, b)
    ensures DistinctRanks(rank, rows + more) ==> all == a + b
  {
    forall i, j | 0 <= i < j < |a + b| ensures !Before(rank((a + b)[j]), rank((a + b)[i])) {
      if i < |a| { MemberOfSorted(rank, rows, a, i); }
      if j >= |a| { MemberOfSorted(rank, more, b, j - |a|); }
    }
    assert IsSorted(rank, rows + more, a + b);
    SameRanks(rank, rows + more, all, a + b);
    ImagesJoin(rank, a, b);
    if DistinctRanks(rank, rows + more) { DistinctRanksGiveOneAnswer(rank, rows + more, all, a + b); }
  }

  // ---------- Walking over a filtered list ----------

  function Chosen<R>(sem: Semantics<R>, c: Clause): R -> bool
    requires Bound(c.conditions, c.args)
  {
    row => Selects(sem, c.conditions, c.args, row)
  }

  /** Between two requests rows are only added, and only behind every existing row. */
  ghost predicate AppendedBehind<R(!new)>(rank: R -> Rank, tables: seq<seq<R>>) {
    forall i, j :: 0 <= i <= j < |tables| ==>
      tables[i] <= tables[j] && AllBehind(rank, tables[i], tables[j][|tables[i]|..])
  }

  lemma {:induction false} WhereCounts<R(!new)>(p: R -> bool, rows: seq<R>, x: R)
    ensures multiset(Where(p, rows))[x] == if p(x) then multiset(rows)[x] else 0
  {
    if rows != [] {
      var init, last := rows[..|rows| - 1], rows[|rows| - 1];
      WhereCounts(p, init, x);
      assert rows == init + [last];
    }
  }

  /** A possible answer of a list query. */
  ghost predicate IsAnswer<R(!new)>(sem: Semantics<R>, c: Clause, rank: R -> Rank, table: seq<R>, list: seq<R>)
    requires Bound(c.conditions, c.args)
  {
    IsSorted(rank, Where(Chosen(sem, c), table), list)
  }

  /** Every answer to a list query over a compiled filter list holds, in order, exactly the rows of the table that meet
      every filter, each as often as it is there. */
  lemma AnswerIsTheConjunction<R(!new)>(sem: Semantics<R>, repo: Repo, filters: seq<ConvenienceFilter>, c: Clause,
                                        rank: R -> Rank, table: seq<R>, list: seq<R>)
    requires Compiles(repo, filters, c)
    ensures Bound(c.conditions, c.args)
    ensures IsAnswer(sem, c, rank, table, list) <==>
            && Ordered(rank, list)
            && forall x :: multiset(list)[x] == if AllMeet(sem, repo, filters, x) then multiset(table)[x] else 0
  {
    CompiledIsBound(repo, filters, c);
    var kept := Where(Chosen(sem, c), table);
    forall x
      ensures multiset(kept)[x] == if AllMeet(sem, repo, filters, x) then multiset(table)[x] else 0
    {
      WhereCounts(Chosen(sem, c), table, x);
      ClauseSelectsConjunction(sem, repo, filters, c, x);
    }
    assert multiset(list) == multiset(kept) <==> forall x :: multiset(list)[x] == multiset(kept)[x];
  }

  /** Each request of a walk gets some answer over the table as it is then. */
  ghost predicate AreAnswers<R(!new)>(sem: Semantics<R>, c: Clause, rank: R -> Rank, tables: seq<seq<R>>,
                                      lists: seq<seq<R>>)
    requires Bound(c.conditions, c.args)
  {
    && |lists| == |tables|
    && (forall i :: 0 <= i < |tables| ==> IsAnswer(sem, c, rank, tables[i], lists[i]))
    && (forall i :: 0 <= i < |tables| ==> |tables[i]| <= MAX_INT)
  }

  function RanksOf<R>(rank: R -> Rank, lists: seq<seq<R>>): (r: seq<seq<Rank>>)
    ensures AreImages(rank, lists, r)
  {
    seq(|lists|, i requires 0 <= i < |lists| => Images(rank, lists[i]))
  }

  lemma {:induction false} WhereIsNoLonger<R(!new)>(p: R -> bool, rows: seq<R>)
    ensures |Where(p, rows)| <= |rows|
  {
    if rows != [] { WhereIsNoLonger(p, rows[..|rows| - 1]); }
  }

  lemma AnswerIsNoLonger<R(!new)>(sem: Semantics<R>, c: Clause, rank: R -> Rank, table: seq<R>, list: seq<R>)
    requires Bound(c.conditions, c.args) && IsAnswer(sem, c, rank, table, list)
    ensures |list| <= |table|
  {
    var kept := Where(Chosen(sem, c), table);
    WhereIsNoLonger(Chosen(sem, c), table);
    assert |list| == |multiset(list)| == |multiset(kept)| == |kept|;
  }

  lemma AnswerRanksGrow<R(!new)>(sem: Semantics<R>, c: Clause, rank: R -> Rank, table: seq<R>, later: seq<R>,
                                 list: seq<R>, list': seq<R>)
    requires Bound(c.conditions, c.args) && table <= later && AllBehind(rank, table, later[|table|..])
    requires IsAnswer(sem, c, rank, table, list) && IsAnswer(sem, c, rank, later, list')
    ensures Images(rank, list) <= Images(rank, list')
  {
    var p, more := Chosen(sem, c), later[|table|..];
    var b := OrderBy(rank, Where(p, more));
    assert later == table + more;
    WhereAppend(p, table, more);
    OrderByOrders(rank, Where(p, more));
    RowsBehindComeLast(rank, Where(p, table), Where(p, more), list, b, list');
  }

  lemma RanksGrow<R(!new)>(sem: Semantics<R>, c: Clause, rank: R -> Rank, tables: seq<seq<R>>, lists: seq<seq<R>>)
    requires Bound(c.conditions, c.args) && AppendedBehind(rank, tables) && AreAnswers(sem, c, rank, tables, lists)
    ensures Growing(RanksOf(rank, lists))
  {
    var images := RanksOf(rank, lists);
    forall i, j | 0 <= i <= j < |images| ensures images[i] <= images[j] {
      AnswerRanksGrow(sem, c, rank, tables[i], tables[j], lists[i], lists[j]);
    }
    forall i | 0 <= i < |images| ensures |images[i]| <= MAX_INT {
      AnswerIsNoLonger(sem, c, rank, tables[i], lists[i]);
    }
  }

  /** For every filter list and page size, and however the database orders rows of equal rank at each request: a
      client that follows endCursor, while rows are added behind the existing ones between its requests, receives
      pages whose ranks, joined, are those of the answers to the last request, from the beginning, without a gap or a
      repetition; all of them when the walk ends by itself. */
  lemma FilteredWalkKeepsRanks<R(!new)>(code: Code, sem: Semantics<R>, c: Clause, rank: R -> Rank, tables: seq<seq<R>>,
                                        lists: seq<seq<R>>, first: nat)
    requires Sound(code) && first >= 1 && tables != [] && Bound(c.conditions, c.args)
    requires AppendedBehind(rank, tables) && AreAnswers(sem, c, rank, tables, lists)
    ensures var pages := ForwardWalk(ForwardServer(code, first), lists, None);
            && 0 < |pages| <= |tables|
            && var got, all := Images(rank, AllNodes(pages)), Images(rank, lists[|pages| - 1]);
            && got <= all
            && (if pages[|pages| - 1].pageInfo.hasNextPage then |pages| == |tables| else got == all)
  {
    RanksGrow(sem, c, rank, tables, lists);
    ForwardWalkNeverSkipsImages(code, rank, lists, RanksOf(rank, lists), first);
  }

  lemma DistinctAnswersGrow<R(!new)>(sem: Semantics<R>, c: Clause, rank: R -> Rank, table: seq<R>, later: seq<R>,
                                     list: seq<R>, list': seq<R>)
    requires Bound(c.conditions, c.args) && table <= later && AllBehind(rank, table, later[|table|..])
    requires IsAnswer(sem, c, rank, table, list) && IsAnswer(sem, c, rank, later, list')
    requires DistinctRanks(rank, Where(Chosen(sem, c), later))
    ensures list <= list'
  {
    var p, more := Chosen(sem, c), later[|table|..];
    var b := OrderBy(rank, Where(p, more));
    assert later == table + more;
    WhereAppend(p, table, more);
    OrderByOrders(rank, Where(p, more));
    RowsBehindComeLast(rank, Where(p, table), Where(p, more), list, b, list');
  }

  lemma ListsGrow<R(!new)>(sem: Semantics<R>, c: Clause, rank: R -> Rank, tables: seq<seq<R>>, lists: seq<seq<R>>)
    requires Bound(c.conditions, c.args) && AppendedBehind(rank, tables) && AreAnswers(sem, c, rank, tables, lists)
    requires tables != [] && DistinctRanks(rank, Where(Chosen(sem, c), tables[|tables| - 1]))
    ensures Growing(lists)
  {
    forall i, j | 0 <= i <= j < |lists| ensures lists[i] <= lists[j] {
      var last := tables[|tables| - 1];
      assert tables[j] <= last;
      assert forall x :: x in tables[j] ==> x in last;
      DistinctAnswersGrow(sem, c, rank, tables[i], tables[j], lists[i], lists[j]);
    }
    forall i | 0 <= i < |lists| ensures |lists[i]| <= MAX_INT {
      AnswerIsNoLonger(sem, c, rank, tables[i], lists[i]);
    }
  }

  /** When no two selected rows have the same rank, as for vouchers, notices and reports, whose rank is their key: the
      pages joined are the rows that meet every filter, in order, from the beginning, without a gap or a repetition;
      when the walk ends by itself they are all that the last request could see. */
  lemma FilteredWalkNeverSkips<R(!new)>(code: Code, sem: Semantics<R>, repo: Repo, filters: seq<ConvenienceFilter>,
                                        c: Clause, rank: R -> Rank, tables: seq<seq<R>>, lists: seq<seq<R>>, first: nat)
    requires Sound(code) && first >= 1 && tables != [] && Compiles(repo, filters, c) && Bound(c.conditions, c.args)
    requires AppendedBehind(rank, tables) && AreAnswers(sem, c, rank, tables, lists)
    requires DistinctRanks(rank, Where(Chosen(sem, c), tables[|tables| - 1]))
    ensures var pages := ForwardWalk(ForwardServer(code, first), lists, None);
            && 0 < |pages| <= |tables|
            && var list := lists[|pages| - 1];
            && AllNodes(pages) <= list && Ordered(rank, list)
            && (forall x :: multiset(list)[x] ==
                            if AllMeet(sem, repo, filters, x) then multiset(tables[|pages| - 1])[x] else 0)
            && (if pages[|pages| - 1].pageInfo.hasNextPage then |pages| == |tables| else AllNodes(pages) == list)
  {
    ListsGrow(sem, c, rank, tables, lists);
    ForwardWalkNeverSkips(code, lists, first);
    var pages := ForwardWalk(ForwardServer(code, first), lists, None);
    AnswerIsTheConjunction(sem, repo, filters, c, rank, tables[|pages| - 1], lists[|pages| - 1]);
  }

  /** Over a table that does not change, for every filter and page size and whatever answer each request gets: the walk
      ends by itself after ceil(selected rows / first) pages with as many rows as are selected; when none is, after one
      empty page. */
  lemma FilteredWalkTakesCeiling<R(!new)>(code: Code, sem: Semantics<R>, c: Clause, rank: R -> Rank, table: seq<R>,
                                          lists: seq<seq<R>>, first: nat)
    requires Sound(code) && first >= 1 && Bound(c.conditions, c.args) && |table| <= MAX_INT
    requires lists != [] && forall i :: 0 <= i < |lists| ==> IsAnswer(sem, c, rank, table, lists[i])
    requires |lists| >= (|Where(Chosen(sem, c), table)| + first - 1) / first
    ensures var pages, n := ForwardWalk(ForwardServer(code, first), lists, None), |Where(Chosen(sem, c), table)|;
            && |pages| == (if n == 0 then 1 else (n + first - 1) / first)
            && !pages[|pages| - 1].pageInfo.hasNextPage
            && |AllNodes(pages)| == n
  {
    var kept := Where(Chosen(sem, c), table);
    WhereIsNoLonger(Chosen(sem, c), table);
    forall i | 0 <= i < |lists| ensures |lists[i]| == |kept| {
      assert |lists[i]| == |multiset(lists[i])| == |multiset(kept)| == |kept|;
    }
    PagesNeededIsCeiling(|kept|, first);
    ForwardWalkTakesPagesNeeded(code, lists, |kept|, first);
  }

  lemma PiecesOfTwo<T>(x: T, y: T)
    ensures Flatten(ForwardPieces([[x, y], [y, x]], 1, 0)) == [x, x]
  {
    var lists := [[x, y], [y, x]];
    assert lists[1..] == [[y, x]];
    PiecesStep(lists, 1, 0);
    PiecesStep([[y, x]], 1, 1);
    var pieces, rest := ForwardPieces(lists, 1, 0), ForwardPieces([[y, x]], 1, 1);
    assert rest[0] == [x] && rest[1..] == [] && Flatten(rest) == [x] + [];
    assert pieces[0] == [x] && pieces[1..] == rest;
  }

  lemma TiedWalk<R(!new)>(code: Code, x: R, y: R)
    requires Sound(code)
    ensures AllNodes(ForwardWalk(ForwardServer(code, 1), [[x, y], [y, x]], None)) == [x, x]
  {
    FetchAnswersForward<R>(code, 1);
    ForwardWalkPieces(code, ForwardServer(code, 1), [[x, y], [y, x]], 1, None, 0);
    PiecesOfTwo(x, y);
  }

  lemma TiedPair<R>(rank: R -> Rank, x: R, y: R)
    requires rank(x) == rank(y)
    ensures IsSorted(rank, [x, y], [x, y]) && IsSorted(rank, [x, y], [y, x])
  {
    assert multiset([y, x]) == multiset([x, y]);
  }

  lemma TiedAnswer<R(!new)>(sem: Semantics<R>, rank: R -> Rank, x: R, y: R)
    requires rank(x) == rank(y)
    ensures IsAnswer(sem, Clause([], [], 1), rank, [x, y], [x, y])
    ensures IsAnswer(sem, Clause([], [], 1), rank, [x, y], [y, x])
  {
    WhereOfAll(Chosen(sem, Clause([], [], 1)), [x, y]);
    TiedPair(rank, x, y);
  }

  lemma TwoAnswers<R(!new)>(sem: Semantics<R>, c: Clause, rank: R -> Rank, table: seq<R>, a: seq<R>, b: seq<R>)
    requires Bound(c.conditions, c.args) && |table| <= MAX_INT
    requires IsAnswer(sem, c, rank, table, a) && IsAnswer(sem, c, rank, table, b)
    ensures AreAnswers(sem, c, rank, [table, table], [a, b])
  {
  }

  /** With two rows of one rank a walk may return one of them twice and the other never: the database may order them
      differently for the two requests. The input list allows this, for inputs of one index under two applications. */
  lemma TiesMayRepeat<R(!new)>(code: Code, sem: Semantics<R>, rank: R -> Rank, x: R, y: R)
    requires Sound(code) && x != y && rank(x) == rank(y)
    ensures var c, tables, lists := Clause([], [], 1), [[x, y], [x, y]], [[x, y], [y, x]];
            && AppendedBehind(rank, tables) && AreAnswers(sem, c, rank, tables, lists)
            && AllNodes(ForwardWalk(ForwardServer(code, 1), lists, None)) == [x, x]
  {
    TiedAnswer(sem, rank, x, y);
    TwoAnswers(sem, Clause([], [], 1), rank, [x, y], [x, y], [y, x]);
    TiedWalk(code, x, y);
  }

  lemma {:induction false} WhereOfAll<R(!new)>(p: R -> bool, rows: seq<R>)
    requires forall x :: x in rows ==> p(x)
    ensures Where(p, rows) == rows
  {
    if rows != [] {
      assert rows == rows[..|rows| - 1] + [rows[|rows| - 1]];
      WhereOfAll(p, rows[..|rows| - 1]);
    }
  }
}
