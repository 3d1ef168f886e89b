/** Page computation and connections. The cursor code is a parameter; the program's is Cursor.BASE64. */
module Pagination {
  import opened Wrappers
  import opened Cursor

  const DEFAULT_LIMIT := 1000

  datatype PageError = MixedPagination | InvalidLimit | BadCursor(error: CursorError)

  datatype Window = Window(offset: int, limit: int)

  function Min(a: int, b: int): int { if a < b then a else b }

  function Max(a: int, b: int): int { if a > b then a else b }

  function ComputeForwardPage(code: Code, first: Option<int>, after: Option<string>, total: int)
    : Result<Window, PageError>
  {
    if first.Some? && first.value < 0 then Err(InvalidLimit)
    else
      var limit := if first.Some? then first.value else DEFAULT_LIMIT;
      if after.None? then Ok(Window(0, Min(limit, total)))
      else
        match code.decode(after.value, total)
        case Err(e) => Err(BadCursor(e))
        case Ok(n) => Ok(Window(n + 1, Min(limit, total - (n + 1))))
  }

  function ComputeBackwardPage(code: Code, last: Option<int>, before: Option<string>, total: int)
    : Result<Window, PageError>
  {
    if last.Some? && last.value < 0 then Err(InvalidLimit)
    else
      var limit := if last.Some? then last.value else DEFAULT_LIMIT;
      var beforeOffset := if before.Some? then code.decode(before.value, total) else Ok(total);
      match beforeOffset
      case Err(e) => Err(BadCursor(e))
      case Ok(b) =>
        var offset := Max(0, b - limit);
        Ok(Window(offset, Min(limit, total - offset)))
  }

  function ComputePage(code: Code, first: Option<int>, last: Option<int>, after: Option<string>, before: Option<string>,
                       total: int): Result<Window, PageError>
  {
    var forward := first.Some? || after.Some?;
    var backward := last.Some? || before.Some?;
    if forward && backward then Err(MixedPagination)
    else if forward || !backward then ComputeForwardPage(code, first, after, total)
    else ComputeBackwardPage(code, last, before, total)
  }

  ghost predicate WithinTable(w: Window, total: int) {
    0 <= w.offset && 0 <= w.limit && w.offset + w.limit <= total
  }

  /** Every accepted request selects rows that exist; a request is refused exactly for mixing the two directions, for a
      negative size, or for a cursor that does not decode to one of the rows. */
  lemma PageIsWithinTable(code: Code, first: Option<int>, last: Option<int>, after: Option<string>,
                          before: Option<string>, total: nat)
    requires Sound(code)
    ensures match ComputePage(code, first, last, after, before, total)
            case Ok(w) => WithinTable(w, total)
            case Err(_) => true
    ensures ComputePage(code, first, last, after, before, total).Err? <==>
            || ((first.Some? || after.Some?) && (last.Some? || before.Some?))
            || (first.Some? && first.value < 0)
            || (last.Some? && last.value < 0)
            || (after.Some? && code.decode(after.value, total).Err?)
            || (before.Some? && code.decode(before.value, total).Err?)
  {
  }

  // ---------- The pagination algorithm of the GraphQL Cursor Connections Specification ----------

  datatype Range = Range(lo: int, hi: int)

  /** The positions that the specification's section "Pagination algorithm" returns: the edges after the first cursor
      and before the second, cut to the first or to the last so many. */
  function EdgesToReturn(first: Option<nat>, last: Option<nat>, after: Option<nat>, before: Option<nat>,
                         total: nat): Range
    requires after.Some? ==> after.value < total
    requires before.Some? ==> before.value < total
  {
    var lo := if after.Some? then after.value + 1 else 0;
    var hi := Max(lo, if before.Some? then before.value else total);
    var hi' := if first.Some? then Min(hi, lo + first.value) else hi;
    Range(if last.Some? then Max(lo, hi' - last.value) else lo, hi')
  }

  function RangeOf(w: Window): Range { Range(w.offset, w.offset + w.limit) }

  function CursorTo(code: Code, position: Option<nat>): Option<string> {
    if position.Some? then Some(code.encode(position.value)) else None
  }

  /** A forward page is the one of the specification; a missing first counts as 1000. */
  lemma ForwardPageMeetsSpecification(code: Code, first: Option<nat>, after: Option<nat>, total: nat)
    requires Sound(code) && total <= MAX_INT && (after.Some? ==> after.value < total)
    ensures match ComputePage(code, first, None, CursorTo(code, after), None, total)
            case Ok(w) =>
              RangeOf(w) == EdgesToReturn(if first.Some? then first else Some(1000), None, after, None, total)
            case Err(_) => false
  {
  }

  /** A backward page is the one of the specification if and only if the rows before the cursor are at least as many as
      asked for, or there is no cursor; a missing last counts as 1000. Otherwise the page reaches past the cursor. */
  lemma BackwardPageMeetsSpecificationIff(code: Code, last: Option<nat>, before: Option<nat>, total: nat)
    requires Sound(code) && total <= MAX_INT && (before.Some? ==> before.value < total)
    requires last.Some? || before.Some?
    ensures var limit := if last.Some? then last.value else 1000;
            match ComputePage(code, None, last, None, CursorTo(code, before), total)
            case Ok(w) =>
              RangeOf(w) == EdgesToReturn(None, Some(limit), None, before, total) <==>
              before.None? || limit <= before.value
            case Err(_) => false
  {
  }

  // ---------- Connections ----------

  datatype Edge<T> = Edge(node: T, offset: nat)

  datatype PageInfo = PageInfo(startCursor: Option<string>, endCursor: Option<string>, hasNextPage: bool,
                               hasPreviousPage: bool)

  datatype Connection<T> = Connection(totalCount: nat, edges: seq<Edge<T>>, pageInfo: PageInfo)

  function EdgesFrom<T>(offset: nat, nodes: seq<T>): (es: seq<Edge<T>>)
    ensures |es| == |nodes| && forall i :: 0 <= i < |nodes| ==> es[i] == Edge(nodes[i], offset + i)
  {
    seq(|nodes|, i requires 0 <= i < |nodes| => Edge(nodes[i], offset + i))
  }

  function InfoOf(code: Code, offset: nat, total: nat, size: nat): PageInfo {
    if size == 0 then PageInfo(None, None, false, false)
    else
      var last := offset + size - 1;
      PageInfo(Some(code.encode(offset)), Some(code.encode(last)), last < total - 1, offset > 0)
  }

  function ConnectionOf<T>(code: Code, offset: nat, total: nat, nodes: seq<T>): Connection<T> {
    Connection(total, EdgesFrom(offset, nodes), InfoOf(code, offset, total, |nodes|))
  }

  method NewConnection<T>(code: Code, offset: nat, total: nat, nodes: seq<T>) returns (c: Connection<T>)
    ensures c == ConnectionOf(code, offset, total, nodes)
  {
    var edges: seq<Edge<T>> := [];
    for i := 0 to |nodes|
      invariant edges == EdgesFrom(offset, nodes[..i])
    {
      edges := edges + [Edge(nodes[i], offset + i)];
    }
    assert nodes[..|nodes|] == nodes;
    var info := PageInfo(None, None, false, false);
    if |edges| > 0 {
      var startCursor := code.encode(edges[0].offset);
      info := info.(startCursor := Some(startCursor), hasPreviousPage := edges[0].offset > 0);
      var endCursor := code.encode(edges[|edges| - 1].offset);
      info := info.(endCursor := Some(endCursor), hasNextPage := edges[|edges| - 1].offset < total - 1);
    }
    c := Connection(total, edges, info);
  }

  function Nodes<T>(c: Connection<T>): (nodes: seq<T>)
    ensures |nodes| == |c.edges| && forall i :: 0 <= i < |nodes| ==> nodes[i] == c.edges[i].node
  {
    seq(|c.edges|, i requires 0 <= i < |c.edges| => c.edges[i].node)
  }

  lemma NodesOfConnection<T>(code: Code, offset: nat, total: nat, nodes: seq<T>)
    ensures Nodes(ConnectionOf(code, offset, total, nodes)) == nodes
  {
  }

  /** SELECT ... LIMIT limit OFFSET offset over the rows of a query, as a connection. The rows are in ORDER BY order. */
  function Fetch<T>(code: Code, rows: seq<T>, first: Option<int>, last: Option<int>, after: Option<string>,
                    before: Option<string>): Result<Connection<T>, PageError>
  {
    match ComputePage(code, first, last, after, before, |rows|)
    case Err(e) => Err(e)
    case Ok(w) =>
      var lo := Max(0, Min(w.offset, |rows|));
      var hi := Max(lo, Min(w.offset + w.limit, |rows|));
      Ok(ConnectionOf(code, lo, |rows|, rows[lo..hi]))
  }

  /** What a client reads from a connection fits the rows it was made from. */
  ghost predicate FitsRows<T>(code: Code, c: Connection<T>, rows: seq<T>) {
    && c.totalCount == |rows|
    && (forall i :: 0 <= i < |c.edges| ==> c.edges[i].offset < |rows| && rows[c.edges[i].offset] == c.edges[i].node)
    && (forall i :: 0 <= i < |c.edges| ==> c.edges[i].offset == c.edges[0].offset + i)
    && c.pageInfo == if c.edges == [] then PageInfo(None, None, false, false)
                     else var first, last := c.edges[0].offset, c.edges[|c.edges| - 1].offset;
                          PageInfo(Some(code.encode(first)), Some(code.encode(last)), last + 1 < |rows|, 0 < first)
  }

  lemma ConnectionFits<T>(code: Code, rows: seq<T>, lo: nat, hi: nat)
    requires lo <= hi <= |rows|
    ensures FitsRows(code, ConnectionOf(code, lo, |rows|, rows[lo..hi]), rows)
  {
    var c := ConnectionOf(code, lo, |rows|, rows[lo..hi]);
    assert forall i :: 0 <= i < |c.edges| ==> c.edges[i] == Edge(rows[lo + i], lo + i);
  }

  /** Of every request that is answered: each edge carries the position of its node among the rows, the positions are
      consecutive, the total is that of the rows, and the page info names the first and the last edge and says whether
      rows come after and before them. */
  lemma FetchFitsRows<T>(code: Code, rows: seq<T>, first: Option<int>, last: Option<int>, after: Option<string>,
                         before: Option<string>)
    ensures var r := Fetch(code, rows, first, last, after, before); r.Ok? ==> FitsRows(code, r.value, rows)
  {
    match ComputePage(code, first, last, after, before, |rows|)
    case Err(_) =>
    case Ok(w) =>
      var lo := Max(0, Min(w.offset, |rows|));
      ConnectionFits(code, rows, lo, Max(lo, Min(w.offset + w.limit, |rows|)));
  }

  /** Asking after the cursor of the row at position k, which every edge with that row carries, returns the rows that
      follow it, as many as asked for. */
  lemma AfterCursor<T>(code: Code, rows: seq<T>, k: nat, n: nat)
    requires Sound(code) && |rows| <= MAX_INT && k < |rows|
    ensures var next := Fetch(code, rows, Some(n), None, Some(code.encode(k)), None);
            next.Ok? && Nodes(next.value) == rows[k + 1..Min(k + 1 + n, |rows|)]
  {
    assert ComputePage(code, Some(n), None, Some(code.encode(k)), None, |rows|) ==
           Ok(Window(k + 1, Min(n, |rows| - (k + 1))));
    NodesOfConnection(code, k + 1, |rows|, rows[k + 1..Min(k + 1 + n, |rows|)]);
  }

  /** Asking before it returns the rows that precede it, when there are as many as asked for. */
  lemma BeforeCursor<T>(code: Code, rows: seq<T>, k: nat, n: nat)
    requires Sound(code) && |rows| <= MAX_INT && k < |rows| && n <= k
    ensures var previous := Fetch(code, rows, None, Some(n), None, Some(code.encode(k)));
            previous.Ok? && Nodes(previous.value) == rows[k - n..k]
  {
    assert ComputePage(code, None, Some(n), None, Some(code.encode(k)), |rows|) == Ok(Window(k - n, n));
    NodesOfConnection(code, k - n, |rows|, rows[k - n..k]);
  }

  /** Which error a refused request gets: directions before sizes, sizes before cursors. */
  lemma RefusalsAreNamed(code: Code, first: Option<int>, last: Option<int>, after: Option<string>,
                         before: Option<string>, total: nat)
    ensures var r := ComputePage(code, first, last, after, before, total);
            && (r == Err(MixedPagination) <==> (first.Some? || after.Some?) && (last.Some? || before.Some?))
            && (r == Err(InvalidLimit) <==>
                  || (first.Some? && first.value < 0 && last.None? && before.None?)
                  || (last.Some? && last.value < 0 && first.None? && after.None?))
            && (forall e :: r == Err(BadCursor(e)) <==>
                  || (last.None? && before.None? && (first.Some? ==> first.value >= 0) && after.Some? &&
                      code.decode(after.value, total) == Err(e))
                  || (first.None? && after.None? && (last.Some? ==> last.value >= 0) && before.Some? &&
                      code.decode(before.value, total) == Err(e)))
  {
  }
}
