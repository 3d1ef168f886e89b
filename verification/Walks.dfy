/** What a client sees that follows the cursors from page to page. */
module Walks {
  import opened Wrappers
  import opened Arithmetic
  import opened Cursor
  import opened Pagination

  function Flatten<T>(pieces: seq<seq<T>>): seq<T> {
    if pieces == [] then [] else pieces[0] + Flatten(pieces[1..])
  }

  function AllNodes<T>(pages: seq<Connection<T>>): seq<T> {
    if pages == [] then [] else Nodes(pages[0]) + AllNodes(pages[1..])
  }

  // ---------- Arithmetic of pages ----------

  /** The number of pages of a given size that hold a total. */
  function PagesNeeded(total: nat, size: nat): nat
    requires size >= 1
  {
    if total == 0 then 0 else if total <= size then 1 else 1 + PagesNeeded(total - size, size)
  }

  lemma DivideStep(b: nat, n: nat)
    requires 1 <= n <= b
    ensures b / n == 1 + (b - n) / n && (b - n) % n == b % n
  {
    assert b == n * (b / n) + b % n;
    MultiplyMonotone(n, b / n, 0);
    assert n * (b / n - 1) == n * (b / n) - n;
    DivideExactly(n, b / n - 1, b % n);
  }

  /** The number of pages is the quotient rounded up. */
  lemma {:induction false} PagesNeededIsCeiling(total: nat, size: nat)
    requires size >= 1
    ensures PagesNeeded(total, size) == (total + size - 1) / size
  {
    if total == 0 {
      DivideExactly(size, 0, size - 1);
    } else if total <= size {
      DivideExactly(size, 1, total - 1);
    } else {
      PagesNeededIsCeiling(total - size, size);
      DivideStep(total + size - 1, size);
    }
  }

  lemma RemainderAtMost(total: nat, n: nat)
    requires n >= 1
    ensures total % n <= total && total % n < n
  {
    assert total == n * (total / n) + total % n;
    MultiplyMonotone(n, 0, total / n);
  }

  // ---------- Walking forward ----------

  /** How the server answers a request that names a cursor, or none, over the rows as they are then. */
  type Server<!T> = (seq<T>, Option<string>) -> Result<Connection<T>, PageError>

  function ForwardServer<T>(code: Code, first: int): Server<T> {
    (rows: seq<T>, after: Option<string>) => Fetch(code, rows, Some(first), None, after, None)
  }

  /** A client follows endCursor while hasNextPage; each request finds the rows of the query as they are at that moment.
      An error ends the walk. */
  function ForwardWalk<T>(server: Server<T>, tables: seq<seq<T>>, after: Option<string>): seq<Connection<T>>
    decreases |tables|
  {
    if tables == [] then []
    else
      match server(tables[0], after)
      case Err(_) => []
      case Ok(c) => [c] + if c.pageInfo.hasNextPage then ForwardWalk(server, tables[1..], c.pageInfo.endCursor) else []
  }

  /** Between two requests rows are only added behind the existing ones. */
  ghost predicate Growing<T>(tables: seq<seq<T>>) {
    && (forall i, j :: 0 <= i <= j < |tables| ==> tables[i] <= tables[j])
    && (forall i :: 0 <= i < |tables| ==> |tables[i]| <= MAX_INT)
  }

  lemma GrowingTail<T>(tables: seq<seq<T>>)
    requires Growing(tables) && |tables| > 1
    ensures Growing(tables[1..]) && tables[0] <= tables[1..][0]
  {
    forall i, j | 0 <= i <= j < |tables[1..]| ensures tables[1..][i] <= tables[1..][j] {
      assert tables[i + 1] <= tables[j + 1];
    }
  }

  /** Between two requests the list does not get shorter. */
  ghost predicate Lengthening<T>(tables: seq<seq<T>>) {
    && (forall i, j :: 0 <= i <= j < |tables| ==> |tables[i]| <= |tables[j]|)
    && (forall i :: 0 <= i < |tables| ==> |tables[i]| <= MAX_INT)
  }

  lemma LengtheningTail<T>(tables: seq<seq<T>>)
    requires Lengthening(tables) && |tables| > 1
    ensures Lengthening(tables[1..]) && |tables[0]| <= |tables[1..][0]|
  {
    forall i, j | 0 <= i <= j < |tables[1..]| ensures |tables[1..][i]| <= |tables[1..][j]| {
      assert |tables[i + 1]| <= |tables[j + 1]|;
    }
  }

  lemma GrowingIsLengthening<T>(tables: seq<seq<T>>)
    requires Growing(tables)
    ensures Lengthening(tables)
  {
    forall i, j | 0 <= i <= j < |tables| ensures |tables[i]| <= |tables[j]| { assert tables[i] <= tables[j]; }
  }

  /** The position p from which the next page starts: the beginning, or directly after the cursor. */
  ghost predicate StartsAt<T>(code: Code, rows: seq<T>, after: Option<string>, p: nat) {
    if p == 0 then after.None? else p < |rows| && after == Some(code.encode(p - 1))
  }

  /** The rows of the pages of a walk that starts at position p. */
  function ForwardPieces<T>(tables: seq<seq<T>>, first: nat, p: nat): seq<seq<T>>
    decreases |tables|
  {
    if tables == [] || p > |tables[0]| then []
    else
      var q := Min(p + first, |tables[0]|);
      [tables[0][p..q]] + if q < |tables[0]| then ForwardPieces(tables[1..], first, q) else []
  }

  /** The page from position p: its rows, whether more follow, and a cursor from which they do. */
  ghost predicate ForwardAnswer<T>(code: Code, r: Result<Connection<T>, PageError>, rows: seq<T>, p: nat, first: nat) {
    var q := Min(p + first, |rows|);
    && r.Ok? && p <= q
    && Nodes(r.value) == rows[p..q]
    && (r.value.pageInfo.hasNextPage <==> q < |rows|)
    && (q < |rows| ==> StartsAt(code, rows, r.value.pageInfo.endCursor, q))
  }

  ghost predicate AnswersForward<T(!new)>(code: Code, server: Server<T>, first: nat) {
    forall rows: seq<T>, after, p: nat {:trigger ForwardAnswer(code, server(rows, after), rows, p, first)} ::
      |rows| <= MAX_INT && StartsAt(code, rows, after, p) ==>
      ForwardAnswer(code, server(rows, after), rows, p, first)
  }

  lemma FetchAnswersForward<T(!new)>(code: Code, first: nat)
    requires Sound(code) && first >= 1
    ensures AnswersForward<T>(code, ForwardServer(code, first), first)
  {
    forall rows: seq<T>, after, p: nat | |rows| <= MAX_INT && StartsAt(code, rows, after, p)
      ensures ForwardAnswer(code, ForwardServer(code, first)(rows, after), rows, p, first)
    {
      NodesOfConnection(code, p, |rows|, rows[p..Min(p + first, |rows|)]);
    }
  }

  lemma PiecesStep<T>(tables: seq<seq<T>>, first: nat, p: nat)
    requires tables != [] && p <= |tables[0]|
    ensures var rows, pieces := tables[0], ForwardPieces(tables, first, p);
            var q := Min(p + first, |rows|);
            && 0 < |pieces| && pieces[0] == rows[p..q]
            && pieces[1..] == if q < |rows| then ForwardPieces(tables[1..], first, q) else []
  {
  }

  lemma {:induction false} ForwardWalkPieces<T(!new)>(code: Code, server: Server<T>, tables: seq<seq<T>>, first: nat,
                                                      after: Option<string>, p: nat)
    requires AnswersForward(code, server, first)
    requires Lengthening(tables) && tables != [] && StartsAt(code, tables[0], after, p)
    ensures var pages, pieces := ForwardWalk(server, tables, after), ForwardPieces(tables, first, p);
            && |pages| == |pieces| > 0
            && AllNodes(pages) == Flatten(pieces)
            && |pieces| <= |tables|
            && (pages[|pages| - 1].pageInfo.hasNextPage <==> p + |Flatten(pieces)| < |tables[|pieces| - 1]|)
    decreases |tables|
  {
    var rows := tables[0];
    var q := Min(p + first, |rows|);
    assert ForwardAnswer(code, server(rows, after), rows, p, first);
    var c := server(rows, after).value;
    PiecesStep(tables, first, p);
    if q < |rows| {
      var rest := ForwardWalk(server, tables[1..], c.pageInfo.endCursor);
      assert ([c] + rest)[1..] == rest;
      if |tables| > 1 {
        LengtheningTail(tables);
        ForwardWalkPieces(code, server, tables[1..], first, c.pageInfo.endCursor, q);
      }
    } else {
      assert ([c] + [])[1..] == [];
    }
  }

  lemma SlicesJoin<T>(rows: seq<T>, last: seq<T>, p: nat, q: nat, m: nat)
    requires rows <= last && p <= q <= |rows| && q <= m <= |last|
    ensures rows[p..q] + last[q..m] == last[p..m]
  {
  }

  lemma {:induction false} ForwardPiecesJoin<T>(tables: seq<seq<T>>, first: nat, p: nat)
    requires first >= 1 && Growing(tables) && tables != [] && p <= |tables[0]|
    ensures var pieces := ForwardPieces(tables, first, p);
            && 0 < |pieces| <= |tables|
            && var rows, end := tables[|pieces| - 1], p + |Flatten(pieces)|;
            && end <= |rows| && Flatten(pieces) == rows[p..end]
            && (end < |rows| ==> |pieces| == |tables|)
    decreases |tables|
  {
    var rows := tables[0];
    var q := Min(p + first, |rows|);
    var pieces := ForwardPieces(tables, first, p);
    PiecesStep(tables, first, p);
    if q < |rows| && |tables| > 1 {
      var more := ForwardPieces(tables[1..], first, q);
      GrowingTail(tables);
      ForwardPiecesJoin(tables[1..], first, q);
      assert pieces == [rows[p..q]] + more;
      JoinPiece(tables, p, q, more);
    } else {
      assert pieces[1..] == [];
      assert Flatten(pieces) == rows[p..q] + [];
    }
  }

  /** A piece in front of pieces that are joined already. */
  lemma JoinPiece<T>(tables: seq<seq<T>>, p: nat, q: nat, more: seq<seq<T>>)
    requires Growing(tables) && 0 < |more| < |tables| && p <= q <= |tables[0]|
    requires q + |Flatten(more)| <= |tables[|more|]| && Flatten(more) == tables[|more|][q..q + |Flatten(more)|]
    ensures var pieces := [tables[0][p..q]] + more;
            p + |Flatten(pieces)| == q + |Flatten(more)| && Flatten(pieces) == tables[|more|][p..p + |Flatten(pieces)|]
  {
    var pieces := [tables[0][p..q]] + more;
    assert pieces[1..] == more;
    assert tables[0] <= tables[|more|];
    SlicesJoin(tables[0], tables[|more|], p, q, q + |Flatten(more)|);
  }

  /** Over a table that does not change, a walk that is given enough requests reaches the end, in as many pages as the
      remaining rows need. */
  lemma {:induction false} ForwardPiecesCount<T>(rows: seq<T>, first: nat, p: nat, polls: nat)
    requires first >= 1 && p <= |rows| && polls >= 1 && polls >= PagesNeeded(|rows| - p, first)
    ensures var pieces := ForwardPieces(seq(polls, _ => rows), first, p);
            && |pieces| == (if p == |rows| then 1 else PagesNeeded(|rows| - p, first))
            && p + |Flatten(pieces)| == |rows|
    decreases polls
  {
    var tables := seq(polls, _ => rows);
    var q := Min(p + first, |rows|);
    if q < |rows| {
      assert tables[1..] == seq(polls - 1, _ => rows);
      ForwardPiecesCount(rows, first, q, polls - 1);
      var more := ForwardPieces(tables[1..], first, q);
      assert ([rows[p..q]] + more)[1..] == more;
    } else {
      assert [rows[p..q]] + [] == [rows[p..q]] && [rows[p..q]][1..] == [];
      assert Flatten([rows[p..q]]) == rows[p..q] + [];
    }
  }

  /** Walking forward while rows are added at the end, the pages joined are the beginning of the rows that the last page
      saw, without a gap or a repetition; when the walk ends by itself they are all of those rows. */
  lemma ForwardWalkNeverSkips<T(!new)>(code: Code, tables: seq<seq<T>>, first: nat)
    requires Sound(code) && first >= 1 && Growing(tables) && tables != []
    ensures var pages := ForwardWalk(ForwardServer(code, first), tables, None);
            && 0 < |pages| <= |tables|
            && AllNodes(pages) <= tables[|pages| - 1]
            && (!pages[|pages| - 1].pageInfo.hasNextPage ==> AllNodes(pages) == tables[|pages| - 1])
            && (pages[|pages| - 1].pageInfo.hasNextPage ==> |pages| == |tables|)
  {
    FetchAnswersForward<T>(code, first);
    GrowingIsLengthening(tables);
    ForwardWalkPieces(code, ForwardServer(code, first), tables, first, None, 0);
    ForwardPiecesJoin(tables, first, 0);
  }

  function Images<T, U>(f: T -> U, rows: seq<T>): (r: seq<U>)
    ensures |r| == |rows| && forall i :: 0 <= i < |rows| ==> r[i] == f(rows[i])
  {
    seq(|rows|, i requires 0 <= i < |rows| => f(rows[i]))
  }

  ghost predicate AreImages<T, U>(f: T -> U, lists: seq<seq<T>>, images: seq<seq<U>>) {
    |images| == |lists| && forall i :: 0 <= i < |lists| ==> images[i] == Images(f, lists[i])
  }

  lemma ImagesJoin<T, U>(f: T -> U, a: seq<T>, b: seq<T>)
    ensures Images(f, a + b) == Images(f, a) + Images(f, b)
  {
  }

  lemma ImagesTail<T, U>(f: T -> U, lists: seq<seq<T>>, images: seq<seq<U>>)
    requires AreImages(f, lists, images) && lists != []
    ensures AreImages(f, lists[1..], images[1..]) && images[0] == Images(f, lists[0])
  {
  }

  lemma {:induction false} PiecesImages<T, U>(f: T -> U, lists: seq<seq<T>>, images: seq<seq<U>>, first: nat, p: nat)
    requires AreImages(f, lists, images) && Lengthening(lists) && (lists != [] ==> p <= |lists[0]|)
    ensures var pieces, pieces' := ForwardPieces(lists, first, p), ForwardPieces(images, first, p);
            |pieces'| == |pieces| && Flatten(pieces') == Images(f, Flatten(pieces))
    decreases |lists|
  {
    if lists != [] {
      var q := Min(p + first, |lists[0]|);
      var pieces := ForwardPieces(lists, first, p);
      PiecesStep(lists, first, p);
      PiecesStep(images, first, p);
      ImagesTail(f, lists, images);
      if q < |lists[0]| {
        if |lists| > 1 { LengtheningTail(lists); }
        PiecesImages(f, lists[1..], images[1..], first, q);
      }
      assert images[0][p..q] == Images(f, lists[0][p..q]);
      ImagesJoin(f, pieces[0], Flatten(pieces[1..]));
    }
  }

  /** The same walk over lists of which only images are known to grow at the end: the images of the pages joined are the
      beginning of the images that the last page saw, and all of them when the walk ends by itself. */
  lemma ForwardWalkNeverSkipsImages<T(!new), U>(code: Code, f: T -> U, lists: seq<seq<T>>, images: seq<seq<U>>,
                                                first: nat)
    requires Sound(code) && first >= 1 && lists != [] && Growing(images)
    requires AreImages(f, lists, images)
    ensures var pages := ForwardWalk(ForwardServer(code, first), lists, None);
            && 0 < |pages| <= |lists|
            && var all := Images(f, AllNodes(pages));
            && all <= images[|pages| - 1]
            && (if pages[|pages| - 1].pageInfo.hasNextPage then |pages| == |lists| else all == images[|pages| - 1])
  {
    assert Lengthening(lists) by {
      forall i, j | 0 <= i <= j < |lists| ensures |lists[i]| <= |lists[j]| { assert images[i] <= images[j]; }
      forall i | 0 <= i < |lists| ensures |lists[i]| <= MAX_INT { assert |images[i]| <= MAX_INT; }
    }
    FetchAnswersForward<T>(code, first);
    ForwardWalkPieces(code, ForwardServer(code, first), lists, first, None, 0);
    PiecesImages(f, lists, images, first, 0);
    ForwardPiecesJoin(images, first, 0);
  }

  lemma SameLengthImages<T>(lists: seq<seq<T>>, n: nat)
    requires n <= MAX_INT && forall i :: 0 <= i < |lists| ==> |lists[i]| == n
    ensures Lengthening(lists)
    ensures AreImages((x: T) => (), lists, seq(|lists|, _ => seq(n, _ => ())))
  {
  }

  lemma SameLengthPieces<T>(lists: seq<seq<T>>, n: nat, first: nat)
    requires first >= 1 && n <= MAX_INT && lists != [] && |lists| >= PagesNeeded(n, first)
    requires forall i :: 0 <= i < |lists| ==> |lists[i]| == n
    ensures var pieces := ForwardPieces(lists, first, 0);
            |pieces| == (if n == 0 then 1 else PagesNeeded(n, first)) && |Flatten(pieces)| == n
  {
    var rows := seq(n, _ => ());
    SameLengthImages(lists, n);
    PiecesImages((x: T) => (), lists, seq(|lists|, _ => rows), first, 0);
    ForwardPiecesCount(rows, first, 0, |lists|);
  }

  /** When every request gets a list of the same length, whatever its rows, the walk ends by itself in
      ceil(total / first) pages; an empty list takes one empty page. */
  lemma ForwardWalkTakesPagesNeeded<T(!new)>(code: Code, lists: seq<seq<T>>, n: nat, first: nat)
    requires Sound(code) && first >= 1 && n <= MAX_INT && lists != [] && |lists| >= PagesNeeded(n, first)
    requires forall i :: 0 <= i < |lists| ==> |lists[i]| == n
    ensures var pages := ForwardWalk(ForwardServer(code, first), lists, None);
            && |pages| == (if n == 0 then 1 else PagesNeeded(n, first))
            && !pages[|pages| - 1].pageInfo.hasNextPage
            && |AllNodes(pages)| == n
  {
    SameLengthImages(lists, n);
    SameLengthPieces(lists, n, first);
    FetchAnswersForward<T>(code, first);
    ForwardWalkPieces(code, ForwardServer(code, first), lists, first, None, 0);
  }

  /** Over a table that does not change, the walk returns every row exactly once, in ceil(total / first) pages; an empty
      table takes one empty page. */
  lemma ForwardWalkReturnsEachRowOnce<T(!new)>(code: Code, rows: seq<T>, first: nat, polls: nat)
    requires Sound(code) && first >= 1 && |rows| <= MAX_INT && polls >= 1 && polls >= PagesNeeded(|rows|, first)
    ensures var pages := ForwardWalk(ForwardServer(code, first), seq(polls, _ => rows), None);
            && AllNodes(pages) == rows
            && |pages| == (if rows == [] then 1 else PagesNeeded(|rows|, first))
  {
    var tables := seq(polls, _ => rows);
    FetchAnswersForward<T>(code, first);
    GrowingIsLengthening(tables);
    ForwardWalkPieces(code, ForwardServer(code, first), tables, first, None, 0);
    ForwardPiecesJoin(tables, first, 0);
    ForwardPiecesCount(rows, first, 0, polls);
  }

  // ---------- Walking backward ----------

  function BackwardServer<T>(code: Code, n: int): Server<T> {
    (rows: seq<T>, before: Option<string>) => Fetch(code, rows, None, Some(n), None, before)
  }

  /** A client follows startCursor while hasPreviousPage, at most `polls` times. */
  function BackwardWalk<T>(server: Server<T>, rows: seq<T>, before: Option<string>, polls: nat): seq<Connection<T>>
    decreases polls
  {
    if polls == 0 then []
    else
      match server(rows, before)
      case Err(_) => []
      case Ok(c) =>
        [c] + if c.pageInfo.hasPreviousPage then BackwardWalk(server, rows, c.pageInfo.startCursor, polls - 1) else []
  }

  /** The pages joined in table order: the last page fetched comes first. */
  function AllNodesReversed<T>(pages: seq<Connection<T>>): seq<T> {
    if pages == [] then [] else AllNodesReversed(pages[1..]) + Nodes(pages[0])
  }

  /** The rows before position b are still to come. */
  ghost predicate EndsAt<T>(code: Code, rows: seq<T>, before: Option<string>, b: nat) {
    if b == |rows| then before.None? else b < |rows| && before == Some(code.encode(b))
  }

  /** What a backward walk from position b returns: whole pages before b, and a first page of the table that is as long
      as any other. */
  function BackwardNodes<T>(rows: seq<T>, n: nat, b: nat): seq<T>
    requires n >= 1 && b <= |rows|
  {
    if b > n then BackwardNodes(rows, n, b - n) + rows[b - n..b] else rows[..Min(n, |rows|)]
  }

  /** The same in closed form: the rows up to b, but when the first page would be a short one it is filled up with rows
      that were already returned. */
  lemma {:induction false} BackwardNodesClosed<T>(rows: seq<T>, n: nat, b: nat)
    requires n >= 1 && 0 < b <= |rows| && (|rows| < n ==> b == |rows|)
    ensures b % n <= b
    ensures BackwardNodes(rows, n, b) == if b % n == 0 || |rows| < n then rows[..b] else rows[..n] + rows[b % n..b]
  {
    RemainderAtMost(b, n);
    if b > n {
      BackwardNodesClosed(rows, n, b - n);
      DivideStep(b, n);
      var r := b % n;
      RemainderAtMost(b - n, n);
      SlicesJoin(rows, rows, 0, b - n, b);
      SlicesJoin(rows, rows, r, b - n, b);
      assert rows[0..b - n] == rows[..b - n] && rows[0..b] == rows[..b];
    } else if b == n {
      DivideExactly(n, 1, 0);
    } else {
      DivideExactly(n, 0, b);
    }
  }

  /** The page that ends at position b, or reaches past it when it is the first of the table. */
  ghost predicate BackwardAnswer<T>(code: Code, r: Result<Connection<T>, PageError>, rows: seq<T>, b: nat, n: nat) {
    var lo := Max(0, b - n);
    var hi := Min(lo + n, |rows|);
    && r.Ok? && lo <= hi
    && Nodes(r.value) == rows[lo..hi]
    && (r.value.pageInfo.hasPreviousPage <==> b > n)
    && (b > n ==> hi == b && EndsAt(code, rows, r.value.pageInfo.startCursor, b - n))
  }

  ghost predicate AnswersBackward<T(!new)>(code: Code, server: Server<T>, n: nat) {
    forall rows: seq<T>, before, b: nat {:trigger BackwardAnswer(code, server(rows, before), rows, b, n)} ::
      |rows| <= MAX_INT && 0 < b && EndsAt(code, rows, before, b) ==>
      BackwardAnswer(code, server(rows, before), rows, b, n)
  }

  lemma FetchAnswersBackward<T(!new)>(code: Code, n: nat)
    requires Sound(code) && n >= 1
    ensures AnswersBackward<T>(code, BackwardServer(code, n), n)
  {
    forall rows: seq<T>, before, b: nat | |rows| <= MAX_INT && 0 < b && EndsAt(code, rows, before, b)
      ensures BackwardAnswer(code, BackwardServer(code, n)(rows, before), rows, b, n)
    {
      var lo := Max(0, b - n);
      NodesOfConnection(code, lo, |rows|, rows[lo..Min(lo + n, |rows|)]);
    }
  }

  lemma BackwardWalkStep<T>(server: Server<T>, rows: seq<T>, before: Option<string>, polls: nat, c: Connection<T>)
    requires polls > 0 && server(rows, before) == Ok(c)
    ensures var pages := BackwardWalk(server, rows, before, polls);
            var rest := if c.pageInfo.hasPreviousPage
                        then BackwardWalk(server, rows, c.pageInfo.startCursor, polls - 1)
                        else [];
            |pages| == 1 + |rest| && AllNodesReversed(pages) == AllNodesReversed(rest) + Nodes(c)
  {
    var rest := if c.pageInfo.hasPreviousPage
                then BackwardWalk(server, rows, c.pageInfo.startCursor, polls - 1)
                else [];
    assert ([c] + rest)[1..] == rest;
  }

  lemma {:induction false} BackwardWalkFrom<T(!new)>(code: Code, server: Server<T>, rows: seq<T>, n: nat,
                                                     before: Option<string>, b: nat, polls: nat)
    requires AnswersBackward(code, server, n) && n >= 1 && |rows| <= MAX_INT && 0 < b && EndsAt(code, rows, before, b)
    requires polls >= PagesNeeded(b, n)
    ensures var pages := BackwardWalk(server, rows, before, polls);
            AllNodesReversed(pages) == BackwardNodes(rows, n, b) && |pages| == PagesNeeded(b, n)
    decreases polls
  {
    assert BackwardAnswer(code, server(rows, before), rows, b, n);
    var c := server(rows, before).value;
    BackwardWalkStep(server, rows, before, polls, c);
    if b > n {
      BackwardWalkFrom(code, server, rows, n, c.pageInfo.startCursor, b - n, polls - 1);
    } else {
      assert [] + Nodes(c) == Nodes(c);
    }
  }

  /** What a backward walk over some rows returns, joined in table order. */
  function BackwardResult<T>(rows: seq<T>, n: nat): seq<T>
    requires n >= 1
  {
    RemainderAtMost(|rows|, n);
    if |rows| % n == 0 || |rows| < n then rows else rows[..n] + rows[|rows| % n..]
  }

  lemma BackwardResultIsWalk<T>(rows: seq<T>, n: nat)
    requires n >= 1 && rows != []
    ensures BackwardNodes(rows, n, |rows|) == BackwardResult(rows, n)
  {
    BackwardNodesClosed(rows, n, |rows|);
    assert rows[..|rows|] == rows;
  }

  /** A backward walk ends after ceil(total / n) pages and covers every row; an empty table takes one empty page. It
      repeats rows only when the total is no multiple of n and at least n: then the last page fetched returns
      n - total mod n rows a second time. */
  lemma BackwardWalkRepeats<T(!new)>(code: Code, rows: seq<T>, n: nat, polls: nat)
    requires Sound(code) && n >= 1 && |rows| <= MAX_INT && polls >= 1 && polls >= PagesNeeded(|rows|, n)
    ensures var pages := BackwardWalk(BackwardServer(code, n), rows, None, polls);
            && |pages| == (if rows == [] then 1 else PagesNeeded(|rows|, n))
            && AllNodesReversed(pages) == BackwardResult(rows, n)
  {
    if rows == [] {
      BackwardWalkOverNothing<T>(code, n, polls);
    } else {
      FetchAnswersBackward<T>(code, n);
      BackwardWalkFrom(code, BackwardServer(code, n), rows, n, None, |rows|, polls);
      BackwardResultIsWalk(rows, n);
    }
  }

  /** The number of rows that a backward walk returns a second time. */
  lemma BackwardRepeats<T>(rows: seq<T>, n: nat)
    requires n >= 1
    ensures |BackwardResult(rows, n)| - |rows| == if |rows| < n then 0 else (n - |rows| % n) % n
  {
    RemainderAtMost(|rows|, n);
    if |rows| % n == 0 {
      DivideExactly(n, 1, 0);
    } else {
      DivideExactly(n, 0, n - |rows| % n);
    }
  }

  lemma BackwardWalkOverNothing<T(!new)>(code: Code, n: nat, polls: nat)
    requires n >= 1 && polls >= 1
    ensures var pages := BackwardWalk<T>(BackwardServer(code, n), [], None, polls);
            |pages| == 1 && AllNodesReversed(pages) == []
  {
    NodesOfConnection<T>(code, 0, 0, []);
    var c := ConnectionOf<T>(code, 0, 0, []);
    BackwardWalkStep(BackwardServer(code, n), [], None, polls, c);
  }
}
