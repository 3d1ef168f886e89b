/** Whole runs of the synchronizer against feeds that grow at their ends. */
module SyncRuns {
  import opened Wrappers
  import opened Repository
  import opened Database
  import opened Synchronizer

  // ---------- The feeds and what the server answers ----------

  datatype Item<E> = Item(cursor: string, edge: E)

  datatype Feeds = Feeds(outputs: seq<Item<OutputEdge>>, inputs: seq<Item<InputEdge>>, reports: seq<Item<ReportEdge>>)

  /** A point in the three feeds: how many edges of each come before it. */
  datatype Cut = Cut(outputs: nat, inputs: nat, reports: nat)

  const START := Cut(0, 0, 0)

  ghost predicate ValidFeed<E>(f: seq<Item<E>>) {
    && (forall i :: 0 <= i < |f| ==> f[i].cursor != "")
    && (forall i, j :: 0 <= i < j < |f| ==> f[i].cursor != f[j].cursor)
  }

  ghost predicate Valid(fs: Feeds) { ValidFeed(fs.outputs) && ValidFeed(fs.inputs) && ValidFeed(fs.reports) }

  predicate Grows(fs: Feeds, gs: Feeds) {
    fs.outputs <= gs.outputs && fs.inputs <= gs.inputs && fs.reports <= gs.reports
  }

  predicate Within(c: Cut, fs: Feeds) {
    c.outputs <= |fs.outputs| && c.inputs <= |fs.inputs| && c.reports <= |fs.reports|
  }

  predicate UpTo(a: Cut, b: Cut) { a.outputs <= b.outputs && a.inputs <= b.inputs && a.reports <= b.reports }

  function CursorAt<E>(f: seq<Item<E>>, p: nat): string
    requires p <= |f|
  {
    if p == 0 then "" else f[p - 1].cursor
  }

  function CursorsAt(fs: Feeds, c: Cut): Cursors
    requires Within(c, fs)
  {
    Cursors(CursorAt(fs.outputs, c.outputs), CursorAt(fs.inputs, c.inputs), CursorAt(fs.reports, c.reports))
  }

  function Edges<E>(f: seq<Item<E>>): (es: seq<E>)
    ensures |es| == |f| && forall i :: 0 <= i < |f| ==> es[i] == f[i].edge
  {
    seq(|f|, i requires 0 <= i < |f| => f[i].edge)
  }

  function PageBetween<E>(f: seq<Item<E>>, from: nat, to: nat): Page<E>
    requires from <= to <= |f|
  {
    Page(Edges(f[from..to]), if from == to then "" else f[to - 1].cursor)
  }

  function Between(fs: Feeds, from: Cut, to: Cut): Response
    requires UpTo(from, to) && Within(to, fs)
  {
    Response(PageBetween(fs.outputs, from.outputs, to.outputs),
             PageBetween(fs.inputs, from.inputs, to.inputs),
             PageBetween(fs.reports, from.reports, to.reports))
  }

  /** The server answers a query `after: c` with some edges that directly follow the edge of cursor c. */
  ghost predicate Serves<E>(f: seq<Item<E>>, c: string, page: Page<E>) {
    exists from, to :: 0 <= from <= to <= |f| && c == CursorAt(f, from) && page == PageBetween(f, from, to)
  }

  ghost predicate Served(fs: Feeds, c: Cursors, r: Response) {
    Serves(fs.outputs, c.outputs, r.outputs) && Serves(fs.inputs, c.inputs, r.inputs) &&
        Serves(fs.reports, c.reports, r.reports)
  }

  lemma CursorsDetermineCut(fs: Feeds, a: Cut, b: Cut)
    requires Valid(fs) && Within(a, fs) && Within(b, fs)
    ensures CursorsAt(fs, a) == CursorsAt(fs, b) <==> a == b
  {
  }

  lemma BetweenMoves(fs: Feeds, from: Cut, to: Cut)
    requires Valid(fs) && UpTo(from, to) && Within(to, fs)
    ensures EndCursors(CursorsAt(fs, from), Between(fs, from, to)) == CursorsAt(fs, to)
    ensures More(Between(fs, from, to)) <==> from != to
  {
  }

  lemma ServedBetween(fs: Feeds, from: Cut, r: Response) returns (to: Cut)
    requires Valid(fs) && Within(from, fs) && Served(fs, CursorsAt(fs, from), r)
    ensures UpTo(from, to) && Within(to, fs) && r == Between(fs, from, to)
    ensures EndCursors(CursorsAt(fs, from), r) == CursorsAt(fs, to)
    ensures More(r) <==> from != to
  {
    var fo, o :| 0 <= fo <= o <= |fs.outputs| && CursorAt(fs.outputs, from.outputs) == CursorAt(fs.outputs, fo) &&
        r.outputs == PageBetween(fs.outputs, fo, o);
    var fi, i :| 0 <= fi <= i <= |fs.inputs| && CursorAt(fs.inputs, from.inputs) == CursorAt(fs.inputs, fi) &&
        r.inputs == PageBetween(fs.inputs, fi, i);
    var fr, p :| 0 <= fr <= p <= |fs.reports| && CursorAt(fs.reports, from.reports) == CursorAt(fs.reports, fr) &&
        r.reports == PageBetween(fs.reports, fr, p);
    CursorsDetermineCut(fs, from, Cut(fo, fi, fr));
    to := Cut(o, i, p);
    BetweenMoves(fs, from, to);
  }

  // ---------- Faults decide whether a batch is handled, not what it does ----------

  function Calls(r: Response): nat { |r.outputs.edges| + |r.inputs.edges| + |r.reports.edges| + 1 }

  lemma {:induction false} OutputsIgnoreFaults(db: Db, es: seq<OutputEdge>, io: nat, io': nat)
    requires HandleOutputs(db, es, io).ok && io' >= |es|
    ensures HandleOutputs(db, es, io') == Handled(HandleOutputs(db, es, io).db, io' - |es|, true)
    decreases |es|
  {
    if es != [] { OutputsIgnoreFaults(HandleOutput(db, es[0], io).db, es[1..], io - 1, io' - 1); }
  }

  lemma {:induction false} InputsIgnoreFaults(db: Db, es: seq<InputEdge>, io: nat, io': nat)
    requires HandleInputs(db, es, io).ok && io' >= |es|
    ensures HandleInputs(db, es, io') == Handled(HandleInputs(db, es, io).db, io' - |es|, true)
    decreases |es|
  {
    if es != [] { InputsIgnoreFaults(HandleInput(db, es[0], io).db, es[1..], io - 1, io' - 1); }
  }

  lemma {:induction false} ReportsIgnoreFaults(db: Db, es: seq<ReportEdge>, io: nat, io': nat)
    requires HandleReports(db, es, io).ok && io' >= |es|
    ensures HandleReports(db, es, io') == Handled(HandleReports(db, es, io).db, io' - |es|, true)
    decreases |es|
  {
    if es != [] { ReportsIgnoreFaults(HandleReport(db, es[0], io).db, es[1..], io - 1, io' - 1); }
  }

  lemma EdgesInThree(db: Db, r: Response, io: nat, o: Handled, i: Handled)
    requires o == HandleOutputs(db, r.outputs.edges, io) && o.ok
    requires i == HandleInputs(o.db, r.inputs.edges, o.io) && i.ok
    ensures HandleEdges(db, r, io) == HandleReports(i.db, r.reports.edges, i.io)
  {
  }

  lemma EdgesIgnoreFaults(db: Db, r: Response, io: nat)
    requires HandleEdges(db, r, io).ok
    ensures HandleEdges(db, r, Calls(r)) == Handled(HandleEdges(db, r, io).db, 1, true)
  {
    var n, m := |r.outputs.edges|, |r.inputs.edges|;
    var o := HandleOutputs(db, r.outputs.edges, io);
    var i := HandleInputs(o.db, r.inputs.edges, o.io);
    EdgesInThree(db, r, io, o, i);
    OutputsIgnoreFaults(db, r.outputs.edges, io, Calls(r));
    InputsIgnoreFaults(o.db, r.inputs.edges, o.io, Calls(r) - n);
    EdgesInThree(db, r, Calls(r), Handled(o.db, Calls(r) - n, true), Handled(i.db, Calls(r) - n - m, true));
    ReportsIgnoreFaults(i.db, r.reports.edges, i.io, Calls(r) - n - m);
  }

  lemma FaultsOnlyAbort(db: Db, mem: Cursors, r: Response, io: nat)
    requires HandleResponse(db, mem, r, io).ok
    ensures HandleResponse(db, mem, r, Calls(r)).ok
    ensures HandleResponse(db, mem, r, Calls(r)).db == HandleResponse(db, mem, r, io).db
  {
    EdgesIgnoreFaults(db, r, io);
  }

  /** Handling an open transaction writes to the transaction only. */
  lemma {:induction false} EdgesWriteTransaction(db: Db, r: Response, io: nat)
    requires db.tx.Some?
    ensures var h := HandleEdges(db, r, io);
            h.db.tx.Some? && h.db.committed == db.committed && h.db.tx.value.fetches == db.tx.value.fetches
  {
    OutputsWriteTransaction(db, r.outputs.edges, io);
    var o := HandleOutputs(db, r.outputs.edges, io);
    InputsWriteTransaction(o.db, r.inputs.edges, o.io);
    var i := HandleInputs(o.db, r.inputs.edges, o.io);
    ReportsWriteTransaction(i.db, r.reports.edges, i.io);
  }

  lemma {:induction false} OutputsWriteTransaction(db: Db, es: seq<OutputEdge>, io: nat)
    requires db.tx.Some?
    ensures var h := HandleOutputs(db, es, io);
            && h.db.tx.Some? && h.db.committed == db.committed && h.db.tx.value.fetches == db.tx.value.fetches
            && h.db.tx.value.inputs == db.tx.value.inputs && h.db.tx.value.reports == db.tx.value.reports
    decreases |es|
  {
    if es != [] { OutputsWriteTransaction(HandleOutput(db, es[0], io).db, es[1..], HandleOutput(db, es[0], io).io); }
  }

  lemma {:induction false} InputsWriteTransaction(db: Db, es: seq<InputEdge>, io: nat)
    requires db.tx.Some?
    ensures var h := HandleInputs(db, es, io);
            && h.db.tx.Some? && h.db.committed == db.committed &&
                 h.db.tx.value == db.tx.value.(inputs := h.db.tx.value.inputs)
    decreases |es|
  {
    if es != [] { InputsWriteTransaction(HandleInput(db, es[0], io).db, es[1..], HandleInput(db, es[0], io).io); }
  }

  lemma {:induction false} ReportsWriteTransaction(db: Db, es: seq<ReportEdge>, io: nat)
    requires db.tx.Some?
    ensures var h := HandleReports(db, es, io);
            && h.db.tx.Some? && h.db.committed == db.committed &&
                 h.db.tx.value == db.tx.value.(reports := h.db.tx.value.reports)
    decreases |es|
  {
    if es != [] { ReportsWriteTransaction(HandleReport(db, es[0], io).db, es[1..], HandleReport(db, es[0], io).io); }
  }

  // ---------- Replaying the feeds ----------

  /** The tables after the feeds were handled from START to the last cut, one successful transaction for each
      pair of neighbouring cuts. None when some batch cannot be handled. */
  function Replay(fs: Feeds, cuts: seq<Cut>): Option<Tables>
    decreases |cuts|
  {
    var n := |cuts|;
    if n == 0 then None
    else if n == 1 then if cuts[0] == START then Some(EMPTY) else None
    else
      var from, to := cuts[n - 2], cuts[n - 1];
      var before := Replay(fs, cuts[..n - 1]);
      if before.None? || from == to || !UpTo(from, to) || !Within(to, fs) then None
      else
        var r := Between(fs, from, to);
        var h := HandleResponse(Db(before.value, None).Begin(), CursorsAt(fs, from), r, Calls(r));
        if h.ok then Some(h.db.Target()) else None
  }

  /** The state is what exactly-once processing of a prefix of each feed leaves behind: no transaction is open,
      the committed tables replay the feeds batch by batch up to some cut, and the memory points there. */
  ghost predicate SyncedAt(fs: Feeds, s: Sync, cuts: seq<Cut>) {
    && |cuts| > 0
    && Replay(fs, cuts) == Some(s.db.committed)
    && s.db.tx.None?
    && Within(cuts[|cuts| - 1], fs)
    && s.mem == CursorsAt(fs, cuts[|cuts| - 1])
  }

  ghost predicate Synced(fs: Feeds, s: Sync) { exists cuts :: SyncedAt(fs, s, cuts) }

  /** The cursor row of the batch between two cuts. */
  function RowBetween(fs: Feeds, from: Cut, to: Cut): Fetch
    requires UpTo(from, to) && Within(to, fs)
  {
    Fetch(CursorsAt(fs, from), CursorsAt(fs, to), Ids(Edges(fs.outputs[from.outputs..to.outputs])))
  }

  lemma BatchAddsRow(fs: Feeds, from: Cut, to: Cut, t: Tables, io: nat)
    requires Valid(fs) && UpTo(from, to) && Within(to, fs) && from != to
    requires HandleResponse(Db(t, None).Begin(), CursorsAt(fs, from), Between(fs, from, to), io).ok
    ensures var db := HandleResponse(Db(t, None).Begin(), CursorsAt(fs, from), Between(fs, from, to), io).db;
            db.committed == t && db.tx.Some? && db.tx.value.fetches == t.fetches + [RowBetween(fs, from, to)]
  {
    var db, r := Db(t, None).Begin(), Between(fs, from, to);
    EdgesWriteTransaction(db, r, io);
    BetweenMoves(fs, from, to);
  }

  ghost predicate Ordered(fs: Feeds, cuts: seq<Cut>) {
    && (forall k :: 0 <= k < |cuts| ==> Within(cuts[k], fs))
    && (forall k :: 0 <= k < |cuts| - 1 ==> UpTo(cuts[k], cuts[k + 1]))
  }

  lemma ReplayAddsRow(fs: Feeds, cuts: seq<Cut>)
    requires Valid(fs) && |cuts| > 1 && Replay(fs, cuts).Some?
    ensures var from, to := cuts[|cuts| - 2], cuts[|cuts| - 1];
            && UpTo(from, to) && Within(to, fs)
            && Replay(fs, cuts[..|cuts| - 1]).Some?
            && Replay(fs, cuts).value.fetches == Replay(fs, cuts[..|cuts| - 1]).value.fetches +
                 [RowBetween(fs, from, to)]
  {
    var from, to := cuts[|cuts| - 2], cuts[|cuts| - 1];
    BatchAddsRow(fs, from, to, Replay(fs, cuts[..|cuts| - 1]).value, Calls(Between(fs, from, to)));
  }

  /** Cursor rows that join the cuts one after the other. */
  ghost predicate RowsJoin(fs: Feeds, cuts: seq<Cut>, rows: seq<Fetch>) {
    && |cuts| > 0 && cuts[0] == START && Ordered(fs, cuts)
    && |rows| == |cuts| - 1
    && forall k :: 0 <= k < |rows| ==> rows[k] == RowBetween(fs, cuts[k], cuts[k + 1])
  }

  lemma RowsJoinExtend(fs: Feeds, cuts: seq<Cut>, rows: seq<Fetch>)
    requires |cuts| > 1 && |rows| > 0 && RowsJoin(fs, cuts[..|cuts| - 1], rows[..|rows| - 1])
    requires UpTo(cuts[|cuts| - 2], cuts[|cuts| - 1]) && Within(cuts[|cuts| - 1], fs)
    requires rows[|rows| - 1] == RowBetween(fs, cuts[|cuts| - 2], cuts[|cuts| - 1])
    ensures RowsJoin(fs, cuts, rows)
  {
    var init := cuts[..|cuts| - 1];
    assert forall k :: 0 <= k < |init| ==> init[k] == cuts[k];
    forall k | 0 <= k < |cuts| - 1 ensures UpTo(cuts[k], cuts[k + 1]) {
      if k < |cuts| - 2 { assert UpTo(init[k], init[k + 1]); }
    }
    forall k | 0 <= k < |rows| ensures rows[k] == RowBetween(fs, cuts[k], cuts[k + 1]) {
      if k < |rows| - 1 { assert rows[..|rows| - 1][k] == RowBetween(fs, init[k], init[k + 1]); }
    }
  }

  /** The committed cursor rows of a replay: row k goes from cut k to cut k + 1 and logs the outputs between. */
  lemma {:induction false} ReplayLog(fs: Feeds, cuts: seq<Cut>)
    requires Valid(fs) && Replay(fs, cuts).Some?
    ensures RowsJoin(fs, cuts, Replay(fs, cuts).value.fetches)
    decreases |cuts|
  {
    if |cuts| > 1 {
      ReplayAddsRow(fs, cuts);
      ReplayLog(fs, cuts[..|cuts| - 1]);
      RowsJoinExtend(fs, cuts, Replay(fs, cuts).value.fetches);
    }
  }

  /** The log of a cursor row names the outputs of its batch by input and output index, in feed order. */
  lemma LogNamesOutputs(fs: Feeds, from: Cut, to: Cut)
    requires UpTo(from, to) && Within(to, fs)
    ensures var log := RowBetween(fs, from, to).log;
            && |log| == to.outputs - from.outputs
            && forall i :: 0 <= i < |log| ==>
                 var e := fs.outputs[from.outputs + i].edge; log[i] == Key(e.inputIndex, e.index)
  {
    var items := fs.outputs[from.outputs..to.outputs];
    assert forall i :: 0 <= i < |items| ==> items[i] == fs.outputs[from.outputs + i];
  }

  lemma BetweenStable(fs: Feeds, gs: Feeds, from: Cut, to: Cut)
    requires Grows(fs, gs) && UpTo(from, to) && Within(to, fs)
    ensures Within(to, gs) && Between(gs, from, to) == Between(fs, from, to) &&
        CursorsAt(gs, from) == CursorsAt(fs, from)
  {
    assert fs.outputs[from.outputs..to.outputs] == gs.outputs[from.outputs..to.outputs];
    assert fs.inputs[from.inputs..to.inputs] == gs.inputs[from.inputs..to.inputs];
    assert fs.reports[from.reports..to.reports] == gs.reports[from.reports..to.reports];
  }

  /** Feeds that only grow at their ends replay the same. */
  lemma {:induction false} ReplayStable(fs: Feeds, gs: Feeds, cuts: seq<Cut>)
    requires Grows(fs, gs) && Replay(fs, cuts).Some?
    ensures Replay(gs, cuts) == Replay(fs, cuts)
    decreases |cuts|
  {
    if |cuts| > 1 {
      ReplayStable(fs, gs, cuts[..|cuts| - 1]);
      BetweenStable(fs, gs, cuts[|cuts| - 2], cuts[|cuts| - 1]);
    }
  }

  // ---------- What one step keeps ----------

  lemma JoinedRowsChain(fs: Feeds, cuts: seq<Cut>, rows: seq<Fetch>)
    requires RowsJoin(fs, cuts, rows)
    ensures forall k :: 0 <= k < |rows| ==> rows[k].ini == LastFetched(rows[..k])
    ensures CursorsAt(fs, cuts[|cuts| - 1]) == LastFetched(rows)
  {
    forall k | 0 <= k < |rows|
      ensures rows[k].ini == LastFetched(rows[..k])
    {
      assert rows[k] == RowBetween(fs, cuts[k], cuts[k + 1]);
      if k > 0 {
        assert rows[..k][k - 1] == RowBetween(fs, cuts[k - 1], cuts[k]);
      }
    }
  }

  /** A crash and restart at any moment leaves a synchronized worker exactly as it was. */
  lemma RestartIsHarmless(fs: Feeds, s: Sync)
    requires Valid(fs) && Synced(fs, s)
    ensures Restart(s) == s
  {
    var cuts :| SyncedAt(fs, s, cuts);
    ReplayLog(fs, cuts);
    JoinedRowsChain(fs, cuts, s.db.committed.fetches);
  }

  /** Whatever the memory holds, a restart re-synchronizes committed tables that replay the feeds. */
  lemma RestartRecovers(fs: Feeds, s: Sync)
    requires Valid(fs) && exists mem :: Synced(fs, Sync(mem, s.db.Rollback()))
    ensures Synced(fs, Restart(s))
  {
    var mem :| Synced(fs, Sync(mem, s.db.Rollback()));
    RestartIsHarmless(fs, Sync(mem, s.db.Rollback()));
  }

  /** The commit fails after a response that moved a cursor was handled. */
  predicate LosesBatch(s: Sync, r: Response, plan: Plan) {
    plan.beginOk && !plan.commitOk && More(r) && HandleResponse(s.db.Begin(), s.mem, r, plan.io).ok
  }

  lemma TransactExtends(fs: Feeds, s: Sync, cuts: seq<Cut>, r: Response, plan: Plan) returns (cuts': seq<Cut>)
    requires Valid(fs) && SyncedAt(fs, s, cuts) && Served(fs, s.mem, r) && !LosesBatch(s, r, plan)
    ensures SyncedAt(fs, Transact(s, r, plan), cuts')
  {
    cuts' := cuts;
    if plan.beginOk {
      var from := cuts[|cuts| - 1];
      var to := ServedBetween(fs, from, r);
      var h := HandleResponse(s.db.Begin(), s.mem, r, plan.io);
      EdgesWriteTransaction(s.db.Begin(), r, plan.io);
      if h.ok && from != to {
        cuts' := cuts + [to];
        assert cuts'[..|cuts|] == cuts;
        FaultsOnlyAbort(s.db.Begin(), s.mem, r, plan.io);
      }
    }
  }

  /** A failed commit after a response that moved a cursor is the only way a transaction can break the
      synchronization, and it always does. */
  lemma TransactKeepsSyncIff(fs: Feeds, s: Sync, r: Response, plan: Plan)
    requires Valid(fs) && Synced(fs, s) && Served(fs, s.mem, r)
    ensures Synced(fs, Transact(s, r, plan)) <==> !LosesBatch(s, r, plan)
  {
    var cuts :| SyncedAt(fs, s, cuts);
    if !LosesBatch(s, r, plan) {
      var cuts' := TransactExtends(fs, s, cuts, r, plan);
    } else {
      var from := cuts[|cuts| - 1];
      var to := ServedBetween(fs, from, r);
      var s' := Transact(s, r, plan);
      EdgesWriteTransaction(s.db.Begin(), r, plan.io);
      assert s'.db == s.db && s'.mem == CursorsAt(fs, to);
      CursorsDetermineCut(fs, from, to);
      assert s'.mem != s.mem && Restart(s') == Restart(s);
      RestartIsHarmless(fs, s);
      if Synced(fs, s') { RestartIsHarmless(fs, s'); }
    }
  }

  /** What the failed commit costs: the next successful transaction starts after the lost batch, so the rows of
      the cursor table no longer join up and the lost outputs are logged in none of them. */
  lemma LostBatchIsSkipped(fs: Feeds, s: Sync, from: Cut, mid: Cut, to: Cut, lost: Plan, next: Plan)
    requires Valid(fs) && Synced(fs, s) && Within(to, fs) && UpTo(from, mid) && UpTo(mid, to) && from != mid &&
        mid != to
    requires s.mem == CursorsAt(fs, from) && LosesBatch(s, Between(fs, from, mid), lost)
    requires next.beginOk && next.commitOk
    requires HandleResponse(s.db.Begin(), CursorsAt(fs, mid), Between(fs, mid, to), next.io).ok
    ensures var s' := Transact(Transact(s, Between(fs, from, mid), lost), Between(fs, mid, to), next);
            && s'.db.committed.fetches == s.db.committed.fetches + [RowBetween(fs, mid, to)]
            && RowBetween(fs, mid, to).ini != LastFetched(s.db.committed.fetches)
            && !Synced(fs, s')
  {
    var cuts :| SyncedAt(fs, s, cuts);
    EdgesWriteTransaction(s.db.Begin(), Between(fs, from, mid), lost.io);
    BatchAddsRow(fs, mid, to, s.db.committed, next.io);
    CursorsDetermineCut(fs, from, mid);
    RestartIsHarmless(fs, s);
    var s' := Transact(Transact(s, Between(fs, from, mid), lost), Between(fs, mid, to), next);
    var rows, row := s.db.committed.fetches, RowBetween(fs, mid, to);
    assert (rows + [row])[|rows|] == row && (rows + [row])[..|rows|] == rows;
    if Synced(fs, s') { ChainedRows(fs, s'); }
  }

  /** In a synchronized state the first cursor row starts from no cursors, every other one where the previous
      one ended, and the memory holds the end of the last one. */
  lemma ChainedRows(fs: Feeds, s: Sync)
    requires Valid(fs) && Synced(fs, s)
    ensures var rows := s.db.committed.fetches;
            && (forall k :: 0 <= k < |rows| ==> rows[k].ini == LastFetched(rows[..k]))
            && s.mem == LastFetched(rows)
  {
    var cuts :| SyncedAt(fs, s, cuts);
    ReplayLog(fs, cuts);
    JoinedRowsChain(fs, cuts, s.db.committed.fetches);
  }

  // ---------- Whole runs ----------

  datatype Action = Grow(feeds: Feeds) | FetchFails | Deliver(response: Response, plan: Plan) | Crash

  function FeedsAfter(fs: Feeds, a: Action): Feeds { if a.Grow? then a.feeds else fs }

  function Next(s: Sync, a: Action): Sync {
    match a
    case Grow(_) => s
    case FetchFails => s
    case Deliver(r, plan) => Transact(s, r, plan)
    case Crash => Restart(s)
  }

  /** Feeds only grow, and responses are served for the cursors in memory. */
  ghost predicate Possible(fs: Feeds, s: Sync, a: Action) {
    match a
    case Grow(gs) => Valid(gs) && Grows(fs, gs)
    case FetchFails => true
    case Deliver(r, plan) => Served(fs, s.mem, r)
    case Crash => true
  }

  function FinalFeeds(fs: Feeds, acts: seq<Action>): Feeds
    decreases |acts|
  {
    if acts == [] then fs else FinalFeeds(FeedsAfter(fs, acts[0]), acts[1..])
  }

  function Final(s: Sync, acts: seq<Action>): Sync
    decreases |acts|
  {
    if acts == [] then s else Final(Next(s, acts[0]), acts[1..])
  }

  ghost predicate Run(fs: Feeds, s: Sync, acts: seq<Action>)
    decreases |acts|
  {
    acts == [] || (Possible(fs, s, acts[0]) && Run(FeedsAfter(fs, acts[0]), Next(s, acts[0]), acts[1..]))
  }

  /** No transaction of the run loses its batch to a failed commit. */
  predicate CommitsHold(s: Sync, acts: seq<Action>)
    decreases |acts|
  {
    acts == [] ||
    (!(acts[0].Deliver? && LosesBatch(s, acts[0].response, acts[0].plan)) && CommitsHold(Next(s, acts[0]), acts[1..]))
  }

  lemma GrowthKeepsSync(fs: Feeds, gs: Feeds, s: Sync)
    requires Synced(fs, s) && Grows(fs, gs)
    ensures Synced(gs, s)
  {
    var cuts :| SyncedAt(fs, s, cuts);
    ReplayStable(fs, gs, cuts);
    BetweenStable(fs, gs, cuts[|cuts| - 1], cuts[|cuts| - 1]);
    assert SyncedAt(gs, s, cuts);
  }

  lemma StepKeepsSync(fs: Feeds, s: Sync, a: Action)
    requires Valid(fs) && Synced(fs, s) && Possible(fs, s, a)
    requires a.Deliver? ==> !LosesBatch(s, a.response, a.plan)
    ensures Valid(FeedsAfter(fs, a)) && Synced(FeedsAfter(fs, a), Next(s, a))
  {
    match a {
      case Grow(gs) =>
        GrowthKeepsSync(fs, gs, s);
      case FetchFails =>
      case Deliver(r, plan) => TransactKeepsSyncIff(fs, s, r, plan);
      case Crash => RestartIsHarmless(fs, s);
    }
  }

  lemma {:induction false} RunFromKeepsSync(fs: Feeds, s: Sync, acts: seq<Action>)
    requires Valid(fs) && Synced(fs, s) && Run(fs, s, acts) && CommitsHold(s, acts)
    ensures Valid(FinalFeeds(fs, acts)) && Synced(FinalFeeds(fs, acts), Final(s, acts))
    decreases |acts|
  {
    if acts != [] {
      StepKeepsSync(fs, s, acts[0]);
      RunFromKeepsSync(FeedsAfter(fs, acts[0]), Next(s, acts[0]), acts[1..]);
    }
  }

  const FIRST_START := Sync(NO_CURSORS, Db(EMPTY, None))

  // ---------- Runs with failed commits ----------

  /** A transaction that commits a batch although the memory has left the last cursor row: what lies between is never
      fetched again. */
  predicate Skips(s: Sync, a: Action) {
    && a.Deliver? && a.plan.beginOk && a.plan.commitOk && More(a.response)
    && HandleResponse(s.db.Begin(), s.mem, a.response, a.plan.io).ok
    && s.mem != LastFetched(s.db.committed.fetches)
  }

  predicate NeverSkips(s: Sync, acts: seq<Action>)
    decreases |acts|
  {
    acts == [] || (!Skips(s, acts[0]) && NeverSkips(Next(s, acts[0]), acts[1..]))
  }

  /** The worker that a restart would make of s. */
  function Restored(s: Sync): Sync { Sync(LastFetched(s.db.committed.fetches), s.db) }

  ghost predicate AtSomeCut(fs: Feeds, mem: Cursors) { exists c :: Within(c, fs) && mem == CursorsAt(fs, c) }

  /** The tables replay a prefix of the feeds; the memory may be ahead of it. */
  ghost predicate Tracked(fs: Feeds, s: Sync) { Synced(fs, Restored(s)) && AtSomeCut(fs, s.mem) }

  /** The tables are the replay of a prefix of each feed, whatever the memory holds. */
  ghost predicate TablesSynced(fs: Feeds, db: Db) { exists mem :: Synced(fs, Sync(mem, db)) }

  lemma SyncedTablesIff(fs: Feeds, s: Sync)
    requires Valid(fs)
    ensures TablesSynced(fs, s.db) <==> Synced(fs, Restored(s))
    ensures Synced(fs, s) <==> Synced(fs, Restored(s)) && s.mem == LastFetched(s.db.committed.fetches)
  {
    forall mem | Synced(fs, Sync(mem, s.db)) ensures mem == LastFetched(s.db.committed.fetches) {
      ChainedRows(fs, Sync(mem, s.db));
    }
    assert s == Sync(s.mem, s.db);
  }

  lemma CutSurvivesGrowth(fs: Feeds, gs: Feeds, mem: Cursors)
    requires AtSomeCut(fs, mem) && Grows(fs, gs)
    ensures AtSomeCut(gs, mem)
  {
    var c :| Within(c, fs) && mem == CursorsAt(fs, c);
    BetweenStable(fs, gs, c, c);
  }

  lemma SyncedIsAtCut(fs: Feeds, s: Sync)
    requires Synced(fs, s)
    ensures AtSomeCut(fs, s.mem) && s.db.tx.None?
  {
    var cuts :| SyncedAt(fs, s, cuts);
  }

  /** A response that moves no cursor writes nothing. */
  lemma NothingToHandle(fs: Feeds, c: Cut, db: Db, io: nat)
    requires Within(c, fs)
    ensures HandleResponse(db, CursorsAt(fs, c), Between(fs, c, c), io).db == db
  {
    assert Between(fs, c, c).outputs.edges == [] && Between(fs, c, c).inputs.edges == [];
    assert Between(fs, c, c).reports.edges == [];
  }

  /** What a transaction that does not skip does to a tracked worker. */
  lemma DeliverKeepsTracked(fs: Feeds, s: Sync, r: Response, plan: Plan)
    requires Valid(fs) && Tracked(fs, s) && Served(fs, s.mem, r) && !Skips(s, Deliver(r, plan))
    ensures Tracked(fs, Transact(s, r, plan))
  {
    var s' := Transact(s, r, plan);
    var c :| Within(c, fs) && s.mem == CursorsAt(fs, c);
    var to := ServedBetween(fs, c, r);
    SyncedIsAtCut(fs, Restored(s));
    EdgesWriteTransaction(s.db.Begin(), r, plan.io);
    if plan.beginOk && HandleResponse(s.db.Begin(), s.mem, r, plan.io).ok {
      assert s'.mem == CursorsAt(fs, to);
      if plan.commitOk && More(r) {
        assert s == Restored(s);
        TransactKeepsSyncIff(fs, s, r, plan);
        SyncedTablesIff(fs, s');
      } else if plan.commitOk {
        NothingToHandle(fs, c, s.db.Begin(), plan.io);
      }
    }
  }

  lemma StepKeepsTracked(fs: Feeds, s: Sync, a: Action)
    requires Valid(fs) && Tracked(fs, s) && Possible(fs, s, a) && !Skips(s, a)
    ensures Valid(FeedsAfter(fs, a)) && Tracked(FeedsAfter(fs, a), Next(s, a))
  {
    match a {
      case Grow(gs) =>
        GrowthKeepsSync(fs, gs, Restored(s));
        CutSurvivesGrowth(fs, gs, s.mem);
      case FetchFails =>
      case Deliver(r, plan) => DeliverKeepsTracked(fs, s, r, plan);
      case Crash => SyncedIsAtCut(fs, Restored(s));
    }
  }

  ghost predicate Unchained(rows: seq<Fetch>) {
    exists k :: 0 <= k < |rows| && rows[k].ini != LastFetched(rows[..k])
  }

  lemma UnchainedStays(rows: seq<Fetch>, more: seq<Fetch>)
    requires Unchained(rows) && rows <= more
    ensures Unchained(more)
  {
    var k :| 0 <= k < |rows| && rows[k].ini != LastFetched(rows[..k]);
    assert more[..k] == rows[..k] && more[k] == rows[k];
  }

  /** Cursor rows are only added. */
  lemma RowsOnlyGrow(s: Sync, a: Action)
    requires s.db.tx.None?
    ensures Next(s, a).db.tx.None? && s.db.committed.fetches <= Next(s, a).db.committed.fetches
  {
    if a.Deliver? { EdgesWriteTransaction(s.db.Begin(), a.response, a.plan.io); }
  }

  /** A skip leaves a cursor row that does not start where the previous one ended. */
  lemma SkipBreaksChain(s: Sync, a: Action)
    requires s.db.tx.None? && Skips(s, a)
    ensures Unchained(Next(s, a).db.committed.fetches)
  {
    EdgesWriteTransaction(s.db.Begin(), a.response, a.plan.io);
    var rows, rows' := s.db.committed.fetches, Next(s, a).db.committed.fetches;
    assert rows'[|rows|].ini == s.mem && rows'[..|rows|] == rows;
  }

  lemma {:induction false} UnchainedForever(s: Sync, acts: seq<Action>)
    requires s.db.tx.None? && Unchained(s.db.committed.fetches)
    ensures Unchained(Final(s, acts).db.committed.fetches)
    decreases |acts|
  {
    if acts != [] {
      RowsOnlyGrow(s, acts[0]);
      UnchainedStays(s.db.committed.fetches, Next(s, acts[0]).db.committed.fetches);
      UnchainedForever(Next(s, acts[0]), acts[1..]);
    }
  }

  lemma {:induction false} RunStaysValid(fs: Feeds, s: Sync, acts: seq<Action>)
    requires Valid(fs) && Run(fs, s, acts)
    ensures Valid(FinalFeeds(fs, acts))
    decreases |acts|
  {
    if acts != [] { RunStaysValid(FeedsAfter(fs, acts[0]), Next(s, acts[0]), acts[1..]); }
  }

  /** From any worker whose tables replay the feeds: a run that never skips keeps it so, and after a skip the cursor
      rows do not join any more, whatever follows. */
  lemma {:induction false} RunKeepsTrackedIff(fs: Feeds, s: Sync, acts: seq<Action>)
    requires Valid(fs) && Tracked(fs, s) && Run(fs, s, acts)
    ensures NeverSkips(s, acts) ==> Tracked(FinalFeeds(fs, acts), Final(s, acts))
    ensures !NeverSkips(s, acts) ==> Unchained(Final(s, acts).db.committed.fetches)
    decreases |acts|
  {
    if acts != [] {
      var s' := Next(s, acts[0]);
      SyncedIsAtCut(fs, Restored(s));
      if Skips(s, acts[0]) {
        SkipBreaksChain(s, acts[0]);
        RowsOnlyGrow(s, acts[0]);
        UnchainedForever(s', acts[1..]);
      } else {
        StepKeepsTracked(fs, s, acts[0]);
        RunKeepsTrackedIff(FeedsAfter(fs, acts[0]), s', acts[1..]);
      }
    }
  }

  lemma UnchainedIsNotSynced(fs: Feeds, s: Sync)
    requires Valid(fs) && Unchained(s.db.committed.fetches)
    ensures !Synced(fs, Restored(s))
  {
    if Synced(fs, Restored(s)) { ChainedRows(fs, Restored(s)); }
  }

  /** From any worker whose tables replay the feeds, failed commits included: the tables still do after a run if and
      only if the run never skips, and the worker is synchronized if and only if, besides, its memory is at the last
      cursor row. */
  lemma RunKeepsSyncIff(fs: Feeds, s: Sync, acts: seq<Action>)
    requires Valid(fs) && Tracked(fs, s) && Run(fs, s, acts)
    ensures var gs, s' := FinalFeeds(fs, acts), Final(s, acts);
            && (TablesSynced(gs, s'.db) <==> NeverSkips(s, acts))
            && (Synced(gs, s') <==> NeverSkips(s, acts) && s'.mem == LastFetched(s'.db.committed.fetches))
  {
    var gs, s' := FinalFeeds(fs, acts), Final(s, acts);
    RunKeepsTrackedIff(fs, s, acts);
    RunStaysValid(fs, s, acts);
    SyncedTablesIff(gs, s');
    if !NeverSkips(s, acts) { UnchainedIsNotSynced(gs, s'); }
  }

  /** Exactly once: from an empty database, under any interleaving of growing feeds, failed fetches, failed handlers,
      transactions, failed commits and crashes, the tables are the replay of a prefix of each feed, every edge handled
      once and in order, if and only if the run never commits a batch while the memory has left the last cursor row. The
      memory points to the end of that prefix if and only if, besides, it has not left the last cursor row at the end.
      Both hold of every run in which no commit fails after moving a cursor. */
  lemma ExactlyOnce(fs: Feeds, acts: seq<Action>)
    requires Valid(fs) && Run(fs, FIRST_START, acts)
    ensures var gs, s := FinalFeeds(fs, acts), Final(FIRST_START, acts);
            && (TablesSynced(gs, s.db) <==> NeverSkips(FIRST_START, acts))
            && (Synced(gs, s) <==>
                NeverSkips(FIRST_START, acts) && s.mem == LastFetched(s.db.committed.fetches))
            && (CommitsHold(FIRST_START, acts) ==> Synced(gs, s))
  {
    assert SyncedAt(fs, FIRST_START, [START]);
    assert Restored(FIRST_START) == FIRST_START;
    SyncedIsAtCut(fs, FIRST_START);
    RunKeepsSyncIff(fs, FIRST_START, acts);
    if CommitsHold(FIRST_START, acts) { RunFromKeepsSync(fs, FIRST_START, acts); }
  }
}
