/** The worker that copies three append-only feeds into the tables, one transaction a batch, with its
    cursors both in memory and in the table synchronizer_fetch. */
module Synchronizer {
  import opened Wrappers
  import opened Repository
  import opened Database

  /** What the ABI decoder makes of an output's blob. */
  datatype DecodedOutput = AsVoucher(app: Address, destination: Address, payload: string)
                         | AsNotice(app: Address, payload: string)

  datatype DecodedInput = DecodedInput(app: Address, sender: Address, payload: string, block: nat, timestamp: int)

  /** decoded is None when the blob does not decode. */
  datatype OutputEdge = OutputEdge(index: nat, inputIndex: nat, decoded: Option<DecodedOutput>)

  datatype InputEdge = InputEdge(index: nat, decoded: Option<DecodedInput>)

  datatype ReportEdge = ReportEdge(index: nat, inputIndex: nat, blob: string)

  datatype Page<E> = Page(edges: seq<E>, endCursor: string)

  datatype Response = Response(outputs: Page<OutputEdge>, inputs: Page<InputEdge>, reports: Page<ReportEdge>)

  const NO_CURSORS := Cursors("", "", "")

  // ---------- Handling a response ----------

  /** The outcome of some database calls: io counts the calls that may still succeed before one fails. */
  datatype Handled = Handled(db: Db, io: nat, ok: bool)

  function FromResult(db: Db, io: nat, r: Result<Db, SqlError>): Handled
    requires io > 0
  {
    match r
    case Ok(db') => Handled(db', io - 1, true)
    case Err(_) => Handled(db, io - 1, false)
  }

  function KeyOf(e: OutputEdge): Key { Key(e.inputIndex, e.index) }

  function HandleOutput(db: Db, e: OutputEdge, io: nat): Handled {
    if e.decoded.None? || io == 0 then Handled(db, io, false)
    else
      match e.decoded.value
      case AsVoucher(app, destination, payload) =>
        FromResult(db, io, db.CreateVoucher(Output(KeyOf(e), app, VoucherContent(destination, payload, false))))
      case AsNotice(app, payload) =>
        FromResult(db, io, db.CreateNotice(Output(KeyOf(e), app, payload)))
  }

  function RowOf(e: InputEdge): InputRow
    requires e.decoded.Some?
  {
    var d := e.decoded.value;
    InputRow(e.index, d.app, Unprocessed, d.sender, d.payload, d.block, d.timestamp, "")
  }

  function HandleInput(db: Db, e: InputEdge, io: nat): Handled {
    if e.decoded.None? || io == 0 then Handled(db, io, false)
    else Handled(db.CreateInput(RowOf(e)), io - 1, true)
  }

  function ReportOf(e: ReportEdge): Output<string> { Output(Key(e.inputIndex, e.index), ZERO_ADDRESS, e.blob) }

  function HandleReport(db: Db, e: ReportEdge, io: nat): Handled {
    if io == 0 then Handled(db, io, false) else FromResult(db, io, db.CreateReport(ReportOf(e)))
  }

  function HandleOutputs(db: Db, es: seq<OutputEdge>, io: nat): Handled
    decreases |es|
  {
    if es == [] then Handled(db, io, true)
    else
      var h := HandleOutput(db, es[0], io);
      if h.ok then HandleOutputs(h.db, es[1..], h.io) else h
  }

  function HandleInputs(db: Db, es: seq<InputEdge>, io: nat): Handled
    decreases |es|
  {
    if es == [] then Handled(db, io, true)
    else
      var h := HandleInput(db, es[0], io);
      if h.ok then HandleInputs(h.db, es[1..], h.io) else h
  }

  function HandleReports(db: Db, es: seq<ReportEdge>, io: nat): Handled
    decreases |es|
  {
    if es == [] then Handled(db, io, true)
    else
      var h := HandleReport(db, es[0], io);
      if h.ok then HandleReports(h.db, es[1..], h.io) else h
  }

  function Ids(es: seq<OutputEdge>): (ids: seq<Key>)
    ensures |ids| == |es| && forall i :: 0 <= i < |es| ==> ids[i] == KeyOf(es[i])
  {
    seq(|es|, i requires 0 <= i < |es| => KeyOf(es[i]))
  }

  predicate More(r: Response) {
    r.outputs.endCursor != "" || r.inputs.endCursor != "" || r.reports.endCursor != ""
  }

  function Advance(memory: string, endCursor: string): string { if endCursor != "" then endCursor else memory }

  function EndCursors(mem: Cursors, r: Response): Cursors {
    Cursors(Advance(mem.outputs, r.outputs.endCursor),
            Advance(mem.inputs, r.inputs.endCursor),
            Advance(mem.reports, r.reports.endCursor))
  }

  /** The three loops, outputs then inputs then reports. */
  function HandleEdges(db: Db, r: Response, io: nat): Handled {
    var o := HandleOutputs(db, r.outputs.edges, io);
    if !o.ok then o
    else
      var i := HandleInputs(o.db, r.inputs.edges, o.io);
      if !i.ok then i else HandleReports(i.db, r.reports.edges, i.io)
  }

  /** The edges, then the cursor row when some feed advanced. */
  function HandleResponse(db: Db, mem: Cursors, r: Response, io: nat): Handled {
    var h := HandleEdges(db, r, io);
    if !h.ok || !More(r) then h
    else if h.io == 0 then Handled(h.db, 0, false)
    else Handled(h.db.CreateFetch(Fetch(mem, EndCursors(mem, r), Ids(r.outputs.edges))), h.io - 1, true)
  }

  // ---------- The worker ----------

  datatype Sync = Sync(mem: Cursors, db: Db)

  /** What the environment does to one transaction: the driver's answers to begin and commit, and the number of
      database calls that succeed. */
  datatype Plan = Plan(beginOk: bool, io: nat, commitOk: bool)

  /** The cursors move when the response is handled, before the commit. */
  function Transact(s: Sync, r: Response, plan: Plan): Sync {
    if !plan.beginOk then s
    else
      var h := HandleResponse(s.db.Begin(), s.mem, r, plan.io);
      if !h.ok then Sync(s.mem, h.db.Rollback())
      else Sync(EndCursors(s.mem, r), if plan.commitOk then h.db.Commit() else h.db.Rollback())
  }

  function LastFetched(rows: seq<Fetch>): Cursors {
    if rows == [] then NO_CURSORS else rows[|rows| - 1].end
  }

  /** The process dies, its open transaction with it, and a new one reads the last cursor row. */
  function Restart(s: Sync): Sync { Sync(LastFetched(s.db.committed.fetches), s.db.Rollback()) }

  class GraphileSynchronizer {
    const store: Store
    var cursorAfter: string
    var cursorInputAfter: string
    var cursorReportAfter: string

    function Memory(): Cursors reads this { Cursors(cursorAfter, cursorInputAfter, cursorReportAfter) }

    function State(): Sync reads this, store { Sync(Memory(), store.State()) }

    /** A new process over an existing database, up to the point where Start begins to fetch. */
    constructor (store: Store)
      requires store.tx.None?
      ensures this.store == store && State() == Restart(Sync(NO_CURSORS, store.State()))
    {
      this.store := store;
      cursorAfter, cursorInputAfter, cursorReportAfter := "", "", "";
      new;
      var rows := store.committed.fetches;
      if rows != [] {
        var lastFetch := rows[|rows| - 1];
        cursorAfter := lastFetch.end.outputs;
        cursorInputAfter := lastFetch.end.inputs;
        cursorReportAfter := lastFetch.end.reports;
      }
    }

    method HandleOutputEdge(e: OutputEdge, io: nat) returns (ok: bool, left: nat)
      modifies store
      ensures Handled(store.State(), left, ok) == HandleOutput(old(store.State()), e, io)
    {
      if e.decoded.None? || io == 0 { return false, io; }
      var err;
      match e.decoded.value {
        case AsVoucher(app, destination, payload) =>
          err := store.CreateVoucher(Output(KeyOf(e), app, VoucherContent(destination, payload, false)));
        case AsNotice(app, payload) =>
          err := store.CreateNotice(Output(KeyOf(e), app, payload));
      }
      ok, left := err.None?, io - 1;
    }

    method HandleOutputEdges(edges: seq<OutputEdge>, io: nat) returns (ok: bool, left: nat, voucherIds: seq<Key>)
      modifies store
      ensures Handled(store.State(), left, ok) == HandleOutputs(old(store.State()), edges, io)
      ensures ok ==> voucherIds == Ids(edges)
    {
      voucherIds, left := [], io;
      for i := 0 to |edges|
        invariant HandleOutputs(store.State(), edges[i..], left) == HandleOutputs(old(store.State()), edges, io)
        invariant voucherIds == Ids(edges[..i])
      {
        assert edges[i..][0] == edges[i] && edges[i..][1..] == edges[i + 1..];
        ok, left := HandleOutputEdge(edges[i], left);
        if !ok { return; }
        voucherIds := voucherIds + [KeyOf(edges[i])];
      }
      assert edges[..|edges|] == edges;
      ok := true;
    }

    method HandleInputEdges(edges: seq<InputEdge>, io: nat) returns (ok: bool, left: nat)
      modifies store
      ensures Handled(store.State(), left, ok) == HandleInputs(old(store.State()), edges, io)
    {
      left := io;
      for i := 0 to |edges|
        invariant HandleInputs(store.State(), edges[i..], left) == HandleInputs(old(store.State()), edges, io)
      {
        assert edges[i..][0] == edges[i] && edges[i..][1..] == edges[i + 1..];
        if edges[i].decoded.None? || left == 0 { return false, left; }
        store.CreateInput(RowOf(edges[i]));
        left := left - 1;
      }
      ok := true;
    }

    method HandleReportEdges(edges: seq<ReportEdge>, io: nat) returns (ok: bool, left: nat)
      modifies store
      ensures Handled(store.State(), left, ok) == HandleReports(old(store.State()), edges, io)
    {
      left := io;
      for i := 0 to |edges|
        invariant HandleReports(store.State(), edges[i..], left) == HandleReports(old(store.State()), edges, io)
      {
        assert edges[i..][0] == edges[i] && edges[i..][1..] == edges[i + 1..];
        if left == 0 { return false, left; }
        var err := store.CreateReport(ReportOf(edges[i]));
        left := left - 1;
        if err.Some? { return false, left; }
      }
      ok := true;
    }

    method HandleGraphileResponse(r: Response, io: nat) returns (ok: bool)
      modifies this, store
      ensures var h := HandleResponse(old(store.State()), old(Memory()), r, io);
              && ok == h.ok
              && store.State() == h.db
              && Memory() == if h.ok then EndCursors(old(Memory()), r) else old(Memory())
    {
      var iniCursor, iniInputCursor, iniReportCursor := cursorAfter, cursorInputAfter, cursorReportAfter;
      var endCursor, endInputCursor, endReportCursor := "", "", "";
      var left, voucherIds;

      ok, left, voucherIds := HandleOutputEdges(r.outputs.edges, io);
      if !ok { return; }
      if r.outputs.endCursor != "" { endCursor := r.outputs.endCursor; }
      else if iniCursor != "" { endCursor := cursorAfter; }

      ok, left := HandleInputEdges(r.inputs.edges, left);
      if !ok { return; }
      ok, left := HandleReportEdges(r.reports.edges, left);
      if !ok { return; }

      if r.reports.endCursor != "" { endReportCursor := r.reports.endCursor; }
      else if iniReportCursor != "" { endReportCursor := cursorReportAfter; }
      if r.inputs.endCursor != "" { endInputCursor := r.inputs.endCursor; }
      else if iniInputCursor != "" { endInputCursor := cursorInputAfter; }

      if More(r) {
        if left == 0 { return false; }
        store.CreateFetch(Fetch(Cursors(iniCursor, iniInputCursor, iniReportCursor),
                                Cursors(endCursor, endInputCursor, endReportCursor), voucherIds));
      }
      if endCursor != "" { cursorAfter := endCursor; }
      if endReportCursor != "" { cursorReportAfter := endReportCursor; }
      if endInputCursor != "" { cursorInputAfter := endInputCursor; }
    }

    method HandleWithDBTransaction(r: Response, plan: Plan) returns (ok: bool)
      modifies this, store
      ensures State() == Transact(old(State()), r, plan)
      ensures ok <==>
              plan.beginOk && plan.commitOk &&
              HandleResponse(old(store.State()).Begin(), old(Memory()), r, plan.io).ok
    {
      ok := store.StartTransaction(plan.beginOk);
      if !ok { return; }
      ok := HandleGraphileResponse(r, plan.io);
      if !ok {
        store.Rollback();
        return;
      }
      ok := store.Commit(plan.commitOk);
      if !ok { store.Rollback(); }
    }
  }
}
