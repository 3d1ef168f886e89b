/** The rollup machine against its calls: what it keeps, writes and answers is what its callers gave it, in order. */
module RollupHistory {
  import opened Wrappers
  import opened Repository
  import opened Database
  import opened Rollup
  import opened RollupOutputs
  import opened RollupRuns

  // ---------- The calls of a kind, in order ----------

  function VoucherCalls(ops: seq<Op>): seq<Op> {
    if ops == [] then []
    else VoucherCalls(ops[..|ops| - 1]) + if ops[|ops| - 1].OpVoucher? then [ops[|ops| - 1]] else []
  }

  function NoticeCalls(ops: seq<Op>): seq<Op> {
    if ops == [] then []
    else NoticeCalls(ops[..|ops| - 1]) + if ops[|ops| - 1].OpNotice? then [ops[|ops| - 1]] else []
  }

  function ReportCalls(ops: seq<Op>): seq<Op> {
    if ops == [] then []
    else ReportCalls(ops[..|ops| - 1]) + if ops[|ops| - 1].OpReport? then [ops[|ops| - 1]] else []
  }

  function InspectCalls(ops: seq<Op>): seq<Op> {
    if ops == [] then []
    else InspectCalls(ops[..|ops| - 1]) + if ops[|ops| - 1].OpInspect? then [ops[|ops| - 1]] else []
  }

  predicate AreVouchers(vs: seq<Voucher>, calls: seq<Op>, input: nat) {
    && |vs| == |calls|
    && forall k :: 0 <= k < |vs| ==>
         calls[k].OpVoucher? && vs[k] == Voucher(k, input, calls[k].destination, calls[k].payload)
  }

  predicate AreNotices(ns: seq<Notice>, calls: seq<Op>, input: nat) {
    && |ns| == |calls|
    && forall k :: 0 <= k < |ns| ==> calls[k].OpNotice? && ns[k] == Notice(k, input, calls[k].payload)
  }

  predicate AreReports(rs: seq<Report>, calls: seq<Op>, input: nat) {
    && |rs| == |calls|
    && forall k :: 0 <= k < |rs| ==> calls[k].OpReport? && rs[k] == Report(k, input, calls[k].payload)
  }

  lemma {:induction false} RunJoin(m: Model, a: seq<Op>, b: seq<Op>)
    ensures Run(m, a + b) == Run(Run(m, a), b)
    decreases |a|
  {
    if a == [] {
      assert a + b == b;
    } else {
      assert (a + b)[0] == a[0] && (a + b)[1..] == a[1..] + b;
      RunJoin(Step(m, a[0]).0, a[1..], b);
    }
  }

  lemma RunLast(m: Model, ops: seq<Op>)
    requires ops != []
    ensures Run(m, ops) == Step(Run(m, ops[..|ops| - 1]), ops[|ops| - 1]).0
  {
    var last := ops[|ops| - 1];
    assert ops == ops[..|ops| - 1] + [last] && [last][1..] == [];
    RunJoin(m, ops[..|ops| - 1], [last]);
    assert Run(Run(m, ops[..|ops| - 1]), [last]) == Step(Run(m, ops[..|ops| - 1]), last).0;
  }

  /** No call of the kinds that end the input in flight. */
  predicate NoneEnds(ops: seq<Op>) { forall i :: 0 <= i < |ops| ==> !ops[i].OpFinish? && !ops[i].OpException? }

  // ---------- What is added to the input in flight ----------

  predicate Collected(p: Phase, row: InputRow, ops: seq<Op>) {
    && p.Advancing? && p.input == row
    && AreVouchers(p.vouchers, VoucherCalls(ops), row.index)
    && AreNotices(p.notices, NoticeCalls(ops), row.index)
    && AreReports(p.reports, ReportCalls(ops), row.index)
  }

  lemma CallsOneMore(ops: seq<Op>, op: Op)
    ensures VoucherCalls(ops + [op]) == VoucherCalls(ops) + if op.OpVoucher? then [op] else []
    ensures NoticeCalls(ops + [op]) == NoticeCalls(ops) + if op.OpNotice? then [op] else []
    ensures ReportCalls(ops + [op]) == ReportCalls(ops) + if op.OpReport? then [op] else []
  {
    assert (ops + [op])[..|ops|] == ops;
  }

  lemma AddsToPhase(m: Model, op: Op)
    requires m.phase.Advancing? && !op.OpFinish? && !op.OpException?
    ensures var p := m.phase;
            Step(m, op).0.phase ==
            match op
            case OpVoucher(destination, payload) =>
              p.(vouchers := p.vouchers + [Voucher(|p.vouchers|, p.input.index, destination, payload)])
            case OpNotice(payload) => p.(notices := p.notices + [Notice(|p.notices|, p.input.index, payload)])
            case OpReport(payload) => p.(reports := p.reports + [Report(|p.reports|, p.input.index, payload)])
            case _ => p
  {
  }

  lemma CollectStep(m: Model, row: InputRow, ops: seq<Op>, op: Op)
    requires Collected(m.phase, row, ops) && !op.OpFinish? && !op.OpException?
    ensures Collected(Step(m, op).0.phase, row, ops + [op])
  {
    CallsOneMore(ops, op);
    AddsToPhase(m, op);
    var p := m.phase;
    match op {
      case OpVoucher(_, _) => VouchersOneMore(p.vouchers, VoucherCalls(ops), row.index, op);
      case OpNotice(_) => NoticesOneMore(p.notices, NoticeCalls(ops), row.index, op);
      case OpReport(_) => ReportsOneMore(p.reports, ReportCalls(ops), row.index, op);
      case _ =>
    }
  }

  lemma VouchersOneMore(vs: seq<Voucher>, calls: seq<Op>, input: nat, op: Op)
    requires AreVouchers(vs, calls, input) && op.OpVoucher?
    ensures AreVouchers(vs + [Voucher(|vs|, input, op.destination, op.payload)], calls + [op], input)
  {
  }

  lemma NoticesOneMore(ns: seq<Notice>, calls: seq<Op>, input: nat, op: Op)
    requires AreNotices(ns, calls, input) && op.OpNotice?
    ensures AreNotices(ns + [Notice(|ns|, input, op.payload)], calls + [op], input)
  {
  }

  lemma ReportsOneMore(rs: seq<Report>, calls: seq<Op>, input: nat, op: Op)
    requires AreReports(rs, calls, input) && op.OpReport?
    ensures AreReports(rs + [Report(|rs|, input, op.payload)], calls + [op], input)
  {
  }

  /** While an advance is in flight it collects the vouchers, notices and reports of the calls, each kind in order and
      numbered from zero, with their destinations and payloads. */
  lemma {:induction false} AdvanceCollects(m: Model, row: InputRow, ops: seq<Op>)
    requires m.phase == Advancing(row, [], [], []) && NoneEnds(ops)
    ensures Collected(Run(m, ops).phase, row, ops)
    decreases |ops|
  {
    if ops != [] {
      var init, last := ops[..|ops| - 1], ops[|ops| - 1];
      assert forall i :: 0 <= i < |init| ==> init[i] == ops[i];
      AdvanceCollects(m, row, init);
      RunLast(m, ops);
      CollectStep(Run(m, init), row, init, last);
      assert ops == init + [last];
    }
  }

  /** While an inspect is in flight it collects the reports of the calls. */
  lemma {:induction false} InspectCollects(m: Model, pos: nat, ops: seq<Op>)
    requires m.phase == Inspecting(pos, []) && NoneEnds(ops)
    ensures var p := Run(m, ops).phase;
            p.Inspecting? && p.pos == pos && AreReports(p.inspectReports, ReportCalls(ops), pos)
    decreases |ops|
  {
    if ops != [] {
      var init := ops[..|ops| - 1];
      assert forall i :: 0 <= i < |init| ==> init[i] == ops[i];
      InspectCollects(m, pos, init);
      RunLast(m, ops);
    }
  }

  /** What the calls on the input in flight answer, and that they are refused when there is none. */
  lemma AddReplies(m: Model, op: Op)
    requires op.OpVoucher? || op.OpNotice? || op.OpReport?
    ensures var (m', r) := Step(m, op);
            && m'.inspects == m.inspects && m'.db == m.db
            && (r == Forbidden <==> m.phase.Idle? || (m.phase.Inspecting? && !op.OpReport?))
            && (r == Forbidden ==> m' == m)
            && (r != Forbidden && op.OpVoucher? ==> r == Index(|m.phase.vouchers|))
            && (r != Forbidden && op.OpNotice? ==> r == Index(|m.phase.notices|))
            && (r != Forbidden && op.OpReport? ==> r == Done)
  {
  }

  /** What arrives is taken in any state and leaves the input in flight alone: an inspect gets the position under which
      it is found, an advance no number. */
  lemma ArrivalReplies(m: Model, payload: string, row: InputRow)
    ensures var (m', r) := Step(m, OpInspect(payload));
            && r.Index? && r.index < |m'.inspects| && m'.inspects == m.inspects + [m'.inspects[r.index]]
            && m'.inspects[r.index] == Inspect(r.index, Unprocessed, payload, 0, [], "")
            && m' == m.(inspects := m'.inspects)
    ensures var (m', r) := Step(m, OpAdvance(row));
            r == Done && m' == m.(db := m'.db) && (m.db.tx.None? ==> m.db.committed.inputs <= m'.db.committed.inputs)
  {
  }

  // ---------- How an advance ends ----------

  ghost predicate ReadyToEnd(m: Model) {
    && m.phase.Advancing? && m.db.tx.None?
    && WellNumbered(m.phase) && UntouchedInput(m.db.committed, m.phase.input.index)
  }

  /** The tables once the advance in flight has been finished with a status. */
  function Finished(m: Model, status: CompletionStatus): Tables
    requires m.phase.Advancing?
  {
    Closed(m.db.committed, m.phase.input, status, m.phase.input.exception, KeptVouchers(m.phase, status),
           KeptNotices(m.phase, status), TableOf(ReportOutputs(m.phase.reports)))
  }

  /** The tables once it has raised an exception. */
  function Failed(m: Model, payload: string): Tables
    requires m.phase.Advancing?
  {
    Closed(m.db.committed, m.phase.input, Exception, payload, map[], map[], TableOf(ReportOutputs(m.phase.reports)))
  }

  lemma FinishStep(m: Model, accept: bool, w: Written)
    requires m.phase.Advancing? && w.err.None?
    requires w == FinishAdvance(m.db, m.phase, if accept then Accepted else Rejected)
    ensures Step(m, OpFinish(accept)) == Dispatch(m.(db := w.db))
  {
  }

  lemma FinishEnds(m: Model, accept: bool)
    requires ReadyToEnd(m)
    ensures Step(m, OpFinish(accept)) ==
            Dispatch(m.(db := Db(Finished(m, if accept then Accepted else Rejected), None)))
  {
    var w := Written(Db(Finished(m, if accept then Accepted else Rejected), None), None);
    assert w == FinishAdvance(m.db, m.phase, if accept then Accepted else Rejected) by {
      FinishAdvanceStores(m.db, m.phase, if accept then Accepted else Rejected);
    }
    FinishStep(m, accept, w);
  }

  lemma ExceptionStep(m: Model, payload: string, w: Written)
    requires m.phase.Advancing? && w.err.None? && w == FailAdvance(m.db, m.phase, payload)
    ensures Step(m, OpException(payload)) == (m.(db := w.db, phase := Idle), Done)
  {
  }

  lemma ExceptionEnds(m: Model, payload: string)
    requires ReadyToEnd(m)
    ensures Step(m, OpException(payload)) == (m.(db := Db(Failed(m, payload), None), phase := Idle), Done)
  {
    var w := Written(Db(Failed(m, payload), None), None);
    assert w == FailAdvance(m.db, m.phase, payload) by { FailAdvanceStores(m.db, m.phase, payload); }
    ExceptionStep(m, payload, w);
  }

  /** From every reachable state with an advance in flight: finishing it writes its outputs, sets the status of its row,
      and hands out the next; an exception writes its reports, sets the status and the payload, and leaves the machine
      idle. */
  lemma AdvanceEnds(ops: seq<Op>, accept: bool, payload: string)
    requires Run(NEW_MODEL, ops).phase.Advancing?
    ensures var m := Run(NEW_MODEL, ops);
            && Step(m, OpFinish(accept)) ==
               Dispatch(m.(db := Db(Finished(m, if accept then Accepted else Rejected), None)))
            && Step(m, OpException(payload)) == (m.(db := Db(Failed(m, payload), None), phase := Idle), Done)
  {
    ReachableAdvance(ops);
    FinishEnds(Run(NEW_MODEL, ops), accept);
    ExceptionEnds(Run(NEW_MODEL, ops), payload);
  }

  /** An exception without an input in flight is refused and changes nothing; one of an inspect leaves the machine
      idle. */
  lemma ExceptionReplies(m: Model, payload: string)
    ensures m.phase.Idle? ==> Step(m, OpException(payload)) == (m, Forbidden)
    ensures m.phase.Inspecting? ==>
              Step(m, OpException(payload)).1 == Done && Step(m, OpException(payload)).0.phase == Idle
  {
  }

  predicate ReportsStored(t: Tables, index: nat, calls: seq<Op>) {
    forall k :: 0 <= k < |calls| ==>
      && calls[k].OpReport? && Key(index, k) in t.reports
      && t.reports[Key(index, k)] == Row(ZERO_ADDRESS, calls[k].payload)
  }

  predicate FirstVoucherStored(t: Tables, index: nat, calls: seq<Op>) {
    calls != [] ==>
      && calls[0].OpVoucher? && Key(index, 0) in t.vouchers
      && t.vouchers[Key(index, 0)] ==
         Row(ZERO_ADDRESS, VoucherContent(calls[0].destination, "0x" + calls[0].payload, false))
  }

  predicate FirstNoticeStored(t: Tables, index: nat, calls: seq<Op>) {
    calls != [] ==>
      && calls[0].OpNotice? && Key(index, 0) in t.notices
      && t.notices[Key(index, 0)] == Row(ZERO_ADDRESS, "0x" + calls[0].payload)
  }

  lemma ReportsAreStored(t: Tables, r: Table<string>, index: nat, rs: seq<Report>, calls: seq<Op>)
    requires AreReports(rs, calls, index) && t.reports == r + TableOf(ReportOutputs(rs))
    ensures ReportsStored(t, index, calls)
  {
    var os := ReportOutputs(rs);
    assert DistinctKeys(os) by { assert forall k :: 0 <= k < |os| ==> os[k].key == Key(index, k); }
    forall k | 0 <= k < |calls| ensures Key(index, k) in t.reports
                                ensures t.reports[Key(index, k)] == Row(ZERO_ADDRESS, calls[k].payload)
    {
      TableOfAt(os, k);
    }
  }

  lemma FirstsAreStored(m: Model, vs: seq<Op>, ns: seq<Op>)
    requires m.phase.Advancing?
    requires AreVouchers(m.phase.vouchers, vs, m.phase.input.index)
    requires AreNotices(m.phase.notices, ns, m.phase.input.index)
    ensures FirstVoucherStored(Finished(m, Accepted), m.phase.input.index, vs)
    ensures FirstNoticeStored(Finished(m, Accepted), m.phase.input.index, ns)
  {
  }

  /** End to end: an advance that was dispatched in some run, and the calls made until it ends. Every report of the
      calls is a row under its number with its payload, however the advance ends; when it is accepted, so are the
      first voucher and the first notice, behind 0x; and the row of the input has the status of the ending. */
  lemma CallsAreStored(before: seq<Op>, row: InputRow, ops: seq<Op>, end: Op)
    requires Run(NEW_MODEL, before).phase == Advancing(row, [], [], []) && NoneEnds(ops)
    requires end.OpFinish? || end.OpException?
    ensures var t := Step(Run(NEW_MODEL, before + ops), end).0.db.committed;
            && ReportsStored(t, row.index, ReportCalls(ops))
            && (end == OpFinish(true) ==> FirstVoucherStored(t, row.index, VoucherCalls(ops)))
            && (end == OpFinish(true) ==> FirstNoticeStored(t, row.index, NoticeCalls(ops)))
            && (forall i :: 0 <= i < |t.inputs| && t.inputs[i].index == row.index ==>
                  && t.inputs[i].status == StatusFrom(end)
                  && (end.OpException? ==> t.inputs[i].exception == end.payload))
  {
    var m := Run(NEW_MODEL, before + ops);
    RunJoin(NEW_MODEL, before, ops);
    AdvanceCollects(Run(NEW_MODEL, before), row, ops);
    ReachableAdvance(before + ops);
    if end.OpFinish? {
      var t := Finished(m, StatusFrom(end));
      FinishEnds(m, end.accept);
      DispatchOrder(m.(db := Db(t, None)));
      ReportsAreStored(t, m.db.committed.reports, row.index, m.phase.reports, ReportCalls(ops));
      if end.accept { FirstsAreStored(m, VoucherCalls(ops), NoticeCalls(ops)); }
    } else {
      ExceptionEnds(m, end.payload);
      ReportsAreStored(Failed(m, end.payload), m.db.committed.reports, row.index, m.phase.reports, ReportCalls(ops));
    }
  }

  // ---------- When the database refuses a write ----------

  lemma {:induction false} SendVouchersTouches(db: Db, vs: seq<Voucher>)
    requires db.tx.None?
    ensures var w := SendVouchers(db, vs);
            w.db.tx.None? && w.db.committed == db.committed.(vouchers := w.db.committed.vouchers)
    decreases |vs|
  {
    if vs != [] {
      DecoderUndoesAdapter(db, vs[0].destination, vs[0].payload, vs[0].inputIndex, vs[0].index);
      var w := HandleOutput(db, vs[0].destination, ConvertVoucherPayloadToV2(vs[0].payload), vs[0].inputIndex,
                            vs[0].index);
      if w.Ok? { SendVouchersTouches(w.value, vs[1..]); }
    }
  }

  lemma {:induction false} SendNoticesTouches(db: Db, ns: seq<Notice>)
    requires db.tx.None?
    ensures var w := SendNotices(db, ns);
            w.db.tx.None? && w.db.committed == db.committed.(notices := w.db.committed.notices)
    decreases |ns|
  {
    if ns != [] {
      DecoderUndoesAdapter(db, ZERO_ADDRESS, ns[0].payload, ns[0].inputIndex, ns[0].index);
      var w := HandleOutput(db, ZERO_ADDRESS, ConvertNoticePayloadToV2(ns[0].payload), ns[0].inputIndex, ns[0].index);
      if w.Ok? { SendNoticesTouches(w.value, ns[1..]); }
    }
  }

  lemma {:induction false} SaveReportsTouches(db: Db, rs: seq<Report>)
    requires db.tx.None?
    ensures var w := SaveReports(db, rs);
            w.db.tx.None? && w.db.committed == db.committed.(reports := w.db.committed.reports)
    decreases |rs|
  {
    if rs != [] {
      var w := db.InsertReport(Output(Key(rs[0].inputIndex, rs[0].index), ZERO_ADDRESS, rs[0].payload));
      if w.Ok? { SaveReportsTouches(w.value, rs[1..]); }
    }
  }

  /** In any state, when a write of a finish is refused, the reply is the refusal, the writes before it stay, the input
      stays in flight with its status, and no inspect changes. */
  lemma RefusedFinish(m: Model, accept: bool)
    requires m.db.tx.None? && m.phase.Advancing?
    ensures var (m', r) := Step(m, OpFinish(accept));
            var w := FinishAdvance(m.db, m.phase, if accept then Accepted else Rejected);
            && (r.Failed? <==> w.err.Some?)
            && (r.Failed? ==> r.error == w.err.value && m' == m.(db := w.db))
            && (r.Failed? ==> m'.db.committed.inputs == m.db.committed.inputs)
  {
    var status := if accept then Accepted else Rejected;
    FinishTouches(m.db, m.phase, status);
    if FinishAdvance(m.db, m.phase, status).err.None? {
      DispatchOrder(m.(db := FinishAdvance(m.db, m.phase, status).db));
    }
  }

  /** An exception sets the status of the input in flight even when one of its reports is refused; the input stays in
      flight exactly then, with the payload as its exception. */
  lemma RefusedException(m: Model, payload: string)
    requires m.db.tx.None? && m.phase.Advancing?
    ensures var (m', r) := Step(m, OpException(payload));
            var w := FailAdvance(m.db, m.phase, payload);
            && m'.db == w.db && r == (if w.err.Some? then Reply.Failed(w.err.value) else Done)
            && m'.db.committed.inputs ==
               SetStatus(m.db.committed.inputs, m.phase.input.index, Exception, payload)
            && m'.inspects == m.inspects
            && m'.phase == if r.Failed? then m.phase.(input := m.phase.input.(exception := payload)) else Idle
  {
    SaveReportsTouches(m.db.UpdateInput(m.phase.input.index, Exception, payload), m.phase.reports);
  }

  /** Whatever a finish writes before a refusal, the input table is untouched; and nothing is written after it. */
  lemma FinishTouches(db: Db, a: Phase, status: CompletionStatus)
    requires db.tx.None? && a.Advancing?
    ensures var w := FinishAdvance(db, a, status);
            w.err.Some? ==> w.db.committed.inputs == db.committed.inputs
    ensures status == Accepted && SendVouchers(db, a.vouchers).err.Some? ==>
              FinishAdvance(db, a, status) == SendVouchers(db, a.vouchers)
    ensures status != Accepted && SaveReports(db, a.reports).err.Some? ==>
              FinishAdvance(db, a, status) == SaveReports(db, a.reports)
  {
    SendVouchersTouches(db, a.vouchers);
    var v := SendVouchers(db, a.vouchers);
    SendNoticesTouches(v.db, a.notices);
    SaveReportsTouches(SendNotices(v.db, a.notices).db, a.reports);
    SaveReportsTouches(db, a.reports);
  }

  // ---------- What arrives ----------

  /** In every run the inspects are those of the calls, in order, each with its position and its payload. */
  lemma {:induction false} InspectsAreTheCalls(ops: seq<Op>)
    ensures var xs, calls := Run(NEW_MODEL, ops).inspects, InspectCalls(ops);
            && |xs| == |calls|
            && forall i :: 0 <= i < |xs| ==>
                 && calls[i].OpInspect?
                 && xs[i].index == i
                 && xs[i].payload == calls[i].payload
    decreases |ops|
  {
    if ops != [] {
      var init, last := ops[..|ops| - 1], ops[|ops| - 1];
      InspectsAreTheCalls(init);
      RunLast(NEW_MODEL, ops);
      RunKeepsInv(NEW_MODEL, init);
      InspectStepKeeps(Run(NEW_MODEL, init), last);
    }
  }

  lemma InspectStepKeeps(m: Model, op: Op)
    ensures var xs, ys := m.inspects, Step(m, op).0.inspects;
            && |ys| == |xs| + (if op.OpInspect? then 1 else 0)
            && (forall i :: 0 <= i < |xs| ==> ys[i].index == xs[i].index && ys[i].payload == xs[i].payload)
            && (op.OpInspect? ==> ys[|xs|].index == |xs| && ys[|xs|].payload == op.payload)
  {
    if op.OpFinish? {
      DispatchOrder(Finish(m, if op.accept then Accepted else Rejected).0);
    }
  }

  /** A row of the input table is that of a call, but for the status, the exception and the application. */
  predicate FromCall(row: InputRow, ops: seq<Op>) {
    exists i :: 0 <= i < |ops| && ops[i].OpAdvance? &&
      row == ops[i].row.(app := ZERO_ADDRESS, status := row.status, exception := row.exception)
  }

  lemma FromCallStays(row: InputRow, row': InputRow, init: seq<Op>, last: Op)
    requires FromCall(row, init) && row' == row.(status := row'.status, exception := row'.exception)
    ensures FromCall(row', init + [last])
  {
    var i :| 0 <= i < |init| && init[i].OpAdvance? &&
      row == init[i].row.(app := ZERO_ADDRESS, status := row.status, exception := row.exception);
    assert (init + [last])[i] == init[i];
  }

  lemma FoundStays(rows: seq<InputRow>, rows': seq<InputRow>, index: nat)
    requires |rows| <= |rows'| && forall i :: 0 <= i < |rows| ==> rows'[i].index == rows[i].index
    ensures FindByIndex(rows, index).Some? ==> FindByIndex(rows', index).Some?
  {
    if FindByIndex(rows, index).Some? {
      var i :| 0 <= i < |rows| && rows[i].index == index;
      assert rows'[i].index == index;
    }
  }

  predicate AllFromCalls(rows: seq<InputRow>, ops: seq<Op>) { forall i :: 0 <= i < |rows| ==> FromCall(rows[i], ops) }

  predicate AllFound(rows: seq<InputRow>, ops: seq<Op>) {
    forall k :: 0 <= k < |ops| && ops[k].OpAdvance? ==> FindByIndex(rows, ops[k].row.index).Some?
  }

  /** A step leaves the rows in place, up to status and exception, and adds at most the row of an advance. */
  predicate RowsStep(rows: seq<InputRow>, rows': seq<InputRow>, op: Op) {
    && |rows| <= |rows'| <= |rows| + 1
    && (forall i :: 0 <= i < |rows| ==>
          rows'[i] == rows[i].(status := rows'[i].status, exception := rows'[i].exception))
    && (|rows'| > |rows| ==>
          op.OpAdvance? && rows'[|rows|] == op.row.(app := ZERO_ADDRESS, status := Unprocessed, exception := ""))
  }

  lemma RowsFromCalls(rows: seq<InputRow>, rows': seq<InputRow>, init: seq<Op>, last: Op)
    requires AllFromCalls(rows, init) && RowsStep(rows, rows', last)
    ensures AllFromCalls(rows', init + [last])
  {
    forall i | 0 <= i < |rows'| ensures FromCall(rows'[i], init + [last]) {
      if i < |rows| { FromCallStays(rows[i], rows'[i], init, last); } else { assert (init + [last])[|init|] == last; }
    }
  }

  lemma CallsAreFound(rows: seq<InputRow>, rows': seq<InputRow>, init: seq<Op>, last: Op)
    requires AllFound(rows, init) && RowsStep(rows, rows', last)
    requires last.OpAdvance? ==> FindByIndex(rows', last.row.index).Some?
    ensures AllFound(rows', init + [last])
  {
    var ops := init + [last];
    forall k | 0 <= k < |ops| && ops[k].OpAdvance? ensures FindByIndex(rows', ops[k].row.index).Some? {
      if k < |init| {
        assert init[k] == ops[k];
        FoundStays(rows, rows', ops[k].row.index);
      }
    }
  }

  lemma {:induction false} InputsAreFromCalls(ops: seq<Op>)
    ensures AllFromCalls(Run(NEW_MODEL, ops).db.committed.inputs, ops)
    decreases |ops|
  {
    if ops != [] {
      var init, last := ops[..|ops| - 1], ops[|ops| - 1];
      InputsAreFromCalls(init);
      var m := InputsOfRun(ops);
      RowsFromCalls(m.db.committed.inputs, Run(NEW_MODEL, ops).db.committed.inputs, init, last);
    }
  }

  lemma {:induction false} CallsHaveInputs(ops: seq<Op>)
    ensures AllFound(Run(NEW_MODEL, ops).db.committed.inputs, ops)
    decreases |ops|
  {
    if ops != [] {
      var init, last := ops[..|ops| - 1], ops[|ops| - 1];
      CallsHaveInputs(init);
      var m := InputsOfRun(ops);
      CallsAreFound(m.db.committed.inputs, Run(NEW_MODEL, ops).db.committed.inputs, init, last);
    }
  }

  lemma InputsOfRun(ops: seq<Op>) returns (m: Model)
    requires ops != []
    ensures var init, last := ops[..|ops| - 1], ops[|ops| - 1];
            var rows' := Run(NEW_MODEL, ops).db.committed.inputs;
            && ops == init + [last] && m == Run(NEW_MODEL, init)
            && RowsStep(m.db.committed.inputs, rows', last)
            && (last.OpAdvance? ==> FindByIndex(rows', last.row.index).Some?)
  {
    m := Run(NEW_MODEL, ops[..|ops| - 1]);
    RunKeepsInv(NEW_MODEL, ops[..|ops| - 1]);
    InputStep(m, ops[|ops| - 1]);
    RunLast(NEW_MODEL, ops);
  }

  /** In every run every input row is from a call, and every index that a call brought has a row. */
  lemma InputsAreTheCalls(ops: seq<Op>)
    ensures AllFromCalls(Run(NEW_MODEL, ops).db.committed.inputs, ops)
    ensures AllFound(Run(NEW_MODEL, ops).db.committed.inputs, ops)
  {
    InputsAreFromCalls(ops);
    CallsHaveInputs(ops);
  }

  /** What a step does to the input table: rows stay, and an advance whose index is new adds one. */
  lemma InputStep(m: Model, op: Op)
    requires Inv(m)
    ensures var rows' := Step(m, op).0.db.committed.inputs;
            RowsStep(m.db.committed.inputs, rows', op) && (op.OpAdvance? ==> FindByIndex(rows', op.row.index).Some?)
  {
    StepKeepsInv(m, op);
    if op.OpAdvance? {
      var rows, rows' := m.db.committed.inputs, Step(m, op).0.db.committed.inputs;
      if FindByIndex(rows, op.row.index).None? { assert rows'[|rows|].index == op.row.index; }
    } else if op.OpFinish? {
      FinishKeepsLength(m, op.accept);
    } else if op.OpException? && m.phase.Advancing? {
      FailedAdvanceIsClosed(m, op.payload);
    }
  }

  lemma FinishKeepsLength(m: Model, accept: bool)
    requires Inv(m)
    ensures |FinishAndGetNext(m, accept).0.db.committed.inputs| == |m.db.committed.inputs|
  {
    var status := if accept then Accepted else Rejected;
    if m.phase.Advancing? { FinishedAdvanceIsClosed(m, status); }
    DispatchOrder(Finish(m, status).0);
  }

  // ---------- The processed count ----------

  /** The count is the number of rows that are no longer Unprocessed. */
  lemma {:induction false} ProcessedCountCounts(rows: seq<InputRow>)
    ensures ProcessedCount(rows) == |(set i | 0 <= i < |rows| && rows[i].status != Unprocessed)|
    decreases |rows|
  {
    var all := set i | 0 <= i < |rows| && rows[i].status != Unprocessed;
    if rows == [] {
      assert all == {};
    } else {
      var init, last := rows[..|rows| - 1], rows[|rows| - 1];
      var before := set i | 0 <= i < |init| && init[i].status != Unprocessed;
      ProcessedCountCounts(init);
      CountAppend(init, last);
      assert rows == init + [last];
      assert all == before + if last.status != Unprocessed then {|init|} else {};
    }
  }

  // ---------- The replies of a finish request ----------

  function Joined(waits: seq<seq<Op>>): seq<Op> { if waits == [] then [] else waits[0] + Joined(waits[1..]) }

  predicate Waits(m: Model) {
    || (exists i :: 0 <= i < |m.inspects| && m.inspects[i].status == Unprocessed)
    || (exists i :: 0 <= i < |m.db.committed.inputs| && m.db.committed.inputs[i].status == Unprocessed)
  }

  lemma WaitsIff(m: Model)
    ensures Dispatch(m).1.NoInput? <==> !Waits(m)
    ensures Dispatch(m).1.NoInput? ==> Dispatch(m).0 == m.(phase := Idle)
  {
    DispatchOrder(m);
  }

  /** Polling an idle machine: it answers with what a dispatch hands out at the first poll at which something waits, or
      with nothing when nothing does at any of them. */
  lemma {:induction false} IdlePollReplies(m: Model, accept: bool, waits: seq<seq<Op>>) returns (j: nat)
    requires m.phase.Idle? && m.db.tx.None? && forall w :: w in waits ==> OnlyArrivals(w)
    ensures j <= |waits|
    ensures Poll(m, accept, waits) == Dispatch(Run(m, Joined(waits[..j])))
    ensures forall i :: 0 <= i < j ==> !Waits(Run(m, Joined(waits[..i])))
    ensures !Waits(Run(m, Joined(waits[..j]))) ==> j == |waits|
    decreases |waits|
  {
    WaitsIff(m);
    assert FinishAndGetNext(m, accept) == Dispatch(m);
    assert waits[..0] == [];
    if Waits(m) || waits == [] {
      j := 0;
    } else {
      assert m.(phase := Idle) == m;
      assert waits[0] in waits;
      var m1, rest := Run(m, waits[0]), waits[1..];
      ArrivalsOnlyAdd(m, waits[0]);
      var k := IdlePollReplies(m1, accept, rest);
      j := k + 1;
      forall i | 0 < i <= j ensures Run(m, Joined(waits[..i])) == Run(m1, Joined(rest[..i - 1])) {
        JoinedPrefix(m, waits, i);
      }
    }
  }

  lemma JoinedPrefix(m: Model, waits: seq<seq<Op>>, i: nat)
    requires 0 < i <= |waits|
    ensures Run(m, Joined(waits[..i])) == Run(Run(m, waits[0]), Joined(waits[1..][..i - 1]))
  {
    assert waits[..i][0] == waits[0] && waits[..i][1..] == waits[1..][..i - 1];
    RunJoin(m, waits[0], Joined(waits[1..][..i - 1]));
  }

  /** A finish request answers with what waits after the first poll, or else with what waits at the first later poll at
      which something does; it answers that there is nothing only after its last poll. */
  lemma PollReplies(m: Model, accept: bool, waits: seq<seq<Op>>) returns (j: nat)
    requires Inv(m) && forall w :: w in waits ==> OnlyArrivals(w)
    ensures j <= |waits|
    ensures var first := FinishAndGetNext(m, accept);
            && (j == 0 ==> Poll(m, accept, waits) == first)
            && (j > 0 ==> first.1.NoInput? && Poll(m, accept, waits) == Dispatch(Run(first.0, Joined(waits[..j]))))
            && (forall i :: 0 <= i < j ==> !Waits(Run(first.0, Joined(waits[..i]))))
            && (Poll(m, accept, waits).1.NoInput? ==> j == |waits|)
  {
    var (m', r) := FinishAndGetNext(m, accept);
    j := 0;
    if r.NoInput? && waits != [] {
      FirstPoll(m, accept);
      assert waits[0] in waits;
      ArrivalsOnlyAdd(m', waits[0]);
      var k := IdlePollReplies(Run(m', waits[0]), accept, waits[1..]);
      j := k + 1;
      LaterPolls(m', waits, k);
      WaitsIff(Run(m', Joined(waits[..j])));
    }
  }

  lemma FirstPoll(m: Model, accept: bool)
    requires Inv(m)
    ensures var first := FinishAndGetNext(m, accept);
            first.1.NoInput? ==> first.0.phase == Idle && first.0.db.tx.None? && !Waits(first.0)
  {
    var done := Finish(m, if accept then Accepted else Rejected).0;
    FinishKeepsInv(m, if accept then Accepted else Rejected);
    WaitsIff(done);
  }

  lemma LaterPolls(m: Model, waits: seq<seq<Op>>, k: nat)
    requires waits != [] && k < |waits| && !Waits(m)
    requires forall i :: 0 <= i < k ==> !Waits(Run(Run(m, waits[0]), Joined(waits[1..][..i])))
    ensures Run(m, Joined(waits[..k + 1])) == Run(Run(m, waits[0]), Joined(waits[1..][..k]))
    ensures forall i :: 0 <= i < k + 1 ==> !Waits(Run(m, Joined(waits[..i])))
  {
    JoinedPrefix(m, waits, k + 1);
    forall i | 0 <= i < k + 1 ensures !Waits(Run(m, Joined(waits[..i]))) {
      if i == 0 {
        assert waits[..0] == [];
      } else {
        JoinedPrefix(m, waits, i);
      }
    }
  }
}
