/** What every run of the rollup machine keeps, when the database itself does not fail. */
module RollupRuns {
  import opened Wrappers
  import opened Repository
  import opened Database
  import opened Rollup
  import opened RollupOutputs

  // ---------- The input table ----------

  ghost predicate Processed(rows: seq<InputRow>, index: nat) {
    exists i :: 0 <= i < |rows| && rows[i].index == index && rows[i].status != Unprocessed
  }

  lemma {:induction false} CountAppend(rows: seq<InputRow>, row: InputRow)
    ensures ProcessedCount(rows + [row]) == ProcessedCount(rows) + if row.status != Unprocessed then 1 else 0
    decreases |rows|
  {
    if rows == [] {
      assert (rows + [row])[1..] == [];
    } else {
      assert (rows + [row])[1..] == rows[1..] + [row];
      CountAppend(rows[1..], row);
    }
  }

  lemma {:induction false} CountAfterUpdate(rows: seq<InputRow>, index: nat, status: CompletionStatus,
                                            exception: string)
    requires status != Unprocessed
    ensures ProcessedCount(SetStatus(rows, index, status, exception)) >= ProcessedCount(rows)
    decreases |rows|
  {
    if rows != [] {
      assert SetStatus(rows, index, status, exception)[1..] == SetStatus(rows[1..], index, status, exception);
      CountAfterUpdate(rows[1..], index, status, exception);
    }
  }

  // ---------- The invariant ----------

  /** Output rows exist only for inputs that left Unprocessed, and input indices are unique. */
  ghost predicate TablesOk(t: Tables) {
    && OneRowPerIndex(t.inputs)
    && (forall k :: k in t.vouchers ==> Processed(t.inputs, k.input))
    && (forall k :: k in t.notices ==> Processed(t.inputs, k.input))
    && (forall k :: k in t.reports ==> Processed(t.inputs, k.input))
  }

  /** Completed inspects are a prefix of the list, with counts that never decrease nor exceed the current one. */
  ghost predicate InspectsOk(inspects: seq<Inspect>, count: nat) {
    && (forall i, j :: 0 <= i < j < |inspects| && inspects[j].status != Unprocessed ==>
        inspects[i].status != Unprocessed)
    && (forall i, j :: 0 <= i < j < |inspects| && inspects[j].status != Unprocessed ==>
        inspects[i].processed <= inspects[j].processed)
    && (forall i :: 0 <= i < |inspects| && inspects[i].status != Unprocessed ==> inspects[i].processed <= count)
    && (forall i :: 0 <= i < |inspects| ==> inspects[i].index == i)
  }

  /** An advance in flight is a row that is still Unprocessed; an inspect in flight directly follows the completed
      ones. */
  ghost predicate PhaseOk(m: Model) {
    match m.phase
    case Idle => true
    case Advancing(input, _, _, _) =>
      input in m.db.committed.inputs && input.status == Unprocessed && WellNumbered(m.phase)
    case Inspecting(pos, reports) =>
      && pos == FirstUnprocessed(m.inspects) && pos < |m.inspects|
      && Numbered(ReportOutputs(reports), pos)
  }

  ghost predicate Inv(m: Model) {
    && m.db.tx.None?
    && TablesOk(m.db.committed)
    && InspectsOk(m.inspects, ProcessedCount(m.db.committed.inputs))
    && PhaseOk(m)
  }

  lemma UnprocessedIsUntouched(t: Tables, row: InputRow)
    requires TablesOk(t) && row in t.inputs && row.status == Unprocessed
    ensures !Processed(t.inputs, row.index) && UntouchedInput(t, row.index)
  {
  }

  // ---------- What finished inputs and their outputs keep ----------

  /** From one table state to a later one: input rows stay in place with their data, processed rows are frozen, and so
      are the outputs of processed inputs. */
  ghost predicate Frozen(t: Tables, t': Tables) {
    && |t.inputs| <= |t'.inputs|
    && (forall i :: 0 <= i < |t.inputs| ==>
          && t'.inputs[i] == t.inputs[i].(status := t'.inputs[i].status, exception := t'.inputs[i].exception)
          && (t.inputs[i].status != Unprocessed ==> t'.inputs[i] == t.inputs[i]))
    && SameOutputs(t.inputs, t.vouchers, t'.vouchers)
    && SameOutputs(t.inputs, t.notices, t'.notices)
    && SameOutputs(t.inputs, t.reports, t'.reports)
  }

  ghost predicate SameOutputs<C>(rows: seq<InputRow>, o: Table<C>, o': Table<C>) {
    forall k: Key :: Processed(rows, k.input) ==> (k in o <==> k in o') && (k in o ==> o'[k] == o[k])
  }

  lemma ProcessedStays(t: Tables, t': Tables)
    requires Frozen(t, t')
    ensures forall i :: Processed(t.inputs, i) ==> Processed(t'.inputs, i)
  {
    forall i | Processed(t.inputs, i) ensures Processed(t'.inputs, i) {
      var p :| 0 <= p < |t.inputs| && t.inputs[p].index == i && t.inputs[p].status != Unprocessed;
      assert t'.inputs[p] == t.inputs[p];
    }
  }

  lemma FrozenTransitive(a: Tables, b: Tables, c: Tables)
    requires Frozen(a, b) && Frozen(b, c)
    ensures Frozen(a, c)
  {
    ProcessedStays(a, b);
  }

  // ---------- Closing an advance ----------

  lemma ProcessedAfterUpdate(rows: seq<InputRow>, row: InputRow, status: CompletionStatus, exception: string)
    requires row in rows && status != Unprocessed
    ensures forall i :: Processed(rows, i) || i == row.index ==>
        Processed(SetStatus(rows, row.index, status, exception), i)
  {
    var rows' := SetStatus(rows, row.index, status, exception);
    forall i | Processed(rows, i) || i == row.index ensures Processed(rows', i) {
      var p :| 0 <= p < |rows| && rows[p].index == i && (i == row.index || rows[p].status != Unprocessed);
      assert rows'[p].index == i && rows'[p].status != Unprocessed;
    }
  }

  /** A table that got rows of one input only keeps its invariant and its rows of processed inputs. */
  lemma OutputsOfClosedInput<C>(rows: seq<InputRow>, rows': seq<InputRow>, input: nat, o: Table<C>, added: Table<C>)
    requires !Processed(rows, input) && Processed(rows', input)
    requires forall i :: Processed(rows, i) ==> Processed(rows', i)
    requires forall k :: k in o ==> Processed(rows, k.input)
    requires forall k :: k in added ==> k.input == input
    ensures forall k :: k in o + added ==> Processed(rows', k.input)
    ensures SameOutputs(rows, o, o + added)
  {
  }

  ghost predicate OnlyOf<C>(t: Table<C>, input: nat) {
    forall k :: k in t ==> k.input == input
  }

  /** The tables once an advance has left: its outputs written, its row no longer Unprocessed. */
  lemma ClosedTablesOk(t: Tables, row: InputRow, status: CompletionStatus, exception: string,
                       v: Table<VoucherContent>, n: Table<string>, r: Table<string>)
    requires TablesOk(t) && row in t.inputs && row.status == Unprocessed && status != Unprocessed
    requires OnlyOf(v, row.index) && OnlyOf(n, row.index) && OnlyOf(r, row.index)
    ensures var t' := Closed(t, row, status, exception, v, n, r);
            TablesOk(t') && Frozen(t, t') && ProcessedCount(t'.inputs) >= ProcessedCount(t.inputs)
  {
    var rows' := SetStatus(t.inputs, row.index, status, exception);
    CountAfterUpdate(t.inputs, row.index, status, exception);
    assert !Processed(t.inputs, row.index) by { UnprocessedIsUntouched(t, row); }
    ProcessedAfterUpdate(t.inputs, row, status, exception);
    OutputsOfClosedInput(t.inputs, rows', row.index, t.vouchers, v);
    OutputsOfClosedInput(t.inputs, rows', row.index, t.notices, n);
    OutputsOfClosedInput(t.inputs, rows', row.index, t.reports, r);
  }

  lemma FinishedAdvanceIsClosed(m: Model, status: CompletionStatus)
    requires Inv(m) && m.phase.Advancing? && status != Unprocessed
    ensures var w := FinishAdvance(m.db, m.phase, status);
            && w.err.None? && w.db.tx.None? && TablesOk(w.db.committed) && Frozen(m.db.committed, w.db.committed)
            && ProcessedCount(w.db.committed.inputs) >= ProcessedCount(m.db.committed.inputs)
            && w.db.committed.inputs == SetStatus(m.db.committed.inputs, m.phase.input.index, status,
                                                  m.phase.input.exception)
  {
    var a := m.phase;
    UnprocessedIsUntouched(m.db.committed, a.input);
    FinishAdvanceStores(m.db, a, status);
    ClosedTablesOk(m.db.committed, a.input, status, a.input.exception, KeptVouchers(a, status), KeptNotices(a, status),
                   TableOf(ReportOutputs(a.reports)));
  }

  lemma FailedAdvanceIsClosed(m: Model, payload: string)
    requires Inv(m) && m.phase.Advancing?
    ensures var w := FailAdvance(m.db, m.phase, payload);
            && w.err.None? && w.db.tx.None? && TablesOk(w.db.committed) && Frozen(m.db.committed, w.db.committed)
            && ProcessedCount(w.db.committed.inputs) >= ProcessedCount(m.db.committed.inputs)
            && w.db.committed.inputs == SetStatus(m.db.committed.inputs, m.phase.input.index, Exception, payload)
  {
    var a := m.phase;
    UnprocessedIsUntouched(m.db.committed, a.input);
    FailAdvanceStores(m.db, a, payload);
    ClosedTablesOk(m.db.committed, a.input, Exception, payload, map[], map[], TableOf(ReportOutputs(a.reports)));
  }

  lemma FinishKeepsInv(m: Model, status: CompletionStatus)
    requires Inv(m) && status != Unprocessed
    ensures var (m', err) := Finish(m, status);
            && err.None?
            && m'.db.tx.None? && TablesOk(m'.db.committed) && Frozen(m.db.committed, m'.db.committed)
            && InspectsOk(m'.inspects, ProcessedCount(m'.db.committed.inputs))
            && |m'.inspects| == |m.inspects|
  {
    if m.phase.Advancing? { FinishedAdvanceIsClosed(m, status); }
  }

  lemma DispatchKeepsInv(m: Model)
    requires m.db.tx.None? && TablesOk(m.db.committed) && InspectsOk(m.inspects, ProcessedCount(m.db.committed.inputs))
    ensures Inv(Dispatch(m).0) && Dispatch(m).0.db == m.db && Dispatch(m).0.inspects == m.inspects
  {
  }

  lemma FinishAndGetNextKeepsInv(m: Model, accept: bool)
    requires Inv(m)
    ensures var (m', r) := FinishAndGetNext(m, accept);
            !r.Failed? && Inv(m') && Frozen(m.db.committed, m'.db.committed)
  {
    FinishKeepsInv(m, if accept then Accepted else Rejected);
    DispatchKeepsInv(Finish(m, if accept then Accepted else Rejected).0);
  }

  lemma ExceptionKeepsInv(m: Model, payload: string)
    requires Inv(m)
    ensures var (m', r) := RegisterException(m, payload);
            !r.Failed? && Inv(m') && Frozen(m.db.committed, m'.db.committed)
  {
    if m.phase.Advancing? { FailedAdvanceIsClosed(m, payload); }
  }

  lemma ArrivalKeepsInv(m: Model, row: InputRow)
    requires Inv(m)
    ensures var (m', r) := AddAdvanceInput(m, row);
            !r.Failed? && Inv(m') && Frozen(m.db.committed, m'.db.committed)
  {
    var added := row.(app := ZERO_ADDRESS, status := Unprocessed, exception := "");
    var rows, rows' := m.db.committed.inputs, AddAdvanceInput(m, row).0.db.committed.inputs;
    CountAppend(rows, added);
    forall i | Processed(rows, i) ensures Processed(rows', i) {
      var p :| 0 <= p < |rows| && rows[p].index == i && rows[p].status != Unprocessed;
      assert rows'[p] == rows[p];
    }
    forall i | 0 <= i < |rows| ensures rows'[i] == rows[i] {}
  }

  lemma OutputKeepsInv(m: Model, op: Op)
    requires Inv(m) && (op.OpVoucher? || op.OpNotice? || op.OpReport?)
    ensures var (m', r) := Step(m, op);
            !r.Failed? && Inv(m') && m'.db == m.db && m'.inspects == m.inspects
  {
    match m.phase {
      case Idle =>
      case Advancing(input, vouchers, notices, reports) =>
        if op.OpVoucher? {
          var v := Voucher(|vouchers|, input.index, op.destination, op.payload);
          forall i | 0 <= i <= |vouchers|
            ensures VoucherOutputs(vouchers + [v])[i].key == Key(input.index, i)
          {
            if i < |vouchers| { assert VoucherOutputs(vouchers + [v])[i] == VoucherOutputs(vouchers)[i]; }
          }
        } else if op.OpNotice? {
          var n := Notice(|notices|, input.index, op.payload);
          forall i | 0 <= i <= |notices|
            ensures NoticeOutputs(notices + [n])[i].key == Key(input.index, i)
          {
            if i < |notices| { assert NoticeOutputs(notices + [n])[i] == NoticeOutputs(notices)[i]; }
          }
        } else {
          ReportsStayNumbered(reports, input.index, op.payload);
        }
      case Inspecting(pos, reports) =>
        if op.OpReport? { ReportsStayNumbered(reports, pos, op.payload); }
    }
  }

  lemma ReportsStayNumbered(reports: seq<Report>, input: nat, payload: string)
    requires Numbered(ReportOutputs(reports), input)
    ensures Numbered(ReportOutputs(reports + [Report(|reports|, input, payload)]), input)
  {
    var r := Report(|reports|, input, payload);
    forall i | 0 <= i <= |reports|
      ensures ReportOutputs(reports + [r])[i].key == Key(input, i)
    {
      if i < |reports| { assert ReportOutputs(reports + [r])[i] == ReportOutputs(reports)[i]; }
    }
  }

  lemma InspectKeepsInv(m: Model, payload: string)
    requires Inv(m)
    ensures Inv(AddInspectInput(m, payload).0)
  {
    var m' := AddInspectInput(m, payload).0;
    FirstUnprocessedAppend(m.inspects, m'.inspects[|m.inspects|]);
  }

  lemma {:induction false} FirstUnprocessedAppend(xs: seq<Inspect>, x: Inspect)
    ensures FirstUnprocessed(xs) < |xs| ==> FirstUnprocessed(xs + [x]) == FirstUnprocessed(xs)
    decreases |xs|
  {
    if xs != [] {
      assert (xs + [x])[1..] == xs[1..] + [x];
      FirstUnprocessedAppend(xs[1..], x);
    }
  }

  // ---------- Every step and every run ----------

  /** Every step keeps the invariant, never runs into a primary key, and leaves processed inputs and their outputs
      as they are. */
  lemma StepKeepsInv(m: Model, op: Op)
    requires Inv(m)
    ensures Inv(Step(m, op).0) && !Step(m, op).1.Failed?
    ensures Frozen(m.db.committed, Step(m, op).0.db.committed)
  {
    match op {
      case OpAdvance(row) => ArrivalKeepsInv(m, row);
      case OpInspect(payload) => InspectKeepsInv(m, payload);
      case OpVoucher(_, _) => OutputKeepsInv(m, op);
      case OpNotice(_) => OutputKeepsInv(m, op);
      case OpReport(_) => OutputKeepsInv(m, op);
      case OpException(payload) => ExceptionKeepsInv(m, payload);
      case OpFinish(accept) => FinishAndGetNextKeepsInv(m, accept);
    }
  }

  lemma {:induction false} RunKeepsInv(m: Model, ops: seq<Op>)
    requires Inv(m)
    ensures Inv(Run(m, ops)) && Frozen(m.db.committed, Run(m, ops).db.committed)
    decreases |ops|
  {
    if ops != [] {
      var m' := Step(m, ops[0]).0;
      StepKeepsInv(m, ops[0]);
      RunKeepsInv(m', ops[1..]);
      FrozenTransitive(m.db.committed, m'.db.committed, Run(m, ops).db.committed);
    }
  }

  /** In every run from a new model, no voucher, notice or report row exists for an input that is still
      Unprocessed, so no later operation can fail on a primary key. */
  lemma NoOperationFails(ops: seq<Op>, op: Op)
    ensures var m := Run(NEW_MODEL, ops);
            && (forall i :: 0 <= i < |m.db.committed.inputs| && m.db.committed.inputs[i].status == Unprocessed ==>
                  UntouchedInput(m.db.committed, m.db.committed.inputs[i].index))
            && !Step(m, op).1.Failed?
  {
    RunKeepsInv(NEW_MODEL, ops);
    var m := Run(NEW_MODEL, ops);
    StepKeepsInv(m, op);
    forall i | 0 <= i < |m.db.committed.inputs| && m.db.committed.inputs[i].status == Unprocessed
      ensures UntouchedInput(m.db.committed, m.db.committed.inputs[i].index)
    {
      UnprocessedIsUntouched(m.db.committed, m.db.committed.inputs[i]);
    }
  }

  /** In every reachable state the advance in flight is numbered and has no output row yet. */
  lemma ReachableAdvance(ops: seq<Op>)
    requires Run(NEW_MODEL, ops).phase.Advancing?
    ensures var m := Run(NEW_MODEL, ops);
            m.db.tx.None? && WellNumbered(m.phase) && UntouchedInput(m.db.committed, m.phase.input.index)
  {
    RunKeepsInv(NEW_MODEL, ops);
    var m := Run(NEW_MODEL, ops);
    UnprocessedIsUntouched(m.db.committed, m.phase.input);
  }

  lemma AcceptingFinishes(m: Model)
    requires m.phase.Advancing? && FinishAdvance(m.db, m.phase, Accepted).err.None?
    ensures Step(m, OpFinish(true)).0.db == FinishAdvance(m.db, m.phase, Accepted).db
  {
    DispatchOrder(m.(db := FinishAdvance(m.db, m.phase, Accepted).db));
  }

  /** In every reachable state with an advance in flight, accepting it stores all of its vouchers if and only if it
      added at most one, and all of its notices if and only if it added at most one. */
  lemma AcceptingStoresAllIff(ops: seq<Op>)
    requires Run(NEW_MODEL, ops).phase.Advancing?
    ensures var m := Run(NEW_MODEL, ops);
            var a, t := m.phase, Step(m, OpFinish(true)).0.db.committed;
            && ((forall k :: 0 <= k < |a.vouchers| ==> Key(a.input.index, k) in t.vouchers) <==> |a.vouchers| <= 1)
            && ((forall k :: 0 <= k < |a.notices| ==> Key(a.input.index, k) in t.notices) <==> |a.notices| <= 1)
  {
    var m := Run(NEW_MODEL, ops);
    ReachableAdvance(ops);
    FinishAdvanceStores(m.db, m.phase, Accepted);
    AcceptingFinishes(m);
    AllVouchersStoredIff(m.db, m.phase);
    AllNoticesStoredIff(m.db, m.phase);
  }

  lemma FourSteps(m: Model, a: Op, b: Op, c: Op, d: Op)
    ensures Run(m, [a, b, c, d]) == Step(Step(Step(Step(m, a).0, b).0, c).0, d).0
  {
    assert [a, b, c, d][1..] == [b, c, d] && [b, c, d][1..] == [c, d] && [c, d][1..] == [d] && [d][1..] == [];
    var m3 := Step(Step(Step(m, a).0, b).0, c).0;
    assert Run(m3, [d]) == Step(m3, d).0;
    assert Run(Step(Step(m, a).0, b).0, [c, d]) == Run(m3, [d]);
    assert Run(Step(m, a).0, [b, c, d]) == Run(Step(Step(m, a).0, b).0, [c, d]);
  }

  /** A run from the beginning that loses a voucher: one input, two vouchers, accepted. */
  lemma SecondVoucherIsLost(row: InputRow, destination: Address, first: string, second: string)
    ensures var ops := [OpAdvance(row), OpFinish(true), OpVoucher(destination, first), OpVoucher(destination, second)];
            var m := Run(NEW_MODEL, ops);
            var t := Step(m, OpFinish(true)).0.db.committed;
            && m.phase.Advancing? && |m.phase.vouchers| == 2
            && Key(row.index, 0) in t.vouchers && Key(row.index, 1) !in t.vouchers
  {
    var ops := [OpAdvance(row), OpFinish(true), OpVoucher(destination, first), OpVoucher(destination, second)];
    var input := row.(app := ZERO_ADDRESS, status := Unprocessed, exception := "");
    FourSteps(NEW_MODEL, ops[0], ops[1], ops[2], ops[3]);
    var m1 := Step(NEW_MODEL, ops[0]).0;
    assert m1 == Model([], Idle, Db(EMPTY.(inputs := [input]), None)) by { assert [] + [input] == [input]; }
    assert FindUnprocessed([input]) == Some(input);
    var m2 := Step(m1, ops[1]).0;
    assert m2.phase == Advancing(input, [], [], []);
    var m := Run(NEW_MODEL, ops);
    ReachableAdvance(ops);
    FinishAdvanceStores(m.db, m.phase, Accepted);
    AcceptingFinishes(m);
  }

  /** An input leaves Unprocessed at most once: once it has another status, its row and its outputs are the same after
      any continuation of the run. */
  lemma ProcessedForever(before: seq<Op>, after: seq<Op>)
    ensures Frozen(Run(NEW_MODEL, before).db.committed, Run(Run(NEW_MODEL, before), after).db.committed)
  {
    RunKeepsInv(NEW_MODEL, before);
    RunKeepsInv(Run(NEW_MODEL, before), after);
  }

  /** Inspects complete in list order, the one in flight directly follows the completed ones, and the processed counts
      they report never decrease. */
  lemma InspectsCompleteInOrder(ops: seq<Op>)
    ensures var m := Run(NEW_MODEL, ops);
            var done := FirstUnprocessed(m.inspects);
            && (forall i :: 0 <= i < |m.inspects| ==> (m.inspects[i].status != Unprocessed <==> i < done))
            && (m.phase.Inspecting? ==> m.phase.pos == done)
            && (forall i, j :: 0 <= i < j < done ==> m.inspects[i].processed <= m.inspects[j].processed)
  {
    RunKeepsInv(NEW_MODEL, ops);
  }

  /** What is handed out next is what the machine puts in flight: the first waiting inspect whenever one waits; an
      advance only when none does, and then the waiting one of least index; nothing exactly when nothing waits. */
  lemma DispatchOrder(m: Model)
    ensures var (m', r) := Dispatch(m);
            && m'.inspects == m.inspects && m'.db == m.db
            && (r.NextInspect? <==> exists i :: 0 <= i < |m.inspects| && m.inspects[i].status == Unprocessed)
            && (r.NextInspect? ==>
                  && m'.phase.Inspecting? && m'.phase.inspectReports == []
                  && m'.phase.pos < |m.inspects| && r.inspect == m.inspects[m'.phase.pos]
                  && r.inspect.status == Unprocessed
                  && (forall i :: 0 <= i < m'.phase.pos ==> m.inspects[i].status != Unprocessed))
            && (r.NextAdvance? ==> m'.phase == Advancing(r.input, [], [], []))
            && (r.NoInput? ==> m'.phase == Idle)
            && (r.NextInspect? || r.NextAdvance? || r.NoInput?)
            && (r.NextAdvance? ==>
                  && (forall i :: 0 <= i < |m.inspects| ==> m.inspects[i].status != Unprocessed)
                  && r.input in m.db.committed.inputs && r.input.status == Unprocessed
                  && (forall i :: 0 <= i < |m.db.committed.inputs| && m.db.committed.inputs[i].status == Unprocessed ==>
                        r.input.index <= m.db.committed.inputs[i].index))
            && (r.NoInput? <==>
                  && (forall i :: 0 <= i < |m.inspects| ==> m.inspects[i].status != Unprocessed)
                  && (forall i :: 0 <= i < |m.db.committed.inputs| ==> m.db.committed.inputs[i].status != Unprocessed))
  {
  }

  /** The step that completes an inspect, by finishing or by an exception, stores the number of processed advances at
      that moment and the reports added, and changes no other inspect and no table. */
  lemma FinishedInspect(m: Model, op: Op)
    requires m.phase.Inspecting? && m.phase.pos < |m.inspects| && (op.OpFinish? || op.OpException?)
    ensures var m' := Step(m, op).0;
            var pos := m.phase.pos;
            var was := m.inspects[pos];
            && m'.db == m.db
            && m'.inspects == m.inspects[pos := Inspect(was.index, StatusFrom(op), was.payload,
                                                        ProcessedCount(m.db.committed.inputs), m.phase.inspectReports,
                                                        if op.OpException? then op.payload else was.exception)]
            && m'.phase != m.phase
  {
    var was := m.inspects[m.phase.pos];
    var done := m.(inspects := CloseInspect(m, StatusFrom(op), if op.OpException? then op.payload else was.exception));
    assert done.inspects[m.phase.pos].status != Unprocessed;
    if op.OpFinish? {
      assert Step(m, op) == Dispatch(done);
      DispatchOrder(done);
      assert FirstUnprocessed(done.inspects) != m.phase.pos;
    }
  }

  function StatusFrom(op: Op): CompletionStatus
    requires op.OpFinish? || op.OpException?
  {
    if op.OpException? then Exception else if op.accept then Accepted else Rejected
  }

  // ---------- Inputs that arrive in order ----------

  ghost predicate InArrivalOrder(m: Model) {
    var rows := m.db.committed.inputs;
    && (forall i, j :: 0 <= i < j < |rows| ==> rows[i].index < rows[j].index)
    && (forall i, j :: 0 <= i < j < |rows| && rows[j].status != Unprocessed ==> rows[i].status != Unprocessed)
    && (m.phase.Advancing? ==>
          forall i :: 0 <= i < |rows| && rows[i].index < m.phase.input.index ==> rows[i].status != Unprocessed)
  }

  /** The input is new and above every stored one, or a redelivery. */
  ghost predicate ArrivesInOrder(m: Model, op: Op) {
    var rows := m.db.committed.inputs;
    op.OpAdvance? ==>
      FindByIndex(rows, op.row.index).Some? || forall i :: 0 <= i < |rows| ==> rows[i].index < op.row.index
  }

  lemma ClosingKeepsOrder(m: Model, rows': seq<InputRow>, status: CompletionStatus, exception: string)
    requires InArrivalOrder(m) && m.phase.Advancing? && status != Unprocessed
    requires rows' == SetStatus(m.db.committed.inputs, m.phase.input.index, status, exception)
    ensures InArrivalOrder(m.(phase := Idle, db := Db(m.db.committed.(inputs := rows'), m.db.tx)))
  {
    var rows := m.db.committed.inputs;
    forall i, j | 0 <= i < j < |rows| && rows'[j].status != Unprocessed
      ensures rows'[i].status != Unprocessed
    {
      assert rows[i].index < rows[j].index;
    }
  }

  lemma DispatchKeepsOrder(m: Model)
    requires InArrivalOrder(m.(phase := Idle))
    ensures InArrivalOrder(Dispatch(m).0)
  {
  }

  lemma FinishKeepsOrder(m: Model, accept: bool)
    requires Inv(m) && InArrivalOrder(m)
    ensures InArrivalOrder(FinishAndGetNext(m, accept).0)
  {
    var status := if accept then Accepted else Rejected;
    if m.phase.Advancing? {
      FinishedAdvanceIsClosed(m, status);
      ClosingKeepsOrder(m, FinishAdvance(m.db, m.phase, status).db.committed.inputs, status, m.phase.input.exception);
    }
    DispatchKeepsOrder(Finish(m, status).0);
  }

  lemma ExceptionKeepsOrder(m: Model, payload: string)
    requires Inv(m) && InArrivalOrder(m)
    ensures InArrivalOrder(RegisterException(m, payload).0)
  {
    if m.phase.Advancing? {
      FailedAdvanceIsClosed(m, payload);
      ClosingKeepsOrder(m, FailAdvance(m.db, m.phase, payload).db.committed.inputs, Exception, payload);
    }
  }

  lemma StepKeepsOrder(m: Model, op: Op)
    requires Inv(m) && InArrivalOrder(m) && ArrivesInOrder(m, op)
    ensures InArrivalOrder(Step(m, op).0)
  {
    if op.OpException? { ExceptionKeepsOrder(m, op.payload); }
    if op.OpFinish? { FinishKeepsOrder(m, op.accept); }
  }

  ghost predicate ArrivalsInOrder(m: Model, ops: seq<Op>)
    decreases |ops|
  {
    ops == [] || (ArrivesInOrder(m, ops[0]) && ArrivalsInOrder(Step(m, ops[0]).0, ops[1..]))
  }

  lemma {:induction false} RunKeepsOrder(m: Model, ops: seq<Op>)
    requires Inv(m) && InArrivalOrder(m) && ArrivalsInOrder(m, ops)
    ensures InArrivalOrder(Run(m, ops))
    decreases |ops|
  {
    if ops != [] {
      StepKeepsInv(m, ops[0]);
      StepKeepsOrder(m, ops[0]);
      RunKeepsOrder(Step(m, ops[0]).0, ops[1..]);
    }
  }

  /** When inputs arrive with increasing indices, redeliveries aside, the processed advances of every reachable state
      are a prefix of the input table, in index order. */
  lemma AdvancesCompleteInOrder(ops: seq<Op>)
    requires ArrivalsInOrder(NEW_MODEL, ops)
    ensures var rows := Run(NEW_MODEL, ops).db.committed.inputs;
            && (forall i, j :: 0 <= i < j < |rows| ==> rows[i].index < rows[j].index)
            && (forall i, j :: 0 <= i < j < |rows| && rows[j].status != Unprocessed ==> rows[i].status != Unprocessed)
  {
    RunKeepsOrder(NEW_MODEL, ops);
  }

  // ---------- The retry loop of the HTTP handler ----------

  /** Finish polls until it gets an input: between two polls only new inputs arrive. waits holds what arrives before
      each further poll; the handler makes 50 polls. */
  function Poll(m: Model, accept: bool, waits: seq<seq<Op>>): (Model, Reply)
    decreases |waits|
  {
    var (m', r) := FinishAndGetNext(m, accept);
    if r.NoInput? && waits != [] then Poll(Run(m', waits[0]), accept, waits[1..]) else (m', r)
  }

  ghost predicate OnlyArrivals(ops: seq<Op>) {
    forall op :: op in ops ==> op.OpAdvance? || op.OpInspect?
  }

  /** The later model has what the earlier one had, with new inputs and inspects behind. */
  ghost predicate OnlyAdds(m: Model, m': Model) {
    && m.inspects <= m'.inspects
    && m.db.tx.None? && m'.db.tx.None?
    && m.db.committed.inputs <= m'.db.committed.inputs
    && m'.db.committed == m.db.committed.(inputs := m'.db.committed.inputs)
  }

  lemma {:induction false} ArrivalsOnlyAdd(m: Model, ops: seq<Op>)
    requires m.db.tx.None? && m.phase.Idle? && OnlyArrivals(ops)
    ensures OnlyAdds(m, Run(m, ops)) && Run(m, ops).phase.Idle?
    decreases |ops|
  {
    if ops != [] {
      assert ops[0] in ops;
      ArrivalsOnlyAdd(Step(m, ops[0]).0, ops[1..]);
    }
  }

  /** Polling an idle machine only adds and dispatches. */
  lemma {:induction false} IdlePollOnlyAdds(m: Model, accept: bool, waits: seq<seq<Op>>)
    requires m.db.tx.None? && m.phase.Idle? && forall w :: w in waits ==> OnlyArrivals(w)
    ensures OnlyAdds(m, Poll(m, accept, waits).0)
    decreases |waits|
  {
    var (m', r) := FinishAndGetNext(m, accept);
    DispatchOrder(m);
    if r.NoInput? && waits != [] {
      assert waits[0] in waits;
      ArrivalsOnlyAdd(m', waits[0]);
      IdlePollOnlyAdds(Run(m', waits[0]), accept, waits[1..]);
    }
  }

  /** With one client, a finish request completes the input in flight exactly once, however many polls it makes: after
      the first poll the tables and the inspects only grow by what arrives. */
  lemma FinishRequestFinishesOnce(m: Model, accept: bool, waits: seq<seq<Op>>)
    requires Inv(m) && forall w :: w in waits ==> OnlyArrivals(w)
    ensures OnlyAdds(FinishAndGetNext(m, accept).0, Poll(m, accept, waits).0)
  {
    var (m', r) := FinishAndGetNext(m, accept);
    FinishAndGetNextKeepsInv(m, accept);
    if r.NoInput? && waits != [] {
      assert waits[0] in waits;
      ArrivalsOnlyAdd(m', waits[0]);
      IdlePollOnlyAdds(Run(m', waits[0]), accept, waits[1..]);
    }
  }
}
