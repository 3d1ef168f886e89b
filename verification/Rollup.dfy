/** The rollup machine: queued inputs, the one in flight, and what finishing it writes. Everything here is a value
    with one function for each locked method; module Nonodo holds the methods themselves. */
module Rollup {
  import opened Wrappers
  import opened Repository
  import opened Database

  datatype Voucher = Voucher(index: nat, inputIndex: nat, destination: Address, payload: string)

  datatype Notice = Notice(index: nat, inputIndex: nat, payload: string)

  datatype Report = Report(index: nat, inputIndex: nat, payload: string)

  datatype Inspect = Inspect(index: nat, status: CompletionStatus, payload: string, processed: nat,
                             reports: seq<Report>, exception: string)

  /** The state of the machine; an inspect in flight is named by its position in the list. */
  datatype Phase =
    | Idle
    | Advancing(input: InputRow, vouchers: seq<Voucher>, notices: seq<Notice>, reports: seq<Report>)
    | Inspecting(pos: nat, inspectReports: seq<Report>)

  datatype Model = Model(inspects: seq<Inspect>, phase: Phase, db: Db)

  // ---------- The decoder ----------

  const VOUCHER_SELECTOR := "ef615e2f"
  const NOTICE_SELECTOR := "c258d6e5"

  function ConvertVoucherPayloadToV2(payload: string): string { "0x" + VOUCHER_SELECTOR + payload }

  function ConvertNoticePayloadToV2(payload: string): string { "0x" + NOTICE_SELECTOR + payload }

  function RemoveSelector(payload: string): string
    requires |payload| >= 10
  {
    "0x" + payload[10..]
  }

  /** The characters 2 to 10 select the table. A shorter payload is a run-time panic of the decoder. */
  function HandleOutput(db: Db, destination: Address, payload: string, input: nat, output: nat): Result<Db, SqlError>
    requires |payload| >= 10
  {
    if payload[2..10] == VOUCHER_SELECTOR
    then db.CreateVoucher(Output(Key(input, output), ZERO_ADDRESS,
                                 VoucherContent(destination, RemoveSelector(payload), false)))
    else db.CreateNotice(Output(Key(input, output), ZERO_ADDRESS, RemoveSelector(payload)))
  }

  /** An adapted payload reaches the table of its kind, and what is stored is the payload with a 0x in front. */
  lemma DecoderUndoesAdapter(db: Db, destination: Address, payload: string, input: nat, output: nat)
    ensures HandleOutput(db, destination, ConvertVoucherPayloadToV2(payload), input, output) ==
            db.CreateVoucher(Output(Key(input, output), ZERO_ADDRESS,
                                    VoucherContent(destination, "0x" + payload, false)))
    ensures HandleOutput(db, destination, ConvertNoticePayloadToV2(payload), input, output) ==
            db.CreateNotice(Output(Key(input, output), ZERO_ADDRESS, "0x" + payload))
  {
    var v, n := ConvertVoucherPayloadToV2(payload), ConvertNoticePayloadToV2(payload);
    assert v[2..10] == VOUCHER_SELECTOR && v[10..] == payload;
    assert n[2..10] == NOTICE_SELECTOR && n[10..] == payload;
    assert NOTICE_SELECTOR[0] != VOUCHER_SELECTOR[0];
  }

  /** The eight characters behind 0x decide: vouchers for their selector, notices for any other. */
  lemma DecoderSplits(db: Db, destination: Address, zero: string, selector: string, payload: string, input: nat,
                      output: nat)
    requires |zero| == 2 && |selector| == 8
    ensures HandleOutput(db, destination, zero + selector + payload, input, output) ==
            if selector == "ef615e2f"
            then db.CreateVoucher(Output(Key(input, output), ZERO_ADDRESS,
                                         VoucherContent(destination, "0x" + payload, false)))
            else db.CreateNotice(Output(Key(input, output), ZERO_ADDRESS, "0x" + payload))
  {
    var all := zero + selector + payload;
    assert all[2..10] == selector && all[10..] == payload;
  }

  // ---------- Finishing ----------

  /** A database after some writes; an error stops the writes that were to follow, not those made before. */
  datatype Written = Written(db: Db, err: Option<SqlError>)

  function FromResult(db: Db, r: Result<Db, SqlError>): Written {
    match r
    case Ok(db') => Written(db', None)
    case Err(e) => Written(db, Some(e))
  }

  function SendVouchers(db: Db, vs: seq<Voucher>): Written
    decreases |vs|
  {
    if vs == [] then Written(db, None)
    else
      var v := vs[0];
      var w := FromResult(db, HandleOutput(db, v.destination, ConvertVoucherPayloadToV2(v.payload), v.inputIndex,
                                           v.index));
      if w.err.None? then SendVouchers(w.db, vs[1..]) else w
  }

  function SendNotices(db: Db, ns: seq<Notice>): Written
    decreases |ns|
  {
    if ns == [] then Written(db, None)
    else
      var n := ns[0];
      var w := FromResult(db, HandleOutput(db, ZERO_ADDRESS, ConvertNoticePayloadToV2(n.payload), n.inputIndex,
                                           n.index));
      if w.err.None? then SendNotices(w.db, ns[1..]) else w
  }

  function SaveReports(db: Db, rs: seq<Report>): Written
    decreases |rs|
  {
    if rs == [] then Written(db, None)
    else
      var r := rs[0];
      var w := FromResult(db, db.InsertReport(Output(Key(r.inputIndex, r.index), ZERO_ADDRESS, r.payload)));
      if w.err.None? then SaveReports(w.db, rs[1..]) else w
  }

  /** Vouchers, then notices, only when accepted; then reports; then the status. */
  function FinishAdvance(db: Db, a: Phase, status: CompletionStatus): Written
    requires a.Advancing?
  {
    var sent :=
      if status != Accepted then Written(db, None)
      else
        var w := SendVouchers(db, a.vouchers);
        if w.err.Some? then w else SendNotices(w.db, a.notices);
    if sent.err.Some? then sent
    else
      var saved := SaveReports(sent.db, a.reports);
      if saved.err.Some? then saved
      else Written(saved.db.UpdateInput(a.input.index, status, a.input.exception), None)
  }

  /** The status first, then the reports; vouchers and notices are dropped. */
  function FailAdvance(db: Db, a: Phase, payload: string): Written
    requires a.Advancing?
  {
    SaveReports(db.UpdateInput(a.input.index, Exception, payload), a.reports)
  }

  /** SELECT count(*) FROM convenience_inputs WHERE status <> Unprocessed */
  function ProcessedCount(rows: seq<InputRow>): nat {
    if rows == [] then 0 else (if rows[0].status != Unprocessed then 1 else 0) + ProcessedCount(rows[1..])
  }

  // ---------- The locked methods ----------

  datatype Reply =
    | Done
    | Index(index: nat)
    | NextInspect(inspect: Inspect)
    | NextAdvance(input: InputRow)
    | NoInput
    | Forbidden
    | Failed(error: SqlError)

  function FirstUnprocessed(inspects: seq<Inspect>): (pos: nat)
    ensures pos <= |inspects|
    ensures forall i :: 0 <= i < pos ==> inspects[i].status != Unprocessed
    ensures pos < |inspects| ==> inspects[pos].status == Unprocessed
  {
    if inspects == [] || inspects[0].status == Unprocessed then 0 else 1 + FirstUnprocessed(inspects[1..])
  }

  function Dispatch(m: Model): (Model, Reply) {
    var pos := FirstUnprocessed(m.inspects);
    if pos < |m.inspects| then (m.(phase := Inspecting(pos, [])), NextInspect(m.inspects[pos]))
    else
      match FindUnprocessed(m.db.committed.inputs)
      case Some(row) => (m.(phase := Advancing(row, [], [], [])), NextAdvance(row))
      case None => (m.(phase := Idle), NoInput)
  }

  function CloseInspect(m: Model, status: CompletionStatus, exception: string): seq<Inspect>
    requires m.phase.Inspecting?
  {
    if m.phase.pos < |m.inspects|
    then m.inspects[m.phase.pos := m.inspects[m.phase.pos].(status := status, exception := exception,
        processed := ProcessedCount(m.db.committed.inputs), reports := m.phase.inspectReports)]
    else m.inspects
  }

  function Finish(m: Model, status: CompletionStatus): (Model, Option<SqlError>) {
    match m.phase
    case Idle => (m, None)
    case Advancing(_, _, _, _) =>
      var w := FinishAdvance(m.db, m.phase, status);
      (m.(db := w.db), w.err)
    case Inspecting(pos, _) =>
      (m.(inspects := CloseInspect(m, status, if pos < |m.inspects| then m.inspects[pos].exception else "")), None)
  }

  function FinishAndGetNext(m: Model, accept: bool): (Model, Reply) {
    var (m', err) := Finish(m, if accept then Accepted else Rejected);
    if err.Some? then (m', Failed(err.value)) else Dispatch(m')
  }

  function AddAdvanceInput(m: Model, row: InputRow): (Model, Reply) {
    (m.(db := m.db.AddInput(row.(app := ZERO_ADDRESS, status := Unprocessed, exception := ""))), Done)
  }

  function AddInspectInput(m: Model, payload: string): (Model, Reply) {
    (m.(inspects := m.inspects + [Inspect(|m.inspects|, Unprocessed, payload, 0, [], "")]), Index(|m.inspects|))
  }

  function AddVoucher(m: Model, destination: Address, payload: string): (Model, Reply) {
    if m.phase.Advancing? then
      var v := Voucher(|m.phase.vouchers|, m.phase.input.index, destination, payload);
      (m.(phase := m.phase.(vouchers := m.phase.vouchers + [v])), Index(v.index))
    else (m, Forbidden)
  }

  function AddNotice(m: Model, payload: string): (Model, Reply) {
    if m.phase.Advancing? then
      var n := Notice(|m.phase.notices|, m.phase.input.index, payload);
      (m.(phase := m.phase.(notices := m.phase.notices + [n])), Index(n.index))
    else (m, Forbidden)
  }

  function AddReport(m: Model, payload: string): (Model, Reply) {
    match m.phase
    case Idle => (m, Forbidden)
    case Advancing(input, _, _, reports) =>
      (m.(phase := m.phase.(reports := reports + [Report(|reports|, input.index, payload)])), Done)
    case Inspecting(pos, reports) =>
      (m.(phase := Inspecting(pos, reports + [Report(|reports|, pos, payload)])), Done)
  }

  function RegisterException(m: Model, payload: string): (Model, Reply) {
    match m.phase
    case Idle => (m, Forbidden)
    case Advancing(_, _, _, _) =>
      var w := FailAdvance(m.db, m.phase, payload);
      if w.err.Some?
      then (m.(db := w.db, phase := m.phase.(input := m.phase.input.(exception := payload))), Failed(w.err.value))
      else (m.(db := w.db, phase := Idle), Done)
    case Inspecting(_, _) =>
      (m.(inspects := CloseInspect(m, Exception, payload), phase := Idle), Done)
  }

  datatype Op =
    | OpAdvance(row: InputRow)
    | OpInspect(payload: string)
    | OpVoucher(destination: Address, payload: string)
    | OpNotice(payload: string)
    | OpReport(payload: string)
    | OpException(payload: string)
    | OpFinish(accept: bool)

  function Step(m: Model, op: Op): (Model, Reply) {
    match op
    case OpAdvance(row) => AddAdvanceInput(m, row)
    case OpInspect(payload) => AddInspectInput(m, payload)
    case OpVoucher(destination, payload) => AddVoucher(m, destination, payload)
    case OpNotice(payload) => AddNotice(m, payload)
    case OpReport(payload) => AddReport(m, payload)
    case OpException(payload) => RegisterException(m, payload)
    case OpFinish(accept) => FinishAndGetNext(m, accept)
  }

  function Run(m: Model, ops: seq<Op>): Model
    decreases |ops|
  {
    if ops == [] then m else Run(Step(m, ops[0]).0, ops[1..])
  }

  const NEW_MODEL := Model([], Idle, Db(EMPTY, None))
}
