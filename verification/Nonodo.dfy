/** The shared model as an object: inspect inputs are objects that the list and the state in flight share. Each
    method is one step of module Rollup. */
module Nonodo {
  import opened Wrappers
  import opened Repository
  import opened Database
  import Rollup

  class InspectInput {
    const index: nat
    const payload: string
    var status: CompletionStatus
    var processedInputCount: nat
    var reports: seq<Rollup.Report>
    var exception: string

    constructor (index: nat, payload: string)
      ensures Value() == Rollup.Inspect(index, Unprocessed, payload, 0, [], "")
    {
      this.index, this.payload, status, processedInputCount := index, payload, Unprocessed, 0;
      reports, exception := [], "";
    }

    function Value(): Rollup.Inspect reads this {
      Rollup.Inspect(index, status, payload, processedInputCount, reports, exception)
    }
  }

  datatype RollupsState =
    | Idle
    | Advance(advance: InputRow, vouchers: seq<Rollup.Voucher>, notices: seq<Rollup.Notice>,
              reports: seq<Rollup.Report>)
    | Inspect(input: InspectInput, inspectReports: seq<Rollup.Report>)

  function Values(xs: seq<InspectInput>): (vs: seq<Rollup.Inspect>)
    reads xs
    ensures |vs| == |xs| && forall i :: 0 <= i < |xs| ==> vs[i] == xs[i].Value()
  {
    seq(|xs|, i requires 0 <= i < |xs| reads xs => xs[i].Value())
  }

  class NonodoModel {
    const store: Store
    var inspects: seq<InspectInput>
    var state: RollupsState

    ghost predicate Valid()
      reads this, inspects
    {
      && (forall i :: 0 <= i < |inspects| ==> inspects[i].index == i)
      && (state.Inspect? ==> state.input in inspects)
    }

    ghost function Phase(): Rollup.Phase
      reads this
    {
      match state
      case Idle => Rollup.Idle
      case Advance(input, vouchers, notices, reports) => Rollup.Advancing(input, vouchers, notices, reports)
      case Inspect(input, reports) => Rollup.Inspecting(input.index, reports)
    }

    ghost function View(): Rollup.Model
      reads this, store, inspects
    {
      Rollup.Model(Values(inspects), Phase(), store.State())
    }

    constructor (store: Store)
      requires store.State() == Db(EMPTY, None)
      ensures Valid() && View() == Rollup.NEW_MODEL
    {
      this.store, inspects, state := store, [], Idle;
    }

    method AddAdvanceInput(row: InputRow)
      requires Valid()
      modifies store
      ensures Valid() && (View(), Rollup.Done) == Rollup.AddAdvanceInput(old(View()), row)
    {
      store.AddInput(row.(app := ZERO_ADDRESS, status := Unprocessed, exception := ""));
    }

    method AddInspectInput(payload: string) returns (index: nat)
      requires Valid()
      modifies this`inspects
      ensures Valid() && (View(), Rollup.Index(index)) == Rollup.AddInspectInput(old(View()), payload)
    {
      index := |inspects|;
      var input := new InspectInput(index, payload);
      inspects := inspects + [input];
      assert Values(inspects) == old(Values(inspects)) + [input.Value()];
    }

    method AddVoucher(destination: Address, payload: string) returns (r: Rollup.Reply)
      requires Valid()
      modifies this`state
      ensures Valid() && (View(), r) == Rollup.AddVoucher(old(View()), destination, payload)
    {
      if !state.Advance? { return Rollup.Forbidden; }
      var index := |state.vouchers|;
      var voucher := Rollup.Voucher(index, state.advance.index, destination, payload);
      state := state.(vouchers := state.vouchers + [voucher]);
      r := Rollup.Index(index);
    }

    method AddNotice(payload: string) returns (r: Rollup.Reply)
      requires Valid()
      modifies this`state
      ensures Valid() && (View(), r) == Rollup.AddNotice(old(View()), payload)
    {
      if !state.Advance? { return Rollup.Forbidden; }
      var index := |state.notices|;
      var notice := Rollup.Notice(index, state.advance.index, payload);
      state := state.(notices := state.notices + [notice]);
      r := Rollup.Index(index);
    }

    method AddReport(payload: string) returns (r: Rollup.Reply)
      requires Valid()
      modifies this`state
      ensures Valid() && (View(), r) == Rollup.AddReport(old(View()), payload)
    {
      r := Rollup.Done;
      match state {
        case Idle => r := Rollup.Forbidden;
        case Advance(advance, _, _, reports) =>
          state := state.(reports := reports + [Rollup.Report(|reports|, advance.index, payload)]);
        case Inspect(input, reports) =>
          state := Inspect(input, reports + [Rollup.Report(|reports|, input.index, payload)]);
      }
    }

    method HandleOutput(destination: Address, payload: string, input: nat, output: nat) returns (err: Option<SqlError>)
      requires |payload| >= 10
      modifies store
      ensures Rollup.Written(store.State(), err) ==
              Rollup.FromResult(old(store.State()),
                                Rollup.HandleOutput(old(store.State()), destination, payload, input, output))
    {
      if payload[2..10] == Rollup.VOUCHER_SELECTOR {
        err := store.CreateVoucher(Output(Key(input, output), ZERO_ADDRESS,
                                          VoucherContent(destination, Rollup.RemoveSelector(payload), false)));
      } else {
        err := store.CreateNotice(Output(Key(input, output), ZERO_ADDRESS, Rollup.RemoveSelector(payload)));
      }
    }

    method SendAllInputVouchersToDecoder(vouchers: seq<Rollup.Voucher>) returns (err: Option<SqlError>)
      modifies store
      ensures Rollup.Written(store.State(), err) == Rollup.SendVouchers(old(store.State()), vouchers)
    {
      for i := 0 to |vouchers|
        invariant Rollup.SendVouchers(store.State(), vouchers[i..]) == Rollup.SendVouchers(old(store.State()), vouchers)
      {
        var v := vouchers[i];
        assert vouchers[i..][0] == v && vouchers[i..][1..] == vouchers[i + 1..];
        err := HandleOutput(v.destination, Rollup.ConvertVoucherPayloadToV2(v.payload), v.inputIndex, v.index);
        if err.Some? { return; }
      }
      err := None;
    }

    method SendAllInputNoticesToDecoder(notices: seq<Rollup.Notice>) returns (err: Option<SqlError>)
      modifies store
      ensures Rollup.Written(store.State(), err) == Rollup.SendNotices(old(store.State()), notices)
    {
      for i := 0 to |notices|
        invariant Rollup.SendNotices(store.State(), notices[i..]) == Rollup.SendNotices(old(store.State()), notices)
      {
        var n := notices[i];
        assert notices[i..][0] == n && notices[i..][1..] == notices[i + 1..];
        err := HandleOutput(ZERO_ADDRESS, Rollup.ConvertNoticePayloadToV2(n.payload), n.inputIndex, n.index);
        if err.Some? { return; }
      }
      err := None;
    }

    method SaveAllReports(reports: seq<Rollup.Report>) returns (err: Option<SqlError>)
      modifies store
      ensures Rollup.Written(store.State(), err) == Rollup.SaveReports(old(store.State()), reports)
    {
      for i := 0 to |reports|
        invariant Rollup.SaveReports(store.State(), reports[i..]) == Rollup.SaveReports(old(store.State()), reports)
      {
        var r := reports[i];
        assert reports[i..][0] == r && reports[i..][1..] == reports[i + 1..];
        err := store.InsertReport(Output(Key(r.inputIndex, r.index), ZERO_ADDRESS, r.payload));
        if err.Some? { return; }
      }
      err := None;
    }

    method FinishAdvance(status: CompletionStatus) returns (err: Option<SqlError>)
      requires state.Advance?
      modifies store
      ensures Rollup.Written(store.State(), err) == Rollup.FinishAdvance(old(store.State()), Phase(), status)
    {
      if status == Accepted {
        err := SendAllInputVouchersToDecoder(state.vouchers);
        if err.Some? { return; }
        err := SendAllInputNoticesToDecoder(state.notices);
        if err.Some? { return; }
      }
      err := SaveAllReports(state.reports);
      if err.Some? { return; }
      store.UpdateInput(state.advance.index, status, state.advance.exception);
    }

    method CloseInspect(status: CompletionStatus, exception: string)
      requires Valid() && state.Inspect?
      modifies state.input
      ensures Valid() && Phase() == old(Phase())
      ensures Values(inspects) == Rollup.CloseInspect(old(View()), status, exception)
    {
      state.input.status := status;
      state.input.processedInputCount := Rollup.ProcessedCount(store.committed.inputs);
      state.input.reports := state.inspectReports;
      state.input.exception := exception;
      assert Values(inspects) == old(Values(inspects))[state.input.index := state.input.Value()];
    }

    method Finish(status: CompletionStatus) returns (err: Option<SqlError>)
      requires Valid()
      modifies store, inspects
      ensures Valid() && (View(), err) == Rollup.Finish(old(View()), status)
    {
      err := None;
      match state {
        case Idle =>
        case Advance(_, _, _, _) => err := FinishAdvance(status);
        case Inspect(input, _) => CloseInspect(status, input.exception);
      }
    }

    method FirstUnprocessedInspect() returns (pos: nat)
      ensures pos == Rollup.FirstUnprocessed(Values(inspects))
    {
      for i := 0 to |inspects|
        invariant forall k :: 0 <= k < i ==> inspects[k].status != Unprocessed
      {
        if inspects[i].status == Unprocessed { return i; }
      }
      pos := |inspects|;
    }

    /** First an unprocessed inspect, else the unprocessed advance of least index, else idle. */
    method GetNext() returns (r: Rollup.Reply)
      requires Valid()
      modifies this`state
      ensures Valid() && (View(), r) == Rollup.Dispatch(old(View()))
    {
      var pos := FirstUnprocessedInspect();
      if pos < |inspects| {
        state := Inspect(inspects[pos], []);
        return Rollup.NextInspect(inspects[pos].Value());
      }
      match FindUnprocessed(store.committed.inputs) {
        case Some(row) =>
          state := Advance(row, [], [], []);
          r := Rollup.NextAdvance(row);
        case None =>
          state := Idle;
          r := Rollup.NoInput;
      }
    }

    /** The version behind the HTTP API; the model's own method of this name has the same body. */
    method FinishAndGetNext(accept: bool) returns (r: Rollup.Reply)
      requires Valid()
      modifies this`state, store, inspects
      ensures Valid() && (View(), r) == Rollup.FinishAndGetNext(old(View()), accept)
    {
      var status := if accept then Accepted else Rejected;
      var err := Finish(status);
      if err.Some? { return Rollup.Failed(err.value); }
      r := GetNext();
    }

    method RegisterException(payload: string) returns (r: Rollup.Reply)
      requires Valid()
      modifies this`state, store, inspects
      ensures Valid() && (View(), r) == Rollup.RegisterException(old(View()), payload)
    {
      match state {
        case Idle => return Rollup.Forbidden;
        case Advance(advance, vouchers, notices, reports) =>
          state := Advance(advance.(exception := payload), vouchers, notices, reports);
          store.UpdateInput(advance.index, Exception, payload);
          var err := SaveAllReports(reports);
          if err.Some? { return Rollup.Failed(err.value); }
        case Inspect(_, _) => CloseInspect(Exception, payload);
      }
      state := Idle;
      r := Rollup.Done;
    }
  }
}
