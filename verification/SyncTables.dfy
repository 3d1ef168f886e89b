/** What the tables of a synchronized worker hold, in terms of the feeds. */
module SyncTables {
  import opened Wrappers
  import opened Repository
  import opened Batches
  import opened Database
  import opened Synchronizer
  import opened SyncRuns

  function Vouchers(es: seq<OutputEdge>): seq<Output<VoucherContent>>
    decreases |es|
  {
    if es == [] then []
    else
      match es[0].decoded
      case Some(AsVoucher(app, destination, payload)) =>
        [Output(Key(es[0].inputIndex, es[0].index), app, VoucherContent(destination, payload, false))] +
        Vouchers(es[1..])
      case _ => Vouchers(es[1..])
  }

  function Notices(es: seq<OutputEdge>): seq<Output<string>>
    decreases |es|
  {
    if es == [] then []
    else
      match es[0].decoded
      case Some(AsNotice(app, payload)) =>
        [Output(Key(es[0].inputIndex, es[0].index), app, payload)] + Notices(es[1..])
      case _ => Notices(es[1..])
  }

  function Reports(es: seq<ReportEdge>): seq<Output<string>>
    decreases |es|
  {
    if es == [] then []
    else [Output(Key(es[0].inputIndex, es[0].index), ZERO_ADDRESS, es[0].blob)] + Reports(es[1..])
  }

  function Inputs(es: seq<InputEdge>): seq<InputRow>
    decreases |es|
  {
    if es == [] then []
    else
      match es[0].decoded
      case None => Inputs(es[1..])
      case Some(d) =>
        [InputRow(es[0].index, d.app, Unprocessed, d.sender, d.payload, d.block, d.timestamp, "")] + Inputs(es[1..])
  }

  /** Everything that some edges of the three feeds ask to store. */
  datatype Asked = Asked(vouchers: seq<Output<VoucherContent>>, notices: seq<Output<string>>,
                         reports: seq<Output<string>>, inputs: seq<InputRow>)

  function AskedBy(r: Response): Asked {
    Asked(Vouchers(r.outputs.edges), Notices(r.outputs.edges), Reports(r.reports.edges), Inputs(r.inputs.edges))
  }

  function Join(a: Asked, b: Asked): Asked {
    Asked(a.vouchers + b.vouchers, a.notices + b.notices, a.reports + b.reports, a.inputs + b.inputs)
  }

  ghost predicate DistinctInputs(rows: seq<InputRow>) {
    forall i, j :: 0 <= i < j < |rows| ==> rows[i].index != rows[j].index || rows[i].app != rows[j].app
  }

  /** No key of a table repeats, and no input of an application. */
  ghost predicate DistinctAsked(a: Asked) {
    && DistinctKeys(a.vouchers) && DistinctKeys(a.notices) && DistinctKeys(a.reports)
    && DistinctInputs(a.inputs)
  }

  /** In each output table, no (input, application) pair occurs on both sides. */
  ghost predicate AskedApart(a: Asked, b: Asked) {
    Apart(a.vouchers, b.vouchers) && Apart(a.notices, b.notices) && Apart(a.reports, b.reports)
  }

  ghost predicate Stores(t: Tables, a: Asked) {
    && t.vouchers == TableOf(a.vouchers)
    && t.notices == TableOf(a.notices)
    && t.reports == TableOf(a.reports)
    && t.inputs == a.inputs
  }

  lemma {:induction false} OutputsAreUpserts(db: Db, es: seq<OutputEdge>, io: nat)
    requires db.tx.Some? && HandleOutputs(db, es, io).ok
    ensures var t := HandleOutputs(db, es, io).db.Target();
            && UpsertAll(db.committed.vouchers, db.tx.value.vouchers, Vouchers(es)) == Ok(t.vouchers)
            && UpsertAll(db.committed.notices, db.tx.value.notices, Notices(es)) == Ok(t.notices)
            && t.inputs == db.tx.value.inputs && t.reports == db.tx.value.reports
    decreases |es|
  {
    if es != [] {
      var h := HandleOutput(db, es[0], io);
      OutputsAreUpserts(h.db, es[1..], h.io);
      OutputsWriteTransaction(db, es[..1], io);
      match es[0].decoded.value {
        case AsVoucher(app, destination, payload) =>
          var o := Output(KeyOf(es[0]), app, VoucherContent(destination, payload, false));
          assert Vouchers(es)[0] == o && Vouchers(es)[1..] == Vouchers(es[1..]);
        case AsNotice(app, payload) =>
          var o := Output(KeyOf(es[0]), app, payload);
          assert Notices(es)[0] == o && Notices(es)[1..] == Notices(es[1..]);
      }
    }
  }

  lemma {:induction false} ReportsAreUpserts(db: Db, es: seq<ReportEdge>, io: nat)
    requires db.tx.Some? && HandleReports(db, es, io).ok
    ensures var t := HandleReports(db, es, io).db.Target();
            UpsertAll(db.committed.reports, db.tx.value.reports, Reports(es)) == Ok(t.reports)
    decreases |es|
  {
    if es != [] {
      var h := HandleReport(db, es[0], io);
      ReportsAreUpserts(h.db, es[1..], h.io);
      assert Reports(es)[0] == ReportOf(es[0]) && Reports(es)[1..] == Reports(es[1..]);
    }
  }

  lemma {:induction false} NewInputsAreAppended(db: Db, es: seq<InputEdge>, io: nat)
    requires db.tx.Some? && HandleInputs(db, es, io).ok
    requires DistinctInputs(db.committed.inputs + Inputs(es))
    ensures HandleInputs(db, es, io).db.Target().inputs == db.tx.value.inputs + Inputs(es)
    decreases |es|
  {
    if es != [] {
      var row, rest := RowOf(es[0]), Inputs(es[1..]);
      var old_, all := db.committed.inputs, db.committed.inputs + Inputs(es);
      assert Inputs(es) == [row] + rest;
      assert all[|old_|] == row;
      assert !HasInput(old_, row.index, row.app) by {
        assert forall i :: 0 <= i < |old_| ==> all[i] == old_[i];
      }
      forall i, j | 0 <= i < j < |old_ + rest|
        ensures (old_ + rest)[i].index != (old_ + rest)[j].index || (old_ + rest)[i].app != (old_ + rest)[j].app
      {
        assert (old_ + rest)[i] == all[if i < |old_| then i else i + 1];
        assert (old_ + rest)[j] == all[if j < |old_| then j else j + 1];
      }
      NewInputsAreAppended(HandleInput(db, es[0], io).db, es[1..], io - 1);
      assert db.tx.value.inputs + [row] + rest == db.tx.value.inputs + Inputs(es);
    }
  }

  /** A handled response upserts one batch into each output table, and adds its inputs when they are new. */
  lemma TransactionUpserts(t: Tables, mem: Cursors, r: Response, io: nat)
    requires HandleResponse(Db(t, None).Begin(), mem, r, io).ok
    ensures var t', new_ := HandleResponse(Db(t, None).Begin(), mem, r, io).db.Target(), AskedBy(r);
            && UpsertAll(t.vouchers, t.vouchers, new_.vouchers) == Ok(t'.vouchers)
            && UpsertAll(t.notices, t.notices, new_.notices) == Ok(t'.notices)
            && UpsertAll(t.reports, t.reports, new_.reports) == Ok(t'.reports)
            && (DistinctInputs(t.inputs + new_.inputs) ==> t'.inputs == t.inputs + new_.inputs)
  {
    var db := Db(t, None).Begin();
    var o := HandleOutputs(db, r.outputs.edges, io);
    var i := HandleInputs(o.db, r.inputs.edges, o.io);
    OutputsAreUpserts(db, r.outputs.edges, io);
    OutputsWriteTransaction(db, r.outputs.edges, io);
    if DistinctInputs(t.inputs + Inputs(r.inputs.edges)) { NewInputsAreAppended(o.db, r.inputs.edges, o.io); }
    InputsWriteTransaction(o.db, r.inputs.edges, o.io);
    ReportsAreUpserts(i.db, r.reports.edges, i.io);
    ReportsWriteTransaction(i.db, r.reports.edges, i.io);
  }

  /** One transaction over tables that store what was asked before stores what the response asks as well, several
      outputs and reports of one input included, when no (input, application) pair of the response was asked for
      before. */
  lemma TransactionStores(t: Tables, mem: Cursors, r: Response, io: nat, before: Asked)
    requires Stores(t, before) && DistinctAsked(Join(before, AskedBy(r))) && AskedApart(before, AskedBy(r))
    requires HandleResponse(Db(t, None).Begin(), mem, r, io).ok
    ensures Stores(HandleResponse(Db(t, None).Begin(), mem, r, io).db.Target(), Join(before, AskedBy(r)))
  {
    var new_ := AskedBy(r);
    TransactionUpserts(t, mem, r, io);
    NextBatchStoresAll(before.vouchers, new_.vouchers);
    NextBatchStoresAll(before.notices, new_.notices);
    NextBatchStoresAll(before.reports, new_.reports);
  }

  // ---------- When a transaction goes through ----------

  lemma {:induction false} OutputsHandledIff(db: Db, es: seq<OutputEdge>, io: nat)
    requires db.tx.Some? && io >= |es|
    ensures HandleOutputs(db, es, io).ok <==>
            && (forall i :: 0 <= i < |es| ==> es[i].decoded.Some?)
            && UpsertAll(db.committed.vouchers, db.tx.value.vouchers, Vouchers(es)).Ok?
            && UpsertAll(db.committed.notices, db.tx.value.notices, Notices(es)).Ok?
    decreases |es|
  {
    if es != [] && es[0].decoded.Some? {
      var h := HandleOutput(db, es[0], io);
      if h.ok { OutputsHandledIff(h.db, es[1..], h.io); }
      assert (forall i :: 0 <= i < |es| ==> es[i].decoded.Some?) <==>
          (forall i :: 0 <= i < |es[1..]| ==> es[1..][i].decoded.Some?) by {
        assert forall i :: 0 < i < |es| ==> es[i] == es[1..][i - 1];
      }
      match es[0].decoded.value {
        case AsVoucher(app, destination, payload) =>
          assert Vouchers(es)[0].key == KeyOf(es[0]) && Vouchers(es)[1..] == Vouchers(es[1..]);
        case AsNotice(app, payload) =>
          assert Notices(es)[0].key == KeyOf(es[0]) && Notices(es)[1..] == Notices(es[1..]);
      }
    }
  }

  lemma {:induction false} InputsHandledIff(db: Db, es: seq<InputEdge>, io: nat)
    requires io >= |es|
    ensures HandleInputs(db, es, io).ok <==> forall i :: 0 <= i < |es| ==> es[i].decoded.Some?
    decreases |es|
  {
    if es != [] && es[0].decoded.Some? {
      InputsHandledIff(HandleInput(db, es[0], io).db, es[1..], io - 1);
      assert forall i :: 0 < i < |es| ==> es[i] == es[1..][i - 1];
    }
  }

  lemma {:induction false} ReportsHandledIff(db: Db, es: seq<ReportEdge>, io: nat)
    requires db.tx.Some? && io >= |es|
    ensures HandleReports(db, es, io).ok <==> UpsertAll(db.committed.reports, db.tx.value.reports, Reports(es)).Ok?
    decreases |es|
  {
    if es != [] {
      var h := HandleReport(db, es[0], io);
      if h.ok { ReportsHandledIff(h.db, es[1..], h.io); }
      assert Reports(es)[0] == ReportOf(es[0]) && Reports(es)[1..] == Reports(es[1..]);
    }
  }

  /** Without faults a response is handled if and only if every blob decodes and, in each table, the outputs
      whose (input, application) is not committed yet have free, pairwise different keys. */
  lemma ResponseHandledIff(t: Tables, mem: Cursors, r: Response)
    ensures HandleResponse(Db(t, None).Begin(), mem, r, Calls(r)).ok <==>
            && (forall i :: 0 <= i < |r.outputs.edges| ==> r.outputs.edges[i].decoded.Some?)
            && (forall i :: 0 <= i < |r.inputs.edges| ==> r.inputs.edges[i].decoded.Some?)
            && InsertsDisjoint(t.vouchers, t.vouchers, Vouchers(r.outputs.edges))
            && InsertsDisjoint(t.notices, t.notices, Notices(r.outputs.edges))
            && InsertsDisjoint(t.reports, t.reports, Reports(r.reports.edges))
  {
    var db, io := Db(t, None).Begin(), Calls(r);
    BatchSucceedsIff(t.vouchers, t.vouchers, Vouchers(r.outputs.edges));
    BatchSucceedsIff(t.notices, t.notices, Notices(r.outputs.edges));
    BatchSucceedsIff(t.reports, t.reports, Reports(r.reports.edges));
    OutputsHandledIff(db, r.outputs.edges, io);
    if HandleOutputs(db, r.outputs.edges, io).ok {
      OutputsIgnoreFaults(db, r.outputs.edges, io, io);
      OutputsWriteTransaction(db, r.outputs.edges, io);
      var o := HandleOutputs(db, r.outputs.edges, io);
      InputsHandledIff(o.db, r.inputs.edges, o.io);
      if HandleInputs(o.db, r.inputs.edges, o.io).ok {
        InputsIgnoreFaults(o.db, r.inputs.edges, o.io, o.io);
        InputsWriteTransaction(o.db, r.inputs.edges, o.io);
        var i := HandleInputs(o.db, r.inputs.edges, o.io);
        ReportsHandledIff(i.db, r.reports.edges, i.io);
        if HandleReports(i.db, r.reports.edges, i.io).ok {
          ReportsIgnoreFaults(i.db, r.reports.edges, i.io, i.io);
        }
      }
    }
  }

  /** An error while handling leaves the committed tables and the cursors in memory as they were; a failed
      begin or commit leaves the tables as they were. */
  lemma ErrorsLeaveTables(s: Sync, r: Response, plan: Plan)
    requires s.db.tx.None?
    ensures var handled := HandleResponse(s.db.Begin(), s.mem, r, plan.io).ok;
            && (!plan.beginOk || !handled ==> Transact(s, r, plan) == s)
            && (!plan.commitOk ==> Transact(s, r, plan).db == s.db)
  {
    EdgesWriteTransaction(s.db.Begin(), r, plan.io);
  }

  // ---------- Concatenation of batches ----------

  lemma {:induction false} VouchersSplit(a: seq<OutputEdge>, b: seq<OutputEdge>)
    ensures Vouchers(a + b) == Vouchers(a) + Vouchers(b)
    decreases |a|
  {
    if a == [] {
      assert a + b == b;
    } else {
      assert (a + b)[1..] == a[1..] + b;
      VouchersSplit(a[1..], b);
    }
  }

  lemma {:induction false} NoticesSplit(a: seq<OutputEdge>, b: seq<OutputEdge>)
    ensures Notices(a + b) == Notices(a) + Notices(b)
    decreases |a|
  {
    if a == [] {
      assert a + b == b;
    } else {
      assert (a + b)[1..] == a[1..] + b;
      NoticesSplit(a[1..], b);
    }
  }

  lemma {:induction false} ReportsSplit(a: seq<ReportEdge>, b: seq<ReportEdge>)
    ensures Reports(a + b) == Reports(a) + Reports(b)
    decreases |a|
  {
    if a == [] {
      assert a + b == b;
    } else {
      assert (a + b)[1..] == a[1..] + b;
      ReportsSplit(a[1..], b);
    }
  }

  lemma {:induction false} InputsSplit(a: seq<InputEdge>, b: seq<InputEdge>)
    ensures Inputs(a + b) == Inputs(a) + Inputs(b)
    decreases |a|
  {
    if a == [] {
      assert a + b == b;
    } else {
      assert (a + b)[1..] == a[1..] + b;
      InputsSplit(a[1..], b);
    }
  }

  /** What the feeds ask for up to a cut. */
  function AskedUpTo(fs: Feeds, c: Cut): Asked
    requires Within(c, fs)
  {
    AskedBy(Between(fs, START, c))
  }

  lemma EdgesSplit<E>(f: seq<Item<E>>, from: nat, to: nat)
    requires from <= to <= |f|
    ensures Edges(f[0..to]) == Edges(f[0..from]) + Edges(f[from..to])
  {
  }

  lemma AskedSplit(fs: Feeds, from: Cut, to: Cut)
    requires UpTo(from, to) && Within(to, fs)
    ensures AskedUpTo(fs, to) == Join(AskedUpTo(fs, from), AskedBy(Between(fs, from, to)))
  {
    EdgesSplit(fs.outputs, from.outputs, to.outputs);
    EdgesSplit(fs.inputs, from.inputs, to.inputs);
    EdgesSplit(fs.reports, from.reports, to.reports);
    VouchersSplit(Edges(fs.outputs[0..from.outputs]), Edges(fs.outputs[from.outputs..to.outputs]));
    NoticesSplit(Edges(fs.outputs[0..from.outputs]), Edges(fs.outputs[from.outputs..to.outputs]));
    ReportsSplit(Edges(fs.reports[0..from.reports]), Edges(fs.reports[from.reports..to.reports]));
    InputsSplit(Edges(fs.inputs[0..from.inputs]), Edges(fs.inputs[from.inputs..to.inputs]));
  }

  // ---------- What a replay stores ----------

  /** What the transaction between two neighbouring cuts asks for. */
  function BatchAt(fs: Feeds, cuts: seq<Cut>, k: nat): Asked
    requires Ordered(fs, cuts) && k < |cuts| - 1
  {
    AskedBy(Between(fs, cuts[k], cuts[k + 1]))
  }

  /** What each transaction of a replay asks for. */
  function BatchesOf(fs: Feeds, cuts: seq<Cut>): (r: seq<Asked>)
    requires Ordered(fs, cuts) && |cuts| > 0
    ensures |r| == |cuts| - 1
    ensures forall k :: 0 <= k < |r| ==> r[k] == BatchAt(fs, cuts, k)
  {
    seq(|cuts| - 1, k requires 0 <= k < |cuts| - 1 => BatchAt(fs, cuts, k))
  }

  function VoucherBatches(bs: seq<Asked>): (r: seq<seq<Output<VoucherContent>>>)
    ensures |r| == |bs| && forall k :: 0 <= k < |bs| ==> r[k] == bs[k].vouchers
  {
    seq(|bs|, k requires 0 <= k < |bs| => bs[k].vouchers)
  }

  function NoticeBatches(bs: seq<Asked>): (r: seq<seq<Output<string>>>)
    ensures |r| == |bs| && forall k :: 0 <= k < |bs| ==> r[k] == bs[k].notices
  {
    seq(|bs|, k requires 0 <= k < |bs| => bs[k].notices)
  }

  function ReportBatches(bs: seq<Asked>): (r: seq<seq<Output<string>>>)
    ensures |r| == |bs| && forall k :: 0 <= k < |bs| ==> r[k] == bs[k].reports
  {
    seq(|bs|, k requires 0 <= k < |bs| => bs[k].reports)
  }

  lemma OrderedPrefix(fs: Feeds, cuts: seq<Cut>, init: seq<Cut>)
    requires Ordered(fs, cuts) && init <= cuts
    ensures Ordered(fs, init)
  {
    forall k | 0 <= k < |init| - 1 ensures UpTo(init[k], init[k + 1]) {
      assert UpTo(cuts[k], cuts[k + 1]);
    }
  }

  lemma OrderedInit(fs: Feeds, cuts: seq<Cut>)
    requires Ordered(fs, cuts) && |cuts| > 1
    ensures Ordered(fs, cuts[..|cuts| - 1])
    ensures BatchesOf(fs, cuts) ==
            BatchesOf(fs, cuts[..|cuts| - 1]) + [AskedBy(Between(fs, cuts[|cuts| - 2], cuts[|cuts| - 1]))]
  {
    var init := cuts[..|cuts| - 1];
    OrderedPrefix(fs, cuts, init);
    forall k | 0 <= k < |init| - 1 ensures BatchAt(fs, init, k) == BatchAt(fs, cuts, k) {}
  }

  lemma LastBatch(bs: seq<Asked>, b: Asked)
    ensures VoucherBatches(bs + [b]) == VoucherBatches(bs) + [b.vouchers]
    ensures NoticeBatches(bs + [b]) == NoticeBatches(bs) + [b.notices]
    ensures ReportBatches(bs + [b]) == ReportBatches(bs) + [b.reports]
  {
  }

  lemma RunOneMore<C>(bs: seq<seq<Output<C>>>, b: seq<Output<C>>)
    requires RunBatches(bs).Some? && UpsertAll(RunBatches(bs).value, RunBatches(bs).value, b).Ok?
    ensures RunBatches(bs + [b]) == Some(UpsertAll(RunBatches(bs).value, RunBatches(bs).value, b).value)
  {
    assert (bs + [b])[..|bs|] == bs;
  }

  /** The output tables of a replay are those of its batches, one transaction after the other. */
  lemma {:induction false} ReplayRunsBatches(fs: Feeds, cuts: seq<Cut>)
    requires Replay(fs, cuts).Some? && Ordered(fs, cuts)
    ensures |cuts| > 0
    ensures var t, bs := Replay(fs, cuts).value, BatchesOf(fs, cuts);
            && RunBatches(VoucherBatches(bs)) == Some(t.vouchers)
            && RunBatches(NoticeBatches(bs)) == Some(t.notices)
            && RunBatches(ReportBatches(bs)) == Some(t.reports)
    decreases |cuts|
  {
    if |cuts| > 1 {
      var from, to, init := cuts[|cuts| - 2], cuts[|cuts| - 1], cuts[..|cuts| - 1];
      var r := Between(fs, from, to);
      OrderedInit(fs, cuts);
      ReplayRunsBatches(fs, init);
      TransactionUpserts(Replay(fs, init).value, CursorsAt(fs, from), r, Calls(r));
      var bs, b := BatchesOf(fs, init), AskedBy(r);
      LastBatch(bs, b);
      RunOneMore(VoucherBatches(bs), b.vouchers);
      RunOneMore(NoticeBatches(bs), b.notices);
      RunOneMore(ReportBatches(bs), b.reports);
    }
  }

  lemma ConcatOneMore<C>(bs: seq<seq<Output<C>>>, b: seq<Output<C>>)
    ensures Concat(bs + [b]) == Concat(bs) + b
  {
    assert (bs + [b])[..|bs|] == bs;
  }

  /** The batches joined are what is asked for. */
  ghost predicate Joined(bs: seq<Asked>, asked: Asked) {
    && Concat(VoucherBatches(bs)) == asked.vouchers
    && Concat(NoticeBatches(bs)) == asked.notices
    && Concat(ReportBatches(bs)) == asked.reports
  }

  lemma JoinOneMore(bs: seq<Asked>, asked: Asked, b: Asked)
    requires Joined(bs, asked)
    ensures Joined(bs + [b], Join(asked, b))
  {
    LastBatch(bs, b);
    ConcatOneMore(VoucherBatches(bs), b.vouchers);
    ConcatOneMore(NoticeBatches(bs), b.notices);
    ConcatOneMore(ReportBatches(bs), b.reports);
  }

  lemma JoinNone(fs: Feeds)
    ensures Joined([], AskedUpTo(fs, START))
  {
    assert fs.outputs[0..0] == [] && fs.reports[0..0] == [];
    assert VoucherBatches([]) == [] && NoticeBatches([]) == [] && ReportBatches([]) == [];
  }

  /** The batches joined are what the feeds ask for up to the last cut. */
  lemma {:induction false} BatchesJoin(fs: Feeds, cuts: seq<Cut>)
    requires Ordered(fs, cuts) && |cuts| > 0 && cuts[0] == START
    ensures Joined(BatchesOf(fs, cuts), AskedUpTo(fs, cuts[|cuts| - 1]))
    decreases |cuts|
  {
    if |cuts| == 1 {
      JoinNone(fs);
      assert BatchesOf(fs, cuts) == [];
    } else {
      var from, to, init := cuts[|cuts| - 2], cuts[|cuts| - 1], cuts[..|cuts| - 1];
      OrderedInit(fs, cuts);
      BatchesJoin(fs, init);
      AskedSplit(fs, from, to);
      JoinOneMore(BatchesOf(fs, init), AskedUpTo(fs, from), AskedBy(Between(fs, from, to)));
    }
  }

  lemma PrefixDistinctInputs(a: seq<InputRow>, b: seq<InputRow>)
    requires DistinctInputs(a + b)
    ensures DistinctInputs(a)
  {
    assert forall i :: 0 <= i < |a| ==> (a + b)[i] == a[i];
  }

  lemma {:induction false} ReplayStoresInputs(fs: Feeds, cuts: seq<Cut>)
    requires Replay(fs, cuts).Some? && Ordered(fs, cuts)
    requires DistinctInputs(AskedUpTo(fs, cuts[|cuts| - 1]).inputs)
    ensures Replay(fs, cuts).value.inputs == AskedUpTo(fs, cuts[|cuts| - 1]).inputs
    decreases |cuts|
  {
    if |cuts| > 1 {
      var from, to, init := cuts[|cuts| - 2], cuts[|cuts| - 1], cuts[..|cuts| - 1];
      var r := Between(fs, from, to);
      OrderedInit(fs, cuts);
      AskedSplit(fs, from, to);
      PrefixDistinctInputs(AskedUpTo(fs, from).inputs, AskedBy(r).inputs);
      ReplayStoresInputs(fs, init);
      TransactionUpserts(Replay(fs, init).value, CursorsAt(fs, from), r, Calls(r));
    }
  }

  /** In no output table does an (input, application) pair occur in two different transactions. */
  ghost predicate NoPairSplit(bs: seq<Asked>) {
    NotSplit(VoucherBatches(bs)) && NotSplit(NoticeBatches(bs)) && NotSplit(ReportBatches(bs))
  }

  /** The outputs and reports whose pair was asked for by no earlier transaction, and all inputs. */
  function KeptOf(bs: seq<Asked>, inputs: seq<InputRow>): Asked {
    Asked(Kept(VoucherBatches(bs)), Kept(NoticeBatches(bs)), Kept(ReportBatches(bs)), inputs)
  }

  /** When no key repeats, a replay stores exactly the outputs and reports whose pair occurs in no earlier transaction,
      and every input; and that is all that its prefix of the feeds asks for if and only if no pair is split over two
      transactions. */
  lemma ReplayStoresIff(fs: Feeds, cuts: seq<Cut>)
    requires Replay(fs, cuts).Some? && Ordered(fs, cuts) && cuts[0] == START
    requires DistinctAsked(AskedUpTo(fs, cuts[|cuts| - 1]))
    ensures var t, asked, bs := Replay(fs, cuts).value, AskedUpTo(fs, cuts[|cuts| - 1]), BatchesOf(fs, cuts);
            && Stores(t, KeptOf(bs, asked.inputs))
            && (Stores(t, asked) <==> NoPairSplit(bs))
  {
    var bs := BatchesOf(fs, cuts);
    ReplayRunsBatches(fs, cuts);
    BatchesJoin(fs, cuts);
    ReplayStoresInputs(fs, cuts);
    BatchesStoreKept(VoucherBatches(bs));
    BatchesStoreKept(NoticeBatches(bs));
    BatchesStoreKept(ReportBatches(bs));
    AllStoredIff(VoucherBatches(bs));
    AllStoredIff(NoticeBatches(bs));
    AllStoredIff(ReportBatches(bs));
  }

  /** What the tables of a synchronized worker hold, for any feeds in which no key repeats: exactly the outputs and
      reports of the prefixes its cursors point to whose (input, application) pair was in no earlier transaction, and
      every input. They hold everything that these prefixes ask for if and only if no pair was split over two
      transactions. */
  lemma SyncedTablesAreTheFeedsIff(fs: Feeds, s: Sync, cuts: seq<Cut>)
    requires Valid(fs) && SyncedAt(fs, s, cuts)
    requires DistinctAsked(AskedUpTo(fs, cuts[|cuts| - 1]))
    ensures Ordered(fs, cuts) && s.mem == CursorsAt(fs, cuts[|cuts| - 1])
    ensures var t, asked, bs := s.db.committed, AskedUpTo(fs, cuts[|cuts| - 1]), BatchesOf(fs, cuts);
            && Stores(t, KeptOf(bs, asked.inputs))
            && (Stores(t, asked) <==> NoPairSplit(bs))
  {
    ReplayLog(fs, cuts);
    ReplayStoresIff(fs, cuts);
  }
}
