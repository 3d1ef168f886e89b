/** The rows of a synchronized worker, edge by edge of the feeds. */
module SyncRows {
  import opened Wrappers
  import opened Repository
  import opened Batches
  import opened Database
  import opened Synchronizer
  import opened SyncRuns
  import opened SyncTables

  // ---------- Edges and what they ask for ----------

  lemma {:induction false} ReportAt(es: seq<ReportEdge>, j: nat)
    requires j < |es|
    ensures |Reports(es)| == |es|
    ensures Reports(es)[j] == Output(Key(es[j].inputIndex, es[j].index), ZERO_ADDRESS, es[j].blob)
    decreases |es|
  {
    if |es| > 1 { ReportAt(es[1..], if j == 0 then 0 else j - 1); }
  }

  lemma {:induction false} ReportsClaim(es: seq<ReportEdge>, o: Output<string>)
    requires o.app == ZERO_ADDRESS
    ensures Claimed(Reports(es), o) <==> exists j :: 0 <= j < |es| && es[j].inputIndex == o.key.input
    decreases |es|
  {
    if es != [] {
      var first := Output(Key(es[0].inputIndex, es[0].index), ZERO_ADDRESS, es[0].blob);
      ReportsClaim(es[1..], o);
      assert forall j :: 0 < j < |es| ==> es[j] == es[1..][j - 1];
      ClaimedJoin([first], Reports(es[1..]), o);
      assert Claimed([first], o) <==> SamePair([first][0], o);
    }
  }

  predicate IsNotice(e: OutputEdge) { e.decoded.Some? && e.decoded.value.AsNotice? }

  predicate IsVoucher(e: OutputEdge) { e.decoded.Some? && e.decoded.value.AsVoucher? }

  function NoticeOf(e: OutputEdge): Output<string>
    requires IsNotice(e)
  {
    Output(Key(e.inputIndex, e.index), e.decoded.value.app, e.decoded.value.payload)
  }

  function VoucherFrom(e: OutputEdge): Output<VoucherContent>
    requires IsVoucher(e)
  {
    Output(Key(e.inputIndex, e.index), e.decoded.value.app,
           VoucherContent(e.decoded.value.destination, e.decoded.value.payload, false))
  }

  lemma {:induction false} InNotices(es: seq<OutputEdge>, o: Output<string>)
    ensures o in Notices(es) <==> exists j :: 0 <= j < |es| && IsNotice(es[j]) && NoticeOf(es[j]) == o
    ensures Claimed(Notices(es), o) <==>
            exists j :: 0 <= j < |es| && IsNotice(es[j]) && SamePair(NoticeOf(es[j]), o)
    decreases |es|
  {
    if es != [] {
      InNotices(es[1..], o);
      assert forall j :: 0 < j < |es| ==> es[j] == es[1..][j - 1];
      assert Notices(es) == (if IsNotice(es[0]) then [NoticeOf(es[0])] else []) + Notices(es[1..]);
      ClaimedJoin(if IsNotice(es[0]) then [NoticeOf(es[0])] else [], Notices(es[1..]), o);
    }
  }

  lemma {:induction false} InVouchers(es: seq<OutputEdge>, o: Output<VoucherContent>)
    ensures o in Vouchers(es) <==> exists j :: 0 <= j < |es| && IsVoucher(es[j]) && VoucherFrom(es[j]) == o
    ensures Claimed(Vouchers(es), o) <==>
            exists j :: 0 <= j < |es| && IsVoucher(es[j]) && SamePair(VoucherFrom(es[j]), o)
    decreases |es|
  {
    if es != [] {
      InVouchers(es[1..], o);
      assert forall j :: 0 < j < |es| ==> es[j] == es[1..][j - 1];
      assert forall j :: 0 <= j < |es[1..]| ==> es[1..][j] == es[j + 1];
      assert Vouchers(es) == (if IsVoucher(es[0]) then [VoucherFrom(es[0])] else []) + Vouchers(es[1..]);
      ClaimedJoin(if IsVoucher(es[0]) then [VoucherFrom(es[0])] else [], Vouchers(es[1..]), o);
    }
  }

  // ---------- Transactions and positions ----------

  /** The batches before transaction k are what the feeds ask for up to its first cut. */
  lemma EarlierBatches(fs: Feeds, cuts: seq<Cut>, k: nat)
    requires Ordered(fs, cuts) && k < |cuts| - 1 && cuts[0] == START
    ensures var bs, asked := BatchesOf(fs, cuts), AskedUpTo(fs, cuts[k]);
            && Concat(VoucherBatches(bs)[..k]) == asked.vouchers
            && Concat(NoticeBatches(bs)[..k]) == asked.notices
            && Concat(ReportBatches(bs)[..k]) == asked.reports
  {
    var init := cuts[..k + 1];
    forall j | 0 <= j < |init| - 1 ensures UpTo(init[j], init[j + 1]) { assert UpTo(cuts[j], cuts[j + 1]); }
    BatchesJoin(fs, init);
    var bs := BatchesOf(fs, cuts);
    forall j | 0 <= j < k ensures BatchesOf(fs, init)[j] == bs[j] { assert BatchAt(fs, init, j) ==
        BatchAt(fs, cuts, j); }
    assert bs[..k] == BatchesOf(fs, init);
    assert VoucherBatches(bs)[..k] == VoucherBatches(bs[..k]);
    assert NoticeBatches(bs)[..k] == NoticeBatches(bs[..k]);
    assert ReportBatches(bs)[..k] == ReportBatches(bs[..k]);
  }

  lemma EdgeInside<E>(f: seq<Item<E>>, from: nat, to: nat, i: nat)
    requires from <= i < to <= |f|
    ensures Edges(f[from..to])[i - from] == f[i].edge
  {
  }

  lemma EdgeUpTo<E>(f: seq<Item<E>>, to: nat)
    requires to <= |f|
    ensures |Edges(f[0..to])| == to && forall j :: 0 <= j < to ==> Edges(f[0..to])[j] == f[j].edge
  {
  }

  /** What each lemma below starts from. */
  lemma SyncedBatches(fs: Feeds, s: Sync, cuts: seq<Cut>)
    requires Valid(fs) && SyncedAt(fs, s, cuts) && DistinctAsked(AskedUpTo(fs, cuts[|cuts| - 1]))
    ensures Ordered(fs, cuts) && cuts[0] == START
    ensures var bs, t := BatchesOf(fs, cuts), s.db.committed;
            && DistinctKeys(Concat(VoucherBatches(bs))) && t.vouchers == TableOf(Kept(VoucherBatches(bs)))
            && DistinctKeys(Concat(NoticeBatches(bs))) && t.notices == TableOf(Kept(NoticeBatches(bs)))
            && DistinctKeys(Concat(ReportBatches(bs))) && t.reports == TableOf(Kept(ReportBatches(bs)))
  {
    ReplayLog(fs, cuts);
    SyncedTablesAreTheFeedsIff(fs, s, cuts);
    BatchesJoin(fs, cuts);
  }

  // ---------- The rows of one table ----------

  lemma ReportRow(bs: seq<seq<Output<string>>>, k: nat, es: seq<ReportEdge>, before: seq<ReportEdge>, j: nat)
    requires DistinctKeys(Concat(bs)) && k < |bs| && j < |es|
    requires bs[k] == Reports(es) && Concat(bs[..k]) == Reports(before)
    ensures var t, key := TableOf(Kept(bs)), Key(es[j].inputIndex, es[j].index);
            && (key in t <==> forall i :: 0 <= i < |before| ==> before[i].inputIndex != es[j].inputIndex)
            && (key in t ==> t[key] == Row(ZERO_ADDRESS, es[j].blob))
  {
    var o := Output(Key(es[j].inputIndex, es[j].index), ZERO_ADDRESS, es[j].blob);
    ReportAt(es, j);
    RowOfKept(bs, k, o);
    ReportsClaim(before, o);
  }

  predicate OtherPair(a: OutputEdge, b: OutputEdge)
    requires a.decoded.Some? && b.decoded.Some?
  {
    a.inputIndex != b.inputIndex || a.decoded.value.app != b.decoded.value.app
  }

  lemma NoticeRow(bs: seq<seq<Output<string>>>, k: nat, es: seq<OutputEdge>, before: seq<OutputEdge>, j: nat)
    requires DistinctKeys(Concat(bs)) && k < |bs| && j < |es| && IsNotice(es[j])
    requires bs[k] == Notices(es) && Concat(bs[..k]) == Notices(before)
    ensures var t, key, d := TableOf(Kept(bs)), Key(es[j].inputIndex, es[j].index), es[j].decoded.value;
            && (key in t <==>
                forall i :: 0 <= i < |before| && IsNotice(before[i]) ==> OtherPair(before[i], es[j]))
            && (key in t ==> t[key] == Row(d.app, d.payload))
  {
    InNotices(es, NoticeOf(es[j]));
    RowOfKept(bs, k, NoticeOf(es[j]));
    InNotices(before, NoticeOf(es[j]));
  }

  lemma VoucherRow(bs: seq<seq<Output<VoucherContent>>>, k: nat, es: seq<OutputEdge>, before: seq<OutputEdge>, j: nat)
    requires DistinctKeys(Concat(bs)) && k < |bs| && j < |es| && IsVoucher(es[j])
    requires bs[k] == Vouchers(es) && Concat(bs[..k]) == Vouchers(before)
    ensures var t, key, d := TableOf(Kept(bs)), Key(es[j].inputIndex, es[j].index), es[j].decoded.value;
            && (key in t <==>
                forall i :: 0 <= i < |before| && IsVoucher(before[i]) ==> OtherPair(before[i], es[j]))
            && (key in t ==> t[key] == Row(d.app, VoucherContent(d.destination, d.payload, false)))
  {
    InVouchers(es, VoucherFrom(es[j]));
    RowOfKept(bs, k, VoucherFrom(es[j]));
    InVouchers(before, VoucherFrom(es[j]));
  }

  /** A table holds what is kept of some batches, of which batch k is `now` and those before it are `before`. */
  ghost predicate Setup<C>(bs: seq<seq<Output<C>>>, t: Table<C>, k: nat, now: seq<Output<C>>, before: seq<Output<C>>) {
    && DistinctKeys(Concat(bs)) && t == TableOf(Kept(bs))
    && k < |bs| && bs[k] == now && Concat(bs[..k]) == before
  }

  lemma BatchAsks(fs: Feeds, cuts: seq<Cut>, k: nat)
    requires Ordered(fs, cuts) && k < |cuts| - 1
    ensures UpTo(cuts[k], cuts[k + 1]) && Within(cuts[k], fs) && Within(cuts[k + 1], fs)
    ensures var bs, from, to := BatchesOf(fs, cuts), cuts[k], cuts[k + 1];
            && VoucherBatches(bs)[k] == Vouchers(Edges(fs.outputs[from.outputs..to.outputs]))
            && NoticeBatches(bs)[k] == Notices(Edges(fs.outputs[from.outputs..to.outputs]))
            && ReportBatches(bs)[k] == Reports(Edges(fs.reports[from.reports..to.reports]))
  {
    assert BatchesOf(fs, cuts)[k] == BatchAt(fs, cuts, k);
  }

  lemma Setups(fs: Feeds, s: Sync, cuts: seq<Cut>, k: nat)
    returns (vs: seq<seq<Output<VoucherContent>>>, ns: seq<seq<Output<string>>>, rs: seq<seq<Output<string>>>)
    requires Valid(fs) && SyncedAt(fs, s, cuts) && DistinctAsked(AskedUpTo(fs, cuts[|cuts| - 1])) && k < |cuts| - 1
    ensures UpTo(cuts[k], cuts[k + 1]) && Within(cuts[k + 1], fs)
    ensures var t, from, to := s.db.committed, cuts[k], cuts[k + 1];
            && Setup(vs, t.vouchers, k, Vouchers(Edges(fs.outputs[from.outputs..to.outputs])),
                     Vouchers(Edges(fs.outputs[0..from.outputs])))
            && Setup(ns, t.notices, k, Notices(Edges(fs.outputs[from.outputs..to.outputs])),
                     Notices(Edges(fs.outputs[0..from.outputs])))
            && Setup(rs, t.reports, k, Reports(Edges(fs.reports[from.reports..to.reports])),
                     Reports(Edges(fs.reports[0..from.reports])))
  {
    SyncedBatches(fs, s, cuts);
    EarlierBatches(fs, cuts, k);
    BatchAsks(fs, cuts, k);
    var bs := BatchesOf(fs, cuts);
    vs, ns, rs := VoucherBatches(bs), NoticeBatches(bs), ReportBatches(bs);
  }

  // ---------- Row by row ----------

  ghost predicate ReportIsRight(f: seq<Item<ReportEdge>>, t: Table<string>, from: nat, i: nat)
    requires from <= i < |f|
  {
    var e := f[i].edge;
    && (Key(e.inputIndex, e.index) in t <==> forall j :: 0 <= j < from ==> f[j].edge.inputIndex != e.inputIndex)
    && (Key(e.inputIndex, e.index) in t ==> t[Key(e.inputIndex, e.index)] == Row(ZERO_ADDRESS, e.blob))
  }

  ghost predicate NoticeIsRight(f: seq<Item<OutputEdge>>, t: Table<string>, from: nat, i: nat)
    requires from <= i < |f| && IsNotice(f[i].edge)
  {
    var e, d := f[i].edge, f[i].edge.decoded.value;
    && (Key(e.inputIndex, e.index) in t <==>
        forall j :: 0 <= j < from && IsNotice(f[j].edge) ==> OtherPair(f[j].edge, e))
    && (Key(e.inputIndex, e.index) in t ==> t[Key(e.inputIndex, e.index)] == Row(d.app, d.payload))
  }

  ghost predicate VoucherIsRight(f: seq<Item<OutputEdge>>, t: Table<VoucherContent>, from: nat, i: nat)
    requires from <= i < |f| && IsVoucher(f[i].edge)
  {
    var e, d := f[i].edge, f[i].edge.decoded.value;
    && (Key(e.inputIndex, e.index) in t <==>
        forall j :: 0 <= j < from && IsVoucher(f[j].edge) ==> OtherPair(f[j].edge, e))
    && (Key(e.inputIndex, e.index) in t ==>
          t[Key(e.inputIndex, e.index)] == Row(d.app, VoucherContent(d.destination, d.payload, false)))
  }

  lemma ReportFromSetup(f: seq<Item<ReportEdge>>, bs: seq<seq<Output<string>>>, t: Table<string>, k: nat, from: nat,
                        to: nat, i: nat)
    requires from <= i < to <= |f|
    requires Setup(bs, t, k, Reports(Edges(f[from..to])), Reports(Edges(f[0..from])))
    ensures ReportIsRight(f, t, from, i)
  {
    EdgeInside(f, from, to, i);
    EdgeUpTo(f, from);
    ReportRow(bs, k, Edges(f[from..to]), Edges(f[0..from]), i - from);
  }

  lemma NoticeFromSetup(f: seq<Item<OutputEdge>>, bs: seq<seq<Output<string>>>, t: Table<string>, k: nat, from: nat,
                        to: nat, i: nat)
    requires from <= i < to <= |f| && IsNotice(f[i].edge)
    requires Setup(bs, t, k, Notices(Edges(f[from..to])), Notices(Edges(f[0..from])))
    ensures NoticeIsRight(f, t, from, i)
  {
    EdgeInside(f, from, to, i);
    EdgeUpTo(f, from);
    NoticeRow(bs, k, Edges(f[from..to]), Edges(f[0..from]), i - from);
  }

  lemma VoucherFromSetup(f: seq<Item<OutputEdge>>, bs: seq<seq<Output<VoucherContent>>>, t: Table<VoucherContent>,
                         k: nat, from: nat, to: nat, i: nat)
    requires from <= i < to <= |f| && IsVoucher(f[i].edge)
    requires Setup(bs, t, k, Vouchers(Edges(f[from..to])), Vouchers(Edges(f[0..from])))
    ensures VoucherIsRight(f, t, from, i)
  {
    EdgeInside(f, from, to, i);
    EdgeUpTo(f, from);
    VoucherRow(bs, k, Edges(f[from..to]), Edges(f[0..from]), i - from);
  }

  /** A report edge of transaction k is a row, with its input and output index and its blob, if and only if no edge of
      an earlier transaction is of the same input. */
  lemma ReportIsStoredIff(fs: Feeds, s: Sync, cuts: seq<Cut>, k: nat, i: nat)
    requires Valid(fs) && SyncedAt(fs, s, cuts) && DistinctAsked(AskedUpTo(fs, cuts[|cuts| - 1]))
    requires k < |cuts| - 1 && cuts[k].reports <= i < cuts[k + 1].reports
    ensures i < |fs.reports| && ReportIsRight(fs.reports, s.db.committed.reports, cuts[k].reports, i)
  {
    var vs, ns, rs := Setups(fs, s, cuts, k);
    ReportFromSetup(fs.reports, rs, s.db.committed.reports, k, cuts[k].reports, cuts[k + 1].reports, i);
  }

  /** A notice edge of transaction k is a row, with its application and payload, if and only if no notice edge of an
      earlier transaction is of the same input and application. */
  lemma NoticeIsStoredIff(fs: Feeds, s: Sync, cuts: seq<Cut>, k: nat, i: nat)
    requires Valid(fs) && SyncedAt(fs, s, cuts) && DistinctAsked(AskedUpTo(fs, cuts[|cuts| - 1]))
    requires k < |cuts| - 1 && cuts[k].outputs <= i < cuts[k + 1].outputs
    requires i < |fs.outputs| && IsNotice(fs.outputs[i].edge)
    ensures NoticeIsRight(fs.outputs, s.db.committed.notices, cuts[k].outputs, i)
  {
    var vs, ns, rs := Setups(fs, s, cuts, k);
    NoticeFromSetup(fs.outputs, ns, s.db.committed.notices, k, cuts[k].outputs, cuts[k + 1].outputs, i);
  }

  /** The same of a voucher edge, with its destination besides; a stored voucher is not executed. */
  lemma VoucherIsStoredIff(fs: Feeds, s: Sync, cuts: seq<Cut>, k: nat, i: nat)
    requires Valid(fs) && SyncedAt(fs, s, cuts) && DistinctAsked(AskedUpTo(fs, cuts[|cuts| - 1]))
    requires k < |cuts| - 1 && cuts[k].outputs <= i < cuts[k + 1].outputs
    requires i < |fs.outputs| && IsVoucher(fs.outputs[i].edge)
    ensures VoucherIsRight(fs.outputs, s.db.committed.vouchers, cuts[k].outputs, i)
  {
    var vs, ns, rs := Setups(fs, s, cuts, k);
    VoucherFromSetup(fs.outputs, vs, s.db.committed.vouchers, k, cuts[k].outputs, cuts[k + 1].outputs, i);
  }

  // ---------- Inputs ----------

  lemma TransactionDecodes(fs: Feeds, from: Cut, to: Cut, t: Tables, i: nat)
    requires UpTo(from, to) && Within(to, fs) && from.inputs <= i < to.inputs
    requires var r := Between(fs, from, to); HandleResponse(Db(t, None).Begin(), CursorsAt(fs, from), r, Calls(r)).ok
    ensures fs.inputs[i].edge.decoded.Some?
  {
    var r := Between(fs, from, to);
    ResponseHandledIff(t, CursorsAt(fs, from), r);
    EdgeInside(fs.inputs, from.inputs, to.inputs, i);
    assert r.inputs.edges[i - from.inputs].decoded.Some?;
  }

  lemma LastTransaction(fs: Feeds, cuts: seq<Cut>)
    requires Replay(fs, cuts).Some? && |cuts| > 1
    ensures Replay(fs, cuts[..|cuts| - 1]).Some?
    ensures var from, to := cuts[|cuts| - 2], cuts[|cuts| - 1];
            && UpTo(from, to) && Within(to, fs)
            && HandleResponse(Db(Replay(fs, cuts[..|cuts| - 1]).value, None).Begin(), CursorsAt(fs, from),
                              Between(fs, from, to), Calls(Between(fs, from, to))).ok
  {
  }

  /** What a synchronized worker has handled did decode. */
  lemma {:induction false} ReplayDecodes(fs: Feeds, cuts: seq<Cut>, i: nat)
    requires Replay(fs, cuts).Some? && |cuts| > 0 && i < cuts[|cuts| - 1].inputs
    ensures i < |fs.inputs| && fs.inputs[i].edge.decoded.Some?
    decreases |cuts|
  {
    if |cuts| > 1 {
      LastTransaction(fs, cuts);
      var from, to, init := cuts[|cuts| - 2], cuts[|cuts| - 1], cuts[..|cuts| - 1];
      if i < from.inputs {
        ReplayDecodes(fs, init, i);
      } else {
        TransactionDecodes(fs, from, to, Replay(fs, init).value, i);
      }
    }
  }

  lemma {:induction false} InputAt(es: seq<InputEdge>, j: nat)
    requires j < |es| && forall i :: 0 <= i < |es| ==> es[i].decoded.Some?
    ensures |Inputs(es)| == |es|
    ensures var d := es[j].decoded.value;
            Inputs(es)[j] == InputRow(es[j].index, d.app, Unprocessed, d.sender, d.payload, d.block, d.timestamp, "")
    decreases |es|
  {
    if |es| > 1 { InputAt(es[1..], if j == 0 then 0 else j - 1); }
  }

  /** The input table of a synchronized worker has one row for each input edge of the prefix, in feed order, with its
      index, application, sender, payload, block and time, unprocessed. */
  lemma InputsAreStored(fs: Feeds, s: Sync, cuts: seq<Cut>)
    requires Valid(fs) && SyncedAt(fs, s, cuts) && DistinctAsked(AskedUpTo(fs, cuts[|cuts| - 1]))
    ensures var rows, n := s.db.committed.inputs, cuts[|cuts| - 1].inputs;
            && |rows| == n <= |fs.inputs|
            && forall i :: 0 <= i < n ==>
                 var e := fs.inputs[i].edge;
                 && e.decoded.Some?
                 && var d := e.decoded.value;
                    rows[i] == InputRow(e.index, d.app, Unprocessed, d.sender, d.payload, d.block, d.timestamp, "")
  {
    SyncedBatches(fs, s, cuts);
    ReplayStoresInputs(fs, cuts);
    var n := cuts[|cuts| - 1].inputs;
    var es := Edges(fs.inputs[0..n]);
    EdgeUpTo(fs.inputs, n);
    forall i | 0 <= i < |es| ensures es[i].decoded.Some? { ReplayDecodes(fs, cuts, i); }
    forall i | 0 <= i < n
      ensures |Inputs(es)| == n
      ensures var d := es[i].decoded.value;
              Inputs(es)[i] == InputRow(es[i].index, d.app, Unprocessed, d.sender, d.payload, d.block, d.timestamp, "")
    {
      InputAt(es, i);
    }
    assert n == 0 ==> es == [];
  }
}
