/** What finishing an input writes, in closed form. */
module RollupOutputs {
  import opened Wrappers
  import opened Repository
  import opened Database
  import opened Rollup

  function VoucherOutputs(vs: seq<Voucher>): (os: seq<Output<VoucherContent>>)
    ensures |os| == |vs|
  {
    seq(|vs|, i requires 0 <= i < |vs| =>
      Output(Key(vs[i].inputIndex, vs[i].index), ZERO_ADDRESS,
             VoucherContent(vs[i].destination, "0x" + vs[i].payload, false)))
  }

  function NoticeOutputs(ns: seq<Notice>): (os: seq<Output<string>>)
    ensures |os| == |ns|
  {
    seq(|ns|, i requires 0 <= i < |ns| =>
      Output(Key(ns[i].inputIndex, ns[i].index), ZERO_ADDRESS, "0x" + ns[i].payload))
  }

  function ReportOutputs(rs: seq<Report>): (os: seq<Output<string>>)
    ensures |os| == |rs|
  {
    seq(|rs|, i requires 0 <= i < |rs| => Output(Key(rs[i].inputIndex, rs[i].index), ZERO_ADDRESS, rs[i].payload))
  }

  ghost predicate Untouched<C>(t: Table<C>, input: nat) {
    forall k :: k in t ==> k.input != input
  }

  /** The outputs of one input, numbered from zero. */
  ghost predicate Numbered<C>(os: seq<Output<C>>, input: nat) {
    forall i :: 0 <= i < |os| ==> os[i].key == Key(input, i) && os[i].app == ZERO_ADDRESS
  }

  /** The upserts of one call after the other, up to the first error. */
  function StoreEach<C>(t: Table<C>, os: seq<Output<C>>): Result<Table<C>, SqlError>
    decreases |os|
  {
    if os == [] then Ok(t)
    else
      match Upsert(t, t, os[0])
      case Ok(t') => StoreEach(t', os[1..])
      case Err(e) => Err(e)
  }

  function InsertEach<C>(t: Table<C>, os: seq<Output<C>>): Result<Table<C>, SqlError>
    decreases |os|
  {
    if os == [] then Ok(t)
    else
      match Insert(t, os[0])
      case Ok(t') => InsertEach(t', os[1..])
      case Err(e) => Err(e)
  }

  /** The table of an input's first output alone. */
  function FirstOf<C>(os: seq<Output<C>>): Table<C> {
    if os == [] then map[] else map[os[0].key := os[0].ToRow()]
  }

  lemma {:induction false} LaterOutputsAreDropped<C>(t: Table<C>, os: seq<Output<C>>, input: nat)
    requires Key(input, 0) in t && t[Key(input, 0)].app == ZERO_ADDRESS
    requires forall k :: k in t && k.input == input ==> k.output == 0
    requires forall i :: 0 <= i < |os| ==> os[i].key.input == input && os[i].key.output > 0 && os[i].app == ZERO_ADDRESS
    ensures StoreEach(t, os) == Ok(t)
    decreases |os|
  {
    if os != [] {
      assert Owned(t, os[0].key.input, os[0].app);
      LaterOutputsAreDropped(t, os[1..], input);
    }
  }

  lemma FirstOutputIsKept<C>(t: Table<C>, os: seq<Output<C>>, input: nat)
    requires Untouched(t, input) && Numbered(os, input)
    ensures StoreEach(t, os) == Ok(t + FirstOf(os))
  {
    if os == [] {
      assert t + map[] == t;
    } else {
      assert t[Key(input, 0) := os[0].ToRow()] == t + FirstOf(os);
      LaterOutputsAreDropped(t + FirstOf(os), os[1..], input);
    }
  }

  lemma {:induction false} InsertEachStoresAll<C>(t: Table<C>, done: seq<Output<C>>, os: seq<Output<C>>)
    requires DistinctKeys(done + os) && forall j :: 0 <= j < |os| ==> os[j].key !in t
    ensures InsertEach(t + TableOf(done), os) == Ok(t + TableOf(done + os))
    decreases |os|
  {
    if os == [] {
      assert done + os == done;
    } else {
      var o := os[0];
      assert done + os == (done + [o]) + os[1..];
      assert (done + [o])[..|done|] == done;
      assert o.key !in TableOf(done) by {
        assert (done + os)[|done|] == o;
        assert forall j :: 0 <= j < |done| ==> (done + os)[j] == done[j];
      }
      assert (t + TableOf(done))[o.key := o.ToRow()] == t + TableOf(done + [o]);
      InsertEachStoresAll(t, done + [o], os[1..]);
    }
  }

  lemma {:induction false} SendVouchersStores(db: Db, vs: seq<Voucher>)
    requires db.tx.None?
    ensures match StoreEach(db.committed.vouchers, VoucherOutputs(vs))
            case Ok(t) => SendVouchers(db, vs) == Written(Db(db.committed.(vouchers := t), None), None)
            case Err(e) => SendVouchers(db, vs).err == Some(e)
    decreases |vs|
  {
    if vs != [] {
      DecoderUndoesAdapter(db, vs[0].destination, vs[0].payload, vs[0].inputIndex, vs[0].index);
      assert VoucherOutputs(vs)[1..] == VoucherOutputs(vs[1..]);
      match Upsert(db.committed.vouchers, db.committed.vouchers, VoucherOutputs(vs)[0]) {
        case Ok(t) => SendVouchersStores(Db(db.committed.(vouchers := t), None), vs[1..]);
        case Err(_) =>
      }
    }
  }

  lemma {:induction false} SendNoticesStores(db: Db, ns: seq<Notice>)
    requires db.tx.None?
    ensures match StoreEach(db.committed.notices, NoticeOutputs(ns))
            case Ok(t) => SendNotices(db, ns) == Written(Db(db.committed.(notices := t), None), None)
            case Err(e) => SendNotices(db, ns).err == Some(e)
    decreases |ns|
  {
    if ns != [] {
      DecoderUndoesAdapter(db, ZERO_ADDRESS, ns[0].payload, ns[0].inputIndex, ns[0].index);
      assert NoticeOutputs(ns)[1..] == NoticeOutputs(ns[1..]);
      match Upsert(db.committed.notices, db.committed.notices, NoticeOutputs(ns)[0]) {
        case Ok(t) => SendNoticesStores(Db(db.committed.(notices := t), None), ns[1..]);
        case Err(_) =>
      }
    }
  }

  lemma {:induction false} SaveReportsStores(db: Db, rs: seq<Report>)
    requires db.tx.None?
    ensures match InsertEach(db.committed.reports, ReportOutputs(rs))
            case Ok(t) => SaveReports(db, rs) == Written(Db(db.committed.(reports := t), None), None)
            case Err(e) => SaveReports(db, rs).err == Some(e)
    decreases |rs|
  {
    if rs != [] {
      assert ReportOutputs(rs)[1..] == ReportOutputs(rs[1..]);
      match Insert(db.committed.reports, ReportOutputs(rs)[0]) {
        case Ok(t) => SaveReportsStores(Db(db.committed.(reports := t), None), rs[1..]);
        case Err(_) =>
      }
    }
  }

  /** The outputs of an advance in flight carry its index and are numbered in the order they were added. */
  ghost predicate WellNumbered(a: Phase)
    requires a.Advancing?
  {
    && Numbered(VoucherOutputs(a.vouchers), a.input.index)
    && Numbered(NoticeOutputs(a.notices), a.input.index)
    && Numbered(ReportOutputs(a.reports), a.input.index)
  }

  ghost predicate UntouchedInput(t: Tables, input: nat) {
    Untouched(t.vouchers, input) && Untouched(t.notices, input) && Untouched(t.reports, input)
  }

  /** The tables once the advance of a row has left: rows added to the three output tables, the row's status set. */
  function Closed(t: Tables, row: InputRow, status: CompletionStatus, exception: string,
                  v: Table<VoucherContent>, n: Table<string>, r: Table<string>): Tables
  {
    Tables(t.vouchers + v, t.notices + n, t.reports + r, SetStatus(t.inputs, row.index, status, exception), t.fetches)
  }

  /** What an advance leaves in the voucher table. */
  function KeptVouchers(a: Phase, status: CompletionStatus): Table<VoucherContent>
    requires a.Advancing?
  {
    if status == Accepted then FirstOf(VoucherOutputs(a.vouchers)) else map[]
  }

  /** What an advance leaves in the notice table. */
  function KeptNotices(a: Phase, status: CompletionStatus): Table<string>
    requires a.Advancing?
  {
    if status == Accepted then FirstOf(NoticeOutputs(a.notices)) else map[]
  }

  lemma ReportsAllSaved(db: Db, rs: seq<Report>, input: nat)
    requires db.tx.None? && Untouched(db.committed.reports, input) && Numbered(ReportOutputs(rs), input)
    ensures SaveReports(db, rs) ==
            Written(Db(db.committed.(reports := db.committed.reports + TableOf(ReportOutputs(rs))), None), None)
  {
    var os := ReportOutputs(rs);
    assert [] + os == os && db.committed.reports + TableOf<string>([]) == db.committed.reports;
    InsertEachStoresAll(db.committed.reports, [], os);
    SaveReportsStores(db, rs);
  }

  lemma OutputsSent(db: Db, a: Phase)
    requires db.tx.None? && a.Advancing? && WellNumbered(a) && UntouchedInput(db.committed, a.input.index)
    ensures var t, w := db.committed, SendVouchers(db, a.vouchers);
            && w.err.None?
            && SendNotices(w.db, a.notices) ==
               Written(Db(t.(vouchers := t.vouchers + FirstOf(VoucherOutputs(a.vouchers)),
                             notices := t.notices + FirstOf(NoticeOutputs(a.notices))), None), None)
  {
    FirstOutputIsKept(db.committed.vouchers, VoucherOutputs(a.vouchers), a.input.index);
    SendVouchersStores(db, a.vouchers);
    FirstOutputIsKept(db.committed.notices, NoticeOutputs(a.notices), a.input.index);
    SendNoticesStores(SendVouchers(db, a.vouchers).db, a.notices);
  }

  /** Finishing an advance whose outputs nobody wrote before never fails. It saves every report with its number
      whatever the status; an accepted advance also leaves its first voucher and its first notice, and only those. */
  lemma FinishAdvanceStores(db: Db, a: Phase, status: CompletionStatus)
    requires db.tx.None? && a.Advancing? && WellNumbered(a) && UntouchedInput(db.committed, a.input.index)
    ensures FinishAdvance(db, a, status) ==
            Written(Db(Closed(db.committed, a.input, status, a.input.exception, KeptVouchers(a, status),
                              KeptNotices(a, status), TableOf(ReportOutputs(a.reports))), None), None)
  {
    var t := db.committed;
    if status == Accepted {
      OutputsSent(db, a);
      var sent := SendNotices(SendVouchers(db, a.vouchers).db, a.notices).db;
      ReportsAllSaved(sent, a.reports, a.input.index);
    } else {
      assert t.vouchers + map[] == t.vouchers && t.notices + map[] == t.notices;
      ReportsAllSaved(db, a.reports, a.input.index);
    }
  }

  /** An exception never fails either; it saves every report and no voucher or notice. */
  lemma FailAdvanceStores(db: Db, a: Phase, payload: string)
    requires db.tx.None? && a.Advancing? && WellNumbered(a) && UntouchedInput(db.committed, a.input.index)
    ensures FailAdvance(db, a, payload) ==
            Written(Db(Closed(db.committed, a.input, Exception, payload, map[], map[],
                              TableOf(ReportOutputs(a.reports))), None), None)
  {
    var t := db.committed;
    assert t.vouchers + map[] == t.vouchers && t.notices + map[] == t.notices;
    ReportsAllSaved(db.UpdateInput(a.input.index, Exception, payload), a.reports, a.input.index);
  }

  /** Every report an advance added is a row of the table under its number, with its payload. */
  lemma ReportIsSaved(db: Db, a: Phase, status: CompletionStatus, k: nat)
    requires db.tx.None? && a.Advancing? && WellNumbered(a) && UntouchedInput(db.committed, a.input.index)
    requires k < |a.reports|
    ensures var t := FinishAdvance(db, a, status).db.committed.reports;
            Key(a.input.index, k) in t && t[Key(a.input.index, k)] == Row(ZERO_ADDRESS, a.reports[k].payload)
  {
    FinishAdvanceStores(db, a, status);
    TableOfAt(ReportOutputs(a.reports), k);
  }

  /** The vouchers of an accepted advance are all stored if and only if it added at most one. */
  lemma AllVouchersStoredIff(db: Db, a: Phase)
    requires db.tx.None? && a.Advancing? && WellNumbered(a) && UntouchedInput(db.committed, a.input.index)
    ensures (forall k :: 0 <= k < |a.vouchers| ==>
               Key(a.input.index, k) in FinishAdvance(db, a, Accepted).db.committed.vouchers)
            <==> |a.vouchers| <= 1
  {
    FinishAdvanceStores(db, a, Accepted);
    if |a.vouchers| > 1 { assert Key(a.input.index, 1) !in FinishAdvance(db, a, Accepted).db.committed.vouchers; }
  }

  /** The notices of an accepted advance are all stored if and only if it added at most one. */
  lemma AllNoticesStoredIff(db: Db, a: Phase)
    requires db.tx.None? && a.Advancing? && WellNumbered(a) && UntouchedInput(db.committed, a.input.index)
    ensures (forall k :: 0 <= k < |a.notices| ==>
               Key(a.input.index, k) in FinishAdvance(db, a, Accepted).db.committed.notices)
            <==> |a.notices| <= 1
  {
    FinishAdvanceStores(db, a, Accepted);
    if |a.notices| > 1 { assert Key(a.input.index, 1) !in FinishAdvance(db, a, Accepted).db.committed.notices; }
  }
}
