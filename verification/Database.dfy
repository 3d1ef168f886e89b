/** The SQL database as the program sees it: committed tables and at most one open transaction. Writes go to
    the transaction when there is one; every lookup of the repositories reads the committed tables. */
module Database {
  import opened Wrappers
  import opened Repository

  const ZERO_ADDRESS: Address := "0x0000000000000000000000000000000000000000"

  datatype CompletionStatus = Unprocessed | Accepted | Rejected | Exception

  datatype InputRow = InputRow(index: nat, app: Address, status: CompletionStatus, sender: Address, payload: string,
                               block: nat, timestamp: int, exception: string)

  datatype VoucherContent = VoucherContent(destination: Address, payload: string, executed: bool)

  datatype Cursors = Cursors(outputs: string, inputs: string, reports: string)

  /** A row of synchronizer_fetch; the rows are kept in id order. */
  datatype Fetch = Fetch(ini: Cursors, end: Cursors, log: seq<Key>)

  datatype Tables = Tables(vouchers: Table<VoucherContent>, notices: Table<string>, reports: Table<string>,
                           inputs: seq<InputRow>, fetches: seq<Fetch>)

  const EMPTY := Tables(map[], map[], map[], [], [])

  function FindByIndex(rows: seq<InputRow>, index: nat): (r: Option<InputRow>)
    ensures r.Some? <==> exists i :: 0 <= i < |rows| && rows[i].index == index
    ensures r.Some? ==> r.value in rows && r.value.index == index
  {
    if rows == [] then None
    else if rows[0].index == index then Some(rows[0])
    else FindByIndex(rows[1..], index)
  }

  predicate OneRowPerIndex(rows: seq<InputRow>) {
    forall i, j :: 0 <= i < j < |rows| ==> rows[i].index != rows[j].index
  }

  predicate HasInput(rows: seq<InputRow>, index: nat, app: Address) {
    exists i :: 0 <= i < |rows| && rows[i].index == index && rows[i].app == app
  }

  /** UPDATE convenience_inputs SET status, exception WHERE input_index = index */
  function SetStatus(rows: seq<InputRow>, index: nat, status: CompletionStatus, exception: string): (r: seq<InputRow>)
    ensures |r| == |rows|
    ensures forall i :: 0 <= i < |rows| ==>
              r[i] == if rows[i].index == index then rows[i].(status := status, exception := exception) else rows[i]
  {
    seq(|rows|, i requires 0 <= i < |rows| =>
      if rows[i].index == index then rows[i].(status := status, exception := exception) else rows[i])
  }

  /** The unprocessed row with the least index. */
  function FindUnprocessed(rows: seq<InputRow>): (r: Option<InputRow>)
    ensures r.None? <==> forall i :: 0 <= i < |rows| ==> rows[i].status != Unprocessed
    ensures r.Some? ==> r.value in rows && r.value.status == Unprocessed
    ensures r.Some? ==> forall i :: 0 <= i < |rows| && rows[i].status == Unprocessed ==> r.value.index <= rows[i].index
  {
    if rows == [] then None
    else
      var rest := FindUnprocessed(rows[1..]);
      if rows[0].status == Unprocessed && (rest.None? || rows[0].index <= rest.value.index) then Some(rows[0]) else rest
  }

  function SetExecuted(t: Table<VoucherContent>, input: nat, output: nat, executed: bool): Table<VoucherContent> {
    var key := Key(input, output);
    if key in t then t[key := Row(t[key].app, t[key].content.(executed := executed))] else t
  }

  datatype Db = Db(committed: Tables, tx: Option<Tables>) {
    /** The tables that a write statement changes. */
    function Target(): Tables { if tx.Some? then tx.value else committed }

    function Write(t: Tables): Db { if tx.Some? then Db(committed, Some(t)) else Db(t, None) }

    function Begin(): Db { Db(committed, Some(committed)) }

    function Commit(): Db { Db(Target(), None) }

    function Rollback(): Db { Db(committed, None) }

    function CreateVoucher(o: Output<VoucherContent>): Result<Db, SqlError> {
      match Upsert(committed.vouchers, Target().vouchers, o)
      case Ok(t) => Ok(Write(Target().(vouchers := t)))
      case Err(e) => Err(e)
    }

    function CreateNotice(o: Output<string>): Result<Db, SqlError> {
      match Upsert(committed.notices, Target().notices, o)
      case Ok(t) => Ok(Write(Target().(notices := t)))
      case Err(e) => Err(e)
    }

    function CreateReport(o: Output<string>): Result<Db, SqlError> {
      match Upsert(committed.reports, Target().reports, o)
      case Ok(t) => Ok(Write(Target().(reports := t)))
      case Err(e) => Err(e)
    }

    /** The report repository's own Create: an insert without a lookup. */
    function InsertReport(o: Output<string>): Result<Db, SqlError> {
      match Insert(Target().reports, o)
      case Ok(t) => Ok(Write(Target().(reports := t)))
      case Err(e) => Err(e)
    }

    /** CreateInput of the service: found by index and application, updated by index, inserted without a key. */
    function CreateInput(row: InputRow): Db {
      if HasInput(committed.inputs, row.index, row.app)
      then UpdateInput(row.index, row.status, row.exception)
      else Write(Target().(inputs := Target().inputs + [row]))
    }

    /** Create of the input repository: the first row of an index stays. */
    function AddInput(row: InputRow): Db {
      if FindByIndex(committed.inputs, row.index).Some? then this
      else Write(Target().(inputs := Target().inputs + [row]))
    }

    function UpdateInput(index: nat, status: CompletionStatus, exception: string): Db {
      Write(Target().(inputs := SetStatus(Target().inputs, index, status, exception)))
    }

    function CreateFetch(f: Fetch): Db {
      Write(Target().(fetches := Target().fetches + [f]))
    }

    /** Written straight to the database, never to the transaction. */
    function UpdateExecuted(input: nat, output: nat, executed: bool): Db {
      Db(committed.(vouchers := SetExecuted(committed.vouchers, input, output, executed)), tx)
    }
  }

  class Store {
    var committed: Tables
    var tx: Option<Tables>

    function State(): Db reads this { Db(committed, tx) }

    constructor (t: Tables)
      ensures State() == Db(t, None)
    {
      committed, tx := t, None;
    }

    /** Begin fails when the driver does; the tables stay as they were. */
    method StartTransaction(driverOk: bool) returns (ok: bool)
      modifies this
      ensures ok == driverOk
      ensures State() == if ok then old(State()).Begin() else old(State())
    {
      if driverOk { tx := Some(committed); }
      ok := driverOk;
    }

    method Commit(driverOk: bool) returns (ok: bool)
      modifies this
      ensures ok == driverOk
      ensures State() == if ok then old(State()).Commit() else old(State())
    {
      if driverOk {
        if tx.Some? { committed := tx.value; }
        tx := None;
      }
      ok := driverOk;
    }

    method Rollback()
      modifies this
      ensures State() == old(State()).Rollback()
    {
      tx := None;
    }

    function Target(): Tables reads this { if tx.Some? then tx.value else committed }

    /** ExecContext: the statement's effect lands in the transaction, or in the database when there is none. */
    method Exec(t: Tables)
      modifies this
      ensures State() == old(State()).Write(t)
    {
      if tx.Some? { tx := Some(t); } else { committed := t; }
    }

    method CreateVoucher(o: Output<VoucherContent>) returns (err: Option<SqlError>)
      modifies this
      ensures match old(State()).CreateVoucher(o)
              case Ok(db) => err.None? && State() == db
              case Err(e) => err == Some(e) && State() == old(State())
    {
      err := None;
      if FoundRows(committed.vouchers, o.key.input, o.app) != {} {
        Exec(Target().(vouchers := Update(Target().vouchers, o)));
        return;
      }
      match Insert(Target().vouchers, o) {
        case Ok(t) => Exec(Target().(vouchers := t));
        case Err(e) => err := Some(e);
      }
    }

    method CreateNotice(o: Output<string>) returns (err: Option<SqlError>)
      modifies this
      ensures match old(State()).CreateNotice(o)
              case Ok(db) => err.None? && State() == db
              case Err(e) => err == Some(e) && State() == old(State())
    {
      err := None;
      if FoundRows(committed.notices, o.key.input, o.app) != {} {
        Exec(Target().(notices := Update(Target().notices, o)));
        return;
      }
      match Insert(Target().notices, o) {
        case Ok(t) => Exec(Target().(notices := t));
        case Err(e) => err := Some(e);
      }
    }

    method CreateReport(o: Output<string>) returns (err: Option<SqlError>)
      modifies this
      ensures match old(State()).CreateReport(o)
              case Ok(db) => err.None? && State() == db
              case Err(e) => err == Some(e) && State() == old(State())
    {
      err := None;
      if FoundRows(committed.reports, o.key.input, o.app) != {} {
        Exec(Target().(reports := Update(Target().reports, o)));
        return;
      }
      err := InsertReport(o);
    }

    method InsertReport(o: Output<string>) returns (err: Option<SqlError>)
      modifies this
      ensures match old(State()).InsertReport(o)
              case Ok(db) => err.None? && State() == db
              case Err(e) => err == Some(e) && State() == old(State())
    {
      err := None;
      match Insert(Target().reports, o) {
        case Ok(t) => Exec(Target().(reports := t));
        case Err(e) => err := Some(e);
      }
    }

    method CreateInput(row: InputRow)
      modifies this
      ensures State() == old(State()).CreateInput(row)
    {
      if HasInput(committed.inputs, row.index, row.app) {
        UpdateInput(row.index, row.status, row.exception);
      } else {
        Exec(Target().(inputs := Target().inputs + [row]));
      }
    }

    method AddInput(row: InputRow)
      modifies this
      ensures State() == old(State()).AddInput(row)
    {
      if FindByIndex(committed.inputs, row.index).None? {
        Exec(Target().(inputs := Target().inputs + [row]));
      }
    }

    method UpdateInput(index: nat, status: CompletionStatus, exception: string)
      modifies this
      ensures State() == old(State()).UpdateInput(index, status, exception)
    {
      Exec(Target().(inputs := SetStatus(Target().inputs, index, status, exception)));
    }

    method CreateFetch(f: Fetch)
      modifies this
      ensures State() == old(State()).CreateFetch(f)
    {
      Exec(Target().(fetches := Target().fetches + [f]));
    }

    method UpdateExecuted(input: nat, output: nat, executed: bool)
      modifies this
      ensures State() == old(State()).UpdateExecuted(input, output, executed)
    {
      committed := committed.(vouchers := SetExecuted(committed.vouchers, input, output, executed));
    }
  }

  // ---------- Transactions ----------

  /** What is written to a transaction shows once it is committed, as if it had been written without one, and not at all
      when it is rolled back. Without a transaction there is nothing to commit or to roll back. */
  lemma TransactionsPublish(db: Db, t: Tables)
    requires db.tx.None?
    ensures db.Begin().Write(t).committed == db.committed
    ensures db.Begin().Write(t).Commit() == db.Write(t) && db.Begin().Write(t).Rollback() == db
    ensures db.Commit() == db.Rollback() == db.Begin().Commit() == db.Begin().Rollback() == db
  {
  }

  // ---------- What two of the writes change ----------

  /** An input found by index and application gives its status and exception to every row of its index, and changes
      nothing else; any other becomes the last row. */
  lemma CreateInputWrites(db: Db, row: InputRow)
    ensures var rows, rows' := db.Target().inputs, db.CreateInput(row).Target().inputs;
            if HasInput(db.committed.inputs, row.index, row.app)
            then |rows'| == |rows| && forall i :: 0 <= i < |rows| ==>
                   rows'[i] == if rows[i].index != row.index then rows[i]
                               else InputRow(row.index, rows[i].app, row.status, rows[i].sender, rows[i].payload,
                                             rows[i].block, rows[i].timestamp, row.exception)
            else rows' == rows + [row]
  {
  }

  /** The flag of one voucher is set or cleared, in the committed tables; every other voucher, column and table, and an
      open transaction, stay as they are. */
  lemma ExecutedIsSet(db: Db, input: nat, output: nat, executed: bool)
    ensures var t, db' := db.committed.vouchers, db.UpdateExecuted(input, output, executed);
            var t' := db'.committed.vouchers;
            && db' == Db(db.committed.(vouchers := t'), db.tx)
            && t'.Keys == t.Keys
            && forall k :: k in t ==>
                 && t'[k].app == t[k].app
                 && t'[k].content.destination == t[k].content.destination
                 && t'[k].content.payload == t[k].content.payload
                 && t'[k].content.executed ==
                    if k.input == input && k.output == output then executed else t[k].content.executed
  {
  }
}

/** The listener of OutputExecuted events: one 256-bit number names the voucher. */
module ExecListener {
  import opened Wrappers
  import opened Arithmetic
  import opened Repository
  import opened Database

  const TWO_64: nat := 0x1_0000_0000_0000_0000
  const TWO_128: nat := 0x1_0000_0000_0000_0000_0000_0000_0000_0000

  datatype EventValue = BigInt(n: nat) | Other

  /** The output index is the number shifted right by 128 bits, the input index its low 64 bits, each read
      back as a uint64. */
  function VoucherOf(id: nat): Key { Key(id % TWO_64, (id / TWO_128) % TWO_64) }

  method OnEvent(store: Store, values: seq<EventValue>) returns (ok: bool)
    modifies store
    ensures ok <==> |values| == 1 && values[0].BigInt?
    ensures store.State() ==
            if ok
            then old(store.State()).UpdateExecuted(VoucherOf(values[0].n).input, VoucherOf(values[0].n).output, true)
            else old(store.State())
  {
    if |values| != 1 || !values[0].BigInt? { return false; }
    var voucher := values[0].n / TWO_128;
    var input := values[0].n % TWO_64;
    store.UpdateExecuted(input, voucher % TWO_64, true);
    ok := true;
  }

  /** For indices of 64 bits the event's number marks exactly that voucher as executed, and changes no other
      row and no other column. Neither the 64 bits between the two indices nor those above them matter. */
  lemma EventMarksExactlyItsVoucher(t: Table<VoucherContent>, input: nat, output: nat, middle: nat, high: nat)
    requires input < TWO_64 && output < TWO_64 && middle < TWO_64
    ensures var id := (high * TWO_64 + output) * TWO_128 + middle * TWO_64 + input;
            var t' := SetExecuted(t, VoucherOf(id).input, VoucherOf(id).output, true);
            && VoucherOf(id) == Key(input, output)
            && (forall db: Db :: db.committed.vouchers == t ==>
                  db.UpdateExecuted(VoucherOf(id).input, VoucherOf(id).output, true) ==
                  Db(db.committed.(vouchers := t'), db.tx))
            && t'.Keys == t.Keys
            && (forall k :: k in t && k != Key(input, output) ==> t'[k] == t[k])
            && (Key(input, output) in t ==>
                  t'[Key(input, output)] == Row(t[Key(input, output)].app,
                                                t[Key(input, output)].content.(executed := true)))
  {
    Unpack(input, output, middle, high);
  }

  lemma Unpack(input: nat, output: nat, middle: nat, high: nat)
    requires input < TWO_64 && output < TWO_64 && middle < TWO_64
    ensures VoucherOf((high * TWO_64 + output) * TWO_128 + middle * TWO_64 + input) == Key(input, output)
  {
    var upper := high * TWO_64 + output;
    DivideExactly(TWO_64, upper * TWO_64 + middle, input);
    assert middle * TWO_64 + input < TWO_128;
    DivideExactly(TWO_128, upper, middle * TWO_64 + input);
    DivideExactly(TWO_64, high, output);
  }
}
