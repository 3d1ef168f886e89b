/** The output tables (vouchers, notices, reports) and the find-then-update-or-insert that writes them.

    The three tables have one shape: primary key (input_index, output_index), an app_contract column,
    and a content that the UPDATE statement overwrites. An UPDATE never writes app_contract. */
module Repository {
  import opened Wrappers

  type Address = string

  datatype Key = Key(input: nat, output: nat)

  datatype Row<C> = Row(app: Address, content: C)

  type Table<C> = map<Key, Row<C>>

  datatype Output<C> = Output(key: Key, app: Address, content: C) {
    function ToRow(): Row<C> { Row(app, content) }
  }

  datatype SqlError = PrimaryKeyConflict(key: Key) | IoError

  /** The find by application contract and input index returns a row. */
  ghost predicate Owned<C>(t: Table<C>, input: nat, app: Address) {
    exists k :: k in t && k.input == input && t[k].app == app
  }

  /** The rows that the find query matches, as a set the program can inspect. */
  function FoundRows<C>(t: Table<C>, input: nat, app: Address): (rows: set<Key>)
    ensures rows != {} <==> Owned(t, input, app)
  {
    var rows := set k | k in t && k.input == input && t[k].app == app;
    assert forall k :: k in t && k.input == input && t[k].app == app ==> k in rows;
    rows
  }

  function Insert<C>(t: Table<C>, o: Output<C>): Result<Table<C>, SqlError> {
    if o.key in t then Err(PrimaryKeyConflict(o.key)) else Ok(t[o.key := o.ToRow()])
  }

  function Update<C>(t: Table<C>, o: Output<C>): Table<C> {
    if o.key in t then t[o.key := Row(t[o.key].app, o.content)] else t
  }

  /** CreateVoucher, CreateNotice and CreateReport of the service: the lookup reads the committed table,
      the write goes to the current one (the open transaction, or the committed table itself). */
  function Upsert<C>(committed: Table<C>, current: Table<C>, o: Output<C>): Result<Table<C>, SqlError> {
    if FoundRows(committed, o.key.input, o.app) != {} then Ok(Update(current, o)) else Insert(current, o)
  }

  // ---------- Calls outside a transaction ----------

  /** A sequence of calls, each seeing the effect of the previous ones. A failed call changes nothing. */
  function RunCalls<C>(t: Table<C>, os: seq<Output<C>>): Table<C>
    decreases |os|
  {
    if os == [] then t
    else
      match Upsert(t, t, os[0])
      case Ok(t') => RunCalls(t', os[1..])
      case Err(_) => RunCalls(t, os[1..])
  }

  /** No application owns two outputs of one input. */
  ghost predicate OneRowPerApp<C>(t: Table<C>) {
    forall k, l :: k in t && l in t && k.input == l.input && t[k].app == t[l].app ==> k == l
  }

  /** A call acts as a map update by (input, output) exactly when the key is already owned by the same
      application, or is free and the application owns no other output of that input. */
  lemma UpsertIsMapUpdateIff<C>(t: Table<C>, o: Output<C>)
    ensures Upsert(t, t, o) == Ok(t[o.key := o.ToRow()]) <==>
            if o.key in t then t[o.key].app == o.app else !Owned(t, o.key.input, o.app)
  {
    if o.key in t {
      assert t[o.key := o.ToRow()][o.key].app == o.app;
    } else {
      assert o.key in t[o.key := o.ToRow()];
    }
  }

  /** Every call of the sequence succeeds and acts as a map update by (input, output). */
  ghost predicate ActsAsMap<C>(t: Table<C>, os: seq<Output<C>>)
    decreases |os|
  {
    os == [] ||
    (Upsert(t, t, os[0]) == Ok(t[os[0].key := os[0].ToRow()]) && ActsAsMap(t[os[0].key := os[0].ToRow()], os[1..]))
  }

  /** Within one input, applications and output indices determine each other. */
  ghost predicate Consistent<C>(os: seq<Output<C>>) {
    forall i, j :: 0 <= i < j < |os| ==> FitTogether(os[i], os[j])
  }

  /** The outputs agree with the table: a key that is in it is owned by the output's application, and an application
      whose key is not in it owns nothing of that input. Among the outputs whose keys are not in it, applications and
      output indices determine each other within an input. */
  ghost predicate Fits<C>(t: Table<C>, os: seq<Output<C>>) {
    && (forall j :: 0 <= j < |os| ==> FitsOne(t, os[j]))
    && (forall i, j :: 0 <= i < j < |os| && os[i].key !in t && os[j].key !in t ==> FitTogether(os[i], os[j]))
  }

  ghost predicate FitsOne<C>(t: Table<C>, o: Output<C>) {
    if o.key in t then t[o.key].app == o.app else !Owned(t, o.key.input, o.app)
  }

  predicate FitTogether<C>(a: Output<C>, b: Output<C>) {
    a.key.input == b.key.input ==> (a.key == b.key <==> a.app == b.app)
  }

  /** What a map update changes for another output. */
  lemma FitsOneAfter<C>(t: Table<C>, o: Output<C>, x: Output<C>)
    requires FitsOne(t, o)
    ensures var t' := t[o.key := o.ToRow()];
            && (o.key in t ==> (FitsOne(t', x) <==> FitsOne(t, x)))
            && (o.key !in t ==> (FitsOne(t', x) <==> FitsOne(t, x) && (x.key in t || FitTogether(o, x))))
  {
    var t' := t[o.key := o.ToRow()];
    assert o.key in t';
    if Owned(t, x.key.input, x.app) {
      var k :| k in t && k.input == x.key.input && t[k].app == x.app;
      assert k in t' && t'[k].app == x.app;
    }
    if Owned(t', x.key.input, x.app) {
      var k :| k in t' && k.input == x.key.input && t'[k].app == x.app;
      assert k == o.key || (k in t && t[k] == t'[k]);
    }
  }

  lemma FitsHeadAndTail<C>(t: Table<C>, os: seq<Output<C>>)
    requires os != []
    ensures Fits(t, os) <==>
            && FitsOne(t, os[0]) && Fits(t, os[1..])
            && (os[0].key in t ||
                forall j :: 0 <= j < |os[1..]| ==> os[1..][j].key in t || FitTogether(os[0], os[1..][j]))
  {
    var rest := os[1..];
    assert forall j :: 0 <= j < |rest| ==> rest[j] == os[j + 1];
    assert forall j :: 0 < j < |os| ==> os[j] == rest[j - 1];
    if Fits(t, rest) && FitsOne(t, os[0]) &&
       (os[0].key in t || forall j :: 0 <= j < |rest| ==> rest[j].key in t || FitTogether(os[0], rest[j])) {
      forall i, j | 0 <= i < j < |os| && os[i].key !in t && os[j].key !in t ensures FitTogether(os[i], os[j]) {
        assert os[j] == rest[j - 1];
        if i > 0 { assert os[i] == rest[i - 1]; }
      }
    }
  }

  lemma FitsAfter<C>(t: Table<C>, o: Output<C>, rest: seq<Output<C>>)
    requires FitsOne(t, o)
    ensures Fits(t[o.key := o.ToRow()], rest) <==>
            && Fits(t, rest)
            && (o.key in t || forall j :: 0 <= j < |rest| ==> rest[j].key in t || FitTogether(o, rest[j]))
  {
    var t' := t[o.key := o.ToRow()];
    forall j | 0 <= j < |rest|
      ensures o.key in t ==> (FitsOne(t', rest[j]) <==> FitsOne(t, rest[j]))
      ensures o.key !in t ==>
                (FitsOne(t', rest[j]) <==> FitsOne(t, rest[j]) && (rest[j].key in t || FitTogether(o, rest[j])))
    {
      FitsOneAfter(t, o, rest[j]);
    }
    if Fits(t', rest) {
      forall i, j | 0 <= i < j < |rest| && rest[i].key !in t && rest[j].key !in t
        ensures FitTogether(rest[i], rest[j])
      {
        assert FitsOne(t', rest[i]) && FitsOne(t', rest[j]);
      }
    }
  }

  /** From any table, a sequence of calls acts as map updates if and only if the outputs fit the table. */
  lemma {:induction false} ActsAsMapFrom<C>(t: Table<C>, os: seq<Output<C>>)
    ensures ActsAsMap(t, os) <==> Fits(t, os)
    decreases |os|
  {
    if os != [] {
      UpsertIsMapUpdateIff(t, os[0]);
      FitsHeadAndTail(t, os);
      if FitsOne(t, os[0]) {
        FitsAfter(t, os[0], os[1..]);
        ActsAsMapFrom(t[os[0].key := os[0].ToRow()], os[1..]);
      }
    }
  }

  /** The service refines a map keyed by (input, output) through a whole run from the empty table
      if and only if applications and output indices determine each other within every input. */
  lemma ServiceIsMapIff<C>(os: seq<Output<C>>)
    ensures ActsAsMap(map[], os) <==> Consistent(os)
  {
    ActsAsMapFrom(map[], os);
    assert Fits(map[], os) <==> Consistent(os);
  }

  lemma {:induction false} RunKeepsOwners<C>(t: Table<C>, os: seq<Output<C>>)
    requires OneRowPerApp(t)
    ensures OneRowPerApp(RunCalls(t, os))
    ensures forall k :: k in t ==> k in RunCalls(t, os) && RunCalls(t, os)[k].app == t[k].app
    ensures forall o :: o in os ==>
              Owned(RunCalls(t, os), o.key.input, o.app) ||
              (o.key in RunCalls(t, os) && RunCalls(t, os)[o.key].app != o.app)
    decreases |os|
  {
    if os != [] {
      var o := os[0];
      var t' := match Upsert(t, t, o) case Ok(t') => t' case Err(_) => t;
      forall k | k in t ensures k in t' && t'[k].app == t[k].app {}
      assert Owned(t', o.key.input, o.app) || (o.key in t' && t'[o.key].app != o.app) by {
        if Owned(t, o.key.input, o.app) {
          var k :| k in t && k.input == o.key.input && t[k].app == o.app;
          assert k in t' && t'[k].app == o.app;
        }
      }
      RunKeepsOwners(t', os[1..]);
      if Owned(t', o.key.input, o.app) {
        var k :| k in t' && k.input == o.key.input && t'[k].app == o.app;
        assert k in RunCalls(t', os[1..]);
      }
      assert forall x :: x in os ==> x == o || x in os[1..];
    }
  }

  /** A call fails if and only if its key is taken and its application owns no output of the input. On a key that
      another application owns it otherwise overwrites that application's content, without an error and without taking
      over the row. */
  lemma CallFailsIff<C>(t: Table<C>, o: Output<C>)
    ensures Upsert(t, t, o).Err? <==> o.key in t && !Owned(t, o.key.input, o.app)
    ensures o.key in t && t[o.key].app != o.app ==>
              (Upsert(t, t, o) == Ok(t[o.key := Row(t[o.key].app, o.content)]) <==> Owned(t, o.key.input, o.app))
  {
    if o.key in t { assert o.key in t[o.key := Row(t[o.key].app, o.content)]; }
  }

  function After<C>(t: Table<C>, o: Output<C>): Table<C> {
    match Upsert(t, t, o)
    case Ok(t') => t'
    case Err(_) => t
  }

  /** The content of the last call of a run that did not fail and found, or made, a row under its key. */
  function LastWrite<C>(t: Table<C>, os: seq<Output<C>>, k: Key): Option<C>
    decreases |os|
  {
    if os == [] then None
    else
      var o, later := os[0], LastWrite(After(t, os[0]), os[1..], k);
      if later.Some? then later
      else if o.key == k && Upsert(t, t, o).Ok? && k in After(t, o) then Some(o.content)
      else None
  }

  /** What a run leaves under a key: a row if and only if there was one or a call wrote one, with the content of the
      last call that wrote it, whichever application made that call. */
  lemma {:induction false} RunKeepsLastContent<C>(t: Table<C>, os: seq<Output<C>>, k: Key)
    ensures k in RunCalls(t, os) <==> k in t || LastWrite(t, os, k).Some?
    ensures LastWrite(t, os, k).Some? ==> RunCalls(t, os)[k].content == LastWrite(t, os, k).value
    ensures LastWrite(t, os, k).None? && k in t ==> RunCalls(t, os)[k].content == t[k].content
    decreases |os|
  {
    if os != [] { RunKeepsLastContent(After(t, os[0]), os[1..], k); }
  }

  /** What every run does, from any table in which no application owns two outputs of an input: that stays so; rows
      never disappear nor change owner; each call ends with its application owning an output of the input, or with its
      key owned by another application; a row's content is that of the last call that wrote its key; and a call fails
      if and only if, at its time, its key is taken and its application owns no output of the input. */
  lemma RunKeepsFirst<C>(t: Table<C>, os: seq<Output<C>>)
    requires OneRowPerApp(t)
    ensures OneRowPerApp(RunCalls(t, os))
    ensures forall k :: k in t ==> k in RunCalls(t, os) && RunCalls(t, os)[k].app == t[k].app
    ensures forall o :: o in os ==>
              Owned(RunCalls(t, os), o.key.input, o.app) ||
              (o.key in RunCalls(t, os) && RunCalls(t, os)[o.key].app != o.app)
    ensures forall k :: k in RunCalls(t, os) <==> k in t || LastWrite(t, os, k).Some?
    ensures forall k :: k in RunCalls(t, os) ==>
              var w := LastWrite(t, os, k);
              (w.Some? ==> RunCalls(t, os)[k].content == w.value) &&
              (w.None? ==> RunCalls(t, os)[k].content == t[k].content)
    ensures forall i :: 0 <= i < |os| ==>
              var now, o := RunCalls(t, os[..i]), os[i];
              Upsert(now, now, o).Err? <==> o.key in now && !Owned(now, o.key.input, o.app)
  {
    RunKeepsOwners(t, os);
    forall k: Key
      ensures k in RunCalls(t, os) <==> k in t || LastWrite(t, os, k).Some?
      ensures LastWrite(t, os, k).Some? ==> RunCalls(t, os)[k].content == LastWrite(t, os, k).value
      ensures LastWrite(t, os, k).None? && k in t ==> RunCalls(t, os)[k].content == t[k].content
    {
      RunKeepsLastContent(t, os, k);
    }
    forall i | 0 <= i < |os|
      ensures var now, o := RunCalls(t, os[..i]), os[i];
              Upsert(now, now, o).Err? <==> o.key in now && !Owned(now, o.key.input, o.app)
    {
      CallFailsIff(RunCalls(t, os[..i]), os[i]);
    }
  }

  /** Three calls without an error: the last one, of the second application, overwrites the row of the first. */
  lemma ForeignRowIsOverwritten<C>(input: nat, app: Address, other: Address, a: C, b: C, c: C)
    requires app != other
    ensures var first, second := Output(Key(input, 0), app, a), Output(Key(input, 1), other, b);
            var third := Output(Key(input, 0), other, c);
            var two := RunCalls(map[], [first, second]);
            && two == map[Key(input, 0) := Row(app, a), Key(input, 1) := Row(other, b)]
            && Upsert(two, two, third) == Ok(map[Key(input, 0) := Row(app, c), Key(input, 1) := Row(other, b)])
  {
    var first, second := Output(Key(input, 0), app, a), Output(Key(input, 1), other, b);
    var one: Table<C> := map[Key(input, 0) := Row(app, a)];
    var two := one[Key(input, 1) := Row(other, b)];
    assert Upsert<C>(map[], map[], first) == Ok(one) && Upsert(one, one, second) == Ok(two);
    assert [first, second][1..] == [second] && [second][1..] == [];
    assert RunCalls(one, [second]) == RunCalls(two, []);
    assert two[Key(input, 1)].app == other && Owned(two, input, other);
    assert two[Key(input, 0) := Row(app, c)] == map[Key(input, 0) := Row(app, c), Key(input, 1) := Row(other, b)];
  }

  // ---------- Calls inside one transaction ----------

  /** A batch in one transaction: lookups keep reading the committed table. The first error ends it. */
  function UpsertAll<C>(committed: Table<C>, current: Table<C>, os: seq<Output<C>>): Result<Table<C>, SqlError>
    decreases |os|
  {
    if os == [] then Ok(current)
    else
      match Upsert(committed, current, os[0])
      case Ok(t) => UpsertAll(committed, t, os[1..])
      case Err(e) => Err(e)
  }

  ghost predicate Fresh<C>(committed: Table<C>, o: Output<C>) {
    !Owned(committed, o.key.input, o.app)
  }

  /** The outputs that the batch inserts have free, pairwise different keys. */
  ghost predicate InsertsDisjoint<C>(committed: Table<C>, current: Table<C>, os: seq<Output<C>>) {
    && (forall j :: 0 <= j < |os| && Fresh(committed, os[j]) ==> os[j].key !in current)
    && (forall i, j :: 0 <= i < j < |os| && Fresh(committed, os[i]) && Fresh(committed, os[j]) ==>
        os[i].key != os[j].key)
  }

  /** A batch succeeds if and only if the outputs it has to insert have free, different keys. */
  lemma {:induction false} BatchSucceedsIff<C>(committed: Table<C>, current: Table<C>, os: seq<Output<C>>)
    ensures UpsertAll(committed, current, os).Ok? <==> InsertsDisjoint(committed, current, os)
    decreases |os|
  {
    if os != [] {
      var o, rest := os[0], os[1..];
      assert forall j :: 0 <= j < |rest| ==> rest[j] == os[j + 1];
      match Upsert(committed, current, o) {
        case Err(_) =>
        case Ok(t) =>
          BatchSucceedsIff(committed, t, rest);
          if InsertsDisjoint(committed, t, rest) {
            forall i, j | 0 <= i < j < |os| && Fresh(committed, os[i]) && Fresh(committed, os[j])
              ensures os[i].key != os[j].key
            {
              assert os[j] == rest[j - 1];
              if i > 0 { assert os[i] == rest[i - 1]; }
            }
            forall j | 0 <= j < |os| && Fresh(committed, os[j])
              ensures os[j].key !in current
            {
              if j > 0 { assert os[j] == rest[j - 1]; }
            }
          }
      }
    }
  }

  /** The outputs of a sequence as a table; a later one replaces an earlier one with the same key. */
  function TableOf<C>(os: seq<Output<C>>): (t: Table<C>)
    ensures forall k :: k in t <==> exists j :: 0 <= j < |os| && os[j].key == k
    decreases |os|
  {
    if os == [] then map[]
    else
      var last := os[|os| - 1];
      var t := TableOf(os[..|os| - 1])[last.key := last.ToRow()];
      assert forall j :: 0 <= j < |os| - 1 ==> os[..|os| - 1][j] == os[j];
      t
  }

  ghost predicate DistinctKeys<C>(os: seq<Output<C>>) {
    forall i, j :: 0 <= i < j < |os| ==> os[i].key != os[j].key
  }

  predicate SamePair<C>(a: Output<C>, b: Output<C>) { a.key.input == b.key.input && a.app == b.app }

  /** No (input, application) pair occurs on both sides. */
  ghost predicate Apart<C(!new)>(a: seq<Output<C>>, b: seq<Output<C>>) {
    forall x, y :: x in a && y in b ==> !SamePair(x, y)
  }

  lemma {:induction false} TableOfAt<C>(os: seq<Output<C>>, j: nat)
    requires j < |os| && DistinctKeys(os)
    ensures os[j].key in TableOf(os) && TableOf(os)[os[j].key] == os[j].ToRow()
    decreases |os|
  {
    var init := os[..|os| - 1];
    if j < |os| - 1 {
      assert init[j] == os[j];
      TableOfAt(init, j);
    }
  }

  /** A batch none of whose (input, application) pairs is committed, with free and different keys, stores
      every one of its outputs, several outputs of one input and application included. */
  lemma {:induction false} BatchStoresAll<C>(committed: Table<C>, done: seq<Output<C>>, os: seq<Output<C>>)
    requires forall j :: 0 <= j < |os| ==> Fresh(committed, os[j])
    requires DistinctKeys(done + os)
    ensures UpsertAll(committed, TableOf(done), os) == Ok(TableOf(done + os))
    decreases |os|
  {
    if os == [] {
      assert done + os == done;
    } else {
      var o, rest := os[0], os[1..];
      assert done + os == (done + [o]) + rest;
      assert (done + [o])[..|done + [o]| - 1] == done;
      assert o.key !in TableOf(done) by {
        assert (done + os)[|done|] == o;
        assert forall j :: 0 <= j < |done| ==> (done + os)[j] == done[j];
      }
      assert forall j :: 0 <= j < |rest| ==> rest[j] == os[j + 1];
      BatchStoresAll(committed, done + [o], rest);
    }
  }

  /** What is found in a table of outputs: a pair is owned if and only if one of them has it. */
  lemma OwnedIffAsked<C(!new)>(os: seq<Output<C>>, o: Output<C>)
    requires DistinctKeys(os)
    ensures Owned(TableOf(os), o.key.input, o.app) <==> exists x :: x in os && SamePair(x, o)
  {
    var t := TableOf(os);
    if Owned(t, o.key.input, o.app) {
      var k :| k in t && k.input == o.key.input && t[k].app == o.app;
      var j :| 0 <= j < |os| && os[j].key == k;
      TableOfAt(os, j);
      assert os[j] in os && SamePair(os[j], o);
    }
    if x :| x in os && SamePair(x, o) {
      var j :| 0 <= j < |os| && os[j] == x;
      TableOfAt(os, j);
    }
  }

  /** When no key repeats and no (input, application) pair of what arrives is among what was stored, a transaction adds
      exactly what arrives, several outputs of one pair included. */
  lemma NextBatchStoresAll<C(!new)>(done: seq<Output<C>>, os: seq<Output<C>>)
    requires DistinctKeys(done + os) && Apart(done, os)
    ensures UpsertAll(TableOf(done), TableOf(done), os) == Ok(TableOf(done + os))
  {
    assert DistinctKeys(done) by { assert forall i :: 0 <= i < |done| ==> (done + os)[i] == done[i]; }
    forall j | 0 <= j < |os| ensures Fresh(TableOf(done), os[j]) {
      OwnedIffAsked(done, os[j]);
    }
    BatchStoresAll(TableOf(done), done, os);
  }

  lemma OneTransactionStoresBoth<C>(first: Output<C>, second: Output<C>)
    requires first.key != second.key
    ensures UpsertAll(map[], map[], [first, second]) == Ok(TableOf([first, second]))
  {
    var os: seq<Output<C>> := [first, second];
    var none: Table<C> := map[];
    var one, two := none[first.key := first.ToRow()], TableOf(os);
    assert os[..1] == [first] && [first][..0] == [];
    assert TableOf([first]) == one by { assert TableOf<C>([]) == none; }
    assert two == TableOf(os[..1])[second.key := second.ToRow()];
    assert os[1..] == [second] && [second][1..] == [];
    assert Upsert(none, none, first) == Ok(one) && Upsert(none, one, second) == Ok(two);
    assert UpsertAll(none, none, os) == UpsertAll(none, one, os[1..]);
  }

  lemma TwoTransactionsDropTheSecond<C>(first: Output<C>, second: Output<C>)
    requires first.key.input == second.key.input && first.app == second.app && first.key != second.key
    ensures UpsertAll(TableOf([first]), TableOf([first]), [second]) == Ok(TableOf([first]))
  {
    var t := TableOf([first]);
    assert [first][..0] == [];
    assert first.key in t && t[first.key].app == first.app;
    assert Owned(t, second.key.input, second.app) && second.key !in t;
    assert [second][1..] == [];
    assert UpsertAll(t, t, [second]) == UpsertAll(t, t, []);
  }

  /** Two outputs of one input and application: one transaction stores both, two transactions keep the first
      and drop the second without an error. */
  lemma BatchingDecidesWhatIsStored<C>(input: nat, app: Address, a: C, b: C)
    ensures var first, second := Output(Key(input, 0), app, a), Output(Key(input, 1), app, b);
            && UpsertAll(map[], map[], [first, second]) == Ok(TableOf([first, second]))
            && UpsertAll(TableOf([first]), TableOf([first]), [second]) == Ok(TableOf([first]))
            && TableOf([first]) != TableOf([first, second])
  {
    var first, second := Output(Key(input, 0), app, a), Output(Key(input, 1), app, b);
    OneTransactionStoresBoth(first, second);
    TwoTransactionsDropTheSecond(first, second);
    assert [first, second][1] == second && second.key in TableOf([first, second]);
    assert second.key !in TableOf([first]);
  }
}
