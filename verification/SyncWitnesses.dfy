/** Concrete runs of the synchronizer: a feed of two notices of one input and application. */
module SyncWitnesses {
  import opened Wrappers
  import opened Repository
  import opened Database
  import opened Synchronizer
  import opened SyncRuns

  function NoticeEdge(index: nat, app: Address, payload: string): OutputEdge {
    OutputEdge(index, 0, Some(AsNotice(app, payload)))
  }

  /** Both notices belong to input 0 and to the same application. */
  function TwoNotices(app: Address, first: string, second: string): Feeds {
    Feeds([Item("a", NoticeEdge(0, app, first)), Item("b", NoticeEdge(1, app, second))], [], [])
  }

  function OneNotice(e: OutputEdge, cursor: string): Response {
    Response(Page([e], cursor), Page([], ""), Page([], ""))
  }

  const WORKS := Plan(true, 2, true)
  const COMMIT_FAILS := Plan(true, 2, false)

  lemma TwoNoticesAreValid(app: Address, first: string, second: string)
    ensures Valid(TwoNotices(app, first, second))
  {
  }

  /** The server can answer with the first notice, and then with the second. */
  lemma ServesOneByOne(app: Address, first: string, second: string)
    ensures var fs := TwoNotices(app, first, second);
            && Served(fs, NO_CURSORS, OneNotice(NoticeEdge(0, app, first), "a"))
            && Served(fs, Cursors("a", "", ""), OneNotice(NoticeEdge(1, app, second), "b"))
  {
    var fs := TwoNotices(app, first, second);
    assert fs.outputs[0..1] == [fs.outputs[0]] && fs.outputs[1..2] == [fs.outputs[1]];
    assert PageBetween(fs.outputs, 0, 1) == Page([NoticeEdge(0, app, first)], "a");
    assert PageBetween(fs.outputs, 1, 2) == Page([NoticeEdge(1, app, second)], "b");
    assert CursorAt(fs.outputs, 0) == "" && CursorAt(fs.outputs, 1) == "a";
    assert PageBetween(fs.inputs, 0, 0) == Page([], "") && PageBetween(fs.reports, 0, 0) == Page([], "");
    assert CursorAt(fs.inputs, 0) == "" && CursorAt(fs.reports, 0) == "";
    assert Serves(fs.inputs, "", Page([], "")) && Serves(fs.reports, "", Page([], ""));
    assert Serves(fs.outputs, "", Page([NoticeEdge(0, app, first)], "a"));
    assert Serves(fs.outputs, "a", Page([NoticeEdge(1, app, second)], "b"));
  }

  /** A transaction with one notice. */
  lemma HandlesOneNotice(t: Tables, mem: Cursors, index: nat, app: Address, payload: string, cursor: string,
                         notices: Table<string>)
    requires cursor != ""
    requires Upsert(t.notices, t.notices, Output(Key(0, index), app, payload)) == Ok(notices)
    ensures var h := HandleResponse(Db(t, None).Begin(), mem, OneNotice(NoticeEdge(index, app, payload), cursor), 2);
            && h.ok
            && h.db == Db(t, Some(t.(notices := notices,
                                     fetches := t.fetches + [Fetch(mem, mem.(outputs := cursor), [Key(0, index)])])))
  {
    var e, db := NoticeEdge(index, app, payload), Db(t, None).Begin();
    var h := HandleOutput(db, e, 2);
    assert h == Handled(Db(t, Some(t.(notices := notices))), 1, true);
    assert [e][1..] == [] && HandleOutputs(db, [e], 2) == h;
    assert Ids([e]) == [Key(0, index)];
  }

  lemma TwoSteps(fs: Feeds, s: Sync, a: Action, b: Action)
    requires !a.Grow? && !b.Grow?
    ensures Final(s, [a, b]) == Next(Next(s, a), b)
    ensures Run(fs, s, [a, b]) <==> Possible(fs, s, a) && Possible(fs, Next(s, a), b)
    ensures NeverSkips(s, [a, b]) <==> !Skips(s, a) && !Skips(Next(s, a), b)
    ensures FinalFeeds(fs, [a, b]) == fs
  {
    assert [a, b][1..] == [b] && [b][1..] == [];
    assert Final(Next(s, a), [b]) == Next(Next(s, a), b);
    assert FinalFeeds(fs, [b]) == FinalFeeds(fs, []) && FinalFeeds(fs, [a, b]) == FinalFeeds(fs, [b]);
    assert Run(fs, Next(s, a), [b]) <==> Possible(fs, Next(s, a), b);
    assert NeverSkips(Next(s, a), [b]) <==> !Skips(Next(s, a), b);
  }

  /** Two transactions without any fault: the second notice is dropped, although its edge was handled. */
  lemma SplitPairIsDropped(app: Address, first: string, second: string)
    ensures var fs := TwoNotices(app, first, second);
            var acts := [Deliver(OneNotice(NoticeEdge(0, app, first), "a"), WORKS),
                         Deliver(OneNotice(NoticeEdge(1, app, second), "b"), WORKS)];
            var s := Final(FIRST_START, acts);
            && Valid(fs) && Run(fs, FIRST_START, acts) && NeverSkips(FIRST_START, acts)
            && s.mem == CursorsAt(fs, Cut(2, 0, 0))
            && s.db.committed.notices == map[Key(0, 0) := Row(app, first)]
  {
    var fs := TwoNotices(app, first, second);
    var a := Deliver(OneNotice(NoticeEdge(0, app, first), "a"), WORKS);
    var b := Deliver(OneNotice(NoticeEdge(1, app, second), "b"), WORKS);
    var one: Table<string> := map[Key(0, 0) := Row(app, first)];
    TwoNoticesAreValid(app, first, second);
    ServesOneByOne(app, first, second);
    HandlesOneNotice(EMPTY, NO_CURSORS, 0, app, first, "a", one);
    var s1 := Next(FIRST_START, a);
    assert s1.mem == Cursors("a", "", "") && s1.db.committed.notices == one && s1.db.tx.None?;
    assert one[Key(0, 0)].app == app && Owned(one, 0, app);
    HandlesOneNotice(s1.db.committed, s1.mem, 1, app, second, "b", one);
    TwoSteps(fs, FIRST_START, a, b);
  }

  /** The first commit fails, the second transaction works: the first notice is in no table, and the tables are no
      replay of the feed. */
  lemma FailedCommitLosesBatch(app: Address, first: string, second: string)
    ensures var fs := TwoNotices(app, first, second);
            var acts := [Deliver(OneNotice(NoticeEdge(0, app, first), "a"), COMMIT_FAILS),
                         Deliver(OneNotice(NoticeEdge(1, app, second), "b"), WORKS)];
            var s := Final(FIRST_START, acts);
            && Valid(fs) && Run(fs, FIRST_START, acts)
            && s.db.committed.notices == map[Key(0, 1) := Row(app, second)]
            && !TablesSynced(fs, s.db)
  {
    var fs := TwoNotices(app, first, second);
    var a := Deliver(OneNotice(NoticeEdge(0, app, first), "a"), COMMIT_FAILS);
    var b := Deliver(OneNotice(NoticeEdge(1, app, second), "b"), WORKS);
    TwoNoticesAreValid(app, first, second);
    ServesOneByOne(app, first, second);
    HandlesOneNotice(EMPTY, NO_CURSORS, 0, app, first, "a", map[Key(0, 0) := Row(app, first)]);
    var s1 := Next(FIRST_START, a);
    assert s1 == Sync(Cursors("a", "", ""), Db(EMPTY, None));
    HandlesOneNotice(EMPTY, s1.mem, 1, app, second, "b", map[Key(0, 1) := Row(app, second)]);
    assert Skips(s1, b);
    TwoSteps(fs, FIRST_START, a, b);
    ExactlyOnce(fs, [a, b]);
  }

  /** The first commit fails, and the process restarts: nothing is lost, and the batch is fetched again. */
  lemma RestartSavesBatch(app: Address, first: string, second: string)
    ensures var fs := TwoNotices(app, first, second);
            var acts := [Deliver(OneNotice(NoticeEdge(0, app, first), "a"), COMMIT_FAILS), Crash];
            && Valid(fs) && Run(fs, FIRST_START, acts) && !CommitsHold(FIRST_START, acts)
            && Final(FIRST_START, acts) == FIRST_START
            && NeverSkips(FIRST_START, acts)
  {
    var fs := TwoNotices(app, first, second);
    var a := Deliver(OneNotice(NoticeEdge(0, app, first), "a"), COMMIT_FAILS);
    TwoNoticesAreValid(app, first, second);
    ServesOneByOne(app, first, second);
    HandlesOneNotice(EMPTY, NO_CURSORS, 0, app, first, "a", map[Key(0, 0) := Row(app, first)]);
    TwoSteps(fs, FIRST_START, a, Crash);
  }
}
