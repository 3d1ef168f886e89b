/** The worker that copies the inputs of a chain into the input table: scans of past events, live events, failures and
    reconnections. */
module Inputter {
  import opened Wrappers
  import opened Repository
  import opened Database

  const MAX_U64: int := 0xFFFF_FFFF_FFFF_FFFF

  type U64 = x: int | 0 <= x <= MAX_U64

  datatype Event = Event(index: nat, block: U64, sender: Address, payload: string, timestamp: int)

  function RowOf(e: Event): InputRow {
    InputRow(e.index, ZERO_ADDRESS, Unprocessed, e.sender, e.payload, e.block, e.timestamp, "")
  }

  /** The block before, in unsigned arithmetic. */
  function BlockBefore(block: U64): U64 { if block == 0 then MAX_U64 else block - 1 }

  /** AddAdvanceInput: nothing happens when a row with the index exists. */
  function Add(rows: seq<InputRow>, e: Event): seq<InputRow> {
    if FindByIndex(rows, e.index).Some? then rows else rows + [RowOf(e)]
  }

  function AddAll(rows: seq<InputRow>, es: seq<Event>): seq<InputRow>
    decreases |es|
  {
    if es == [] then rows else AddAll(Add(rows, es[0]), es[1..])
  }

  /** The events that a scan from a block on returns, in chain order. */
  function Past(chain: seq<Event>, start: U64): (r: seq<Event>)
    ensures forall e :: e in r <==> e in chain && e.block >= start
  {
    if chain == [] then []
    else if chain[0].block >= start then [chain[0]] + Past(chain[1..], start)
    else Past(chain[1..], start)
  }

  /** A scan returns the events of its blocks in the order of the chain, each as often as it is there. */
  lemma {:induction false} PastJoins(a: seq<Event>, b: seq<Event>, start: U64)
    ensures Past(a + b, start) == Past(a, start) + Past(b, start)
    decreases |a|
  {
    if a == [] {
      assert a + b == b;
    } else {
      assert (a + b)[0] == a[0] && (a + b)[1..] == a[1..] + b;
      PastJoins(a[1..], b, start);
    }
  }

  lemma {:induction false} PastCounts(chain: seq<Event>, start: U64, e: Event)
    ensures multiset(Past(chain, start))[e] == if e.block >= start then multiset(chain)[e] else 0
    decreases |chain|
  {
    if chain != [] {
      assert chain == [chain[0]] + chain[1..];
      PastCounts(chain[1..], start, e);
    }
  }

  /** The events before the one that cannot be added. */
  function Reached(past: seq<Event>, failing: Option<nat>): (r: seq<Event>)
    ensures r <= past
    ensures |r| == if failing.Some? && failing.value < |past| then failing.value else |past|
  {
    if failing.Some? && failing.value < |past| then past[..failing.value] else past
  }

  class InputterWorker {
    const store: Store
    var inputBoxBlock: U64
    var currentBlock: U64

    constructor (store: Store, inputBoxBlock: U64)
      ensures this.store == store && this.inputBoxBlock == inputBoxBlock && currentBlock == inputBoxBlock
    {
      this.store := store;
      this.inputBoxBlock := inputBoxBlock;
      this.currentBlock := inputBoxBlock;
    }

    /** The scan from the current block. `failing` is the position of the event that cannot be added, if any. The field
        inputBoxBlock moves with the events; the block from which the next scan starts does not. */
    method ReadPastInputs(chain: seq<Event>, failing: Option<nat>) returns (ok: bool)
      requires store.tx.None?
      modifies this, store
      ensures var past := Past(chain, old(currentBlock));
              && ok == (failing.None? || failing.value >= |past|)
              && store.tx.None?
              && store.committed ==
                 old(store.committed).(inputs := AddAll(old(store.committed.inputs), if ok then past
                                                        else past[..failing.value]))
      ensures currentBlock == old(currentBlock)
    {
      var past := Past(chain, currentBlock);
      ghost var reached := Reached(past, failing);
      for i := 0 to |past|
        invariant store.tx.None? && currentBlock == old(currentBlock)
        invariant i <= |reached|
        invariant store.committed == old(store.committed).(inputs := store.committed.inputs)
        invariant AddAll(store.committed.inputs, reached[i..]) == AddAll(old(store.committed.inputs), reached)
      {
        inputBoxBlock := BlockBefore(past[i].block);
        if failing == Some(i) {
          assert reached[i..] == [];
          return false;
        }
        assert reached[i] == past[i] && reached[i..][1..] == reached[i + 1..];
        store.AddInput(RowOf(past[i]));
      }
      ok := true;
    }

    /** A live event: the block before it becomes the start of the next scan, whether the input can be added or not. */
    method ReceiveEvent(e: Event, addable: bool) returns (ok: bool)
      requires store.tx.None?
      modifies this, store
      ensures ok == addable && currentBlock == BlockBefore(e.block) && store.tx.None?
      ensures store.committed ==
              old(store.committed).(inputs := if addable then Add(old(store.committed.inputs), e)
                                              else old(store.committed.inputs))
    {
      currentBlock := BlockBefore(e.block);
      if addable { store.AddInput(RowOf(e)); }
      ok := addable;
    }
  }

  // ---------- Runs ----------

  datatype Phase = Scanning | Subscribing | Watching | Reconnecting | Stopped

  datatype Worker = Worker(chain: seq<Event>, rows: seq<InputRow>, current: U64, phase: Phase)

  datatype Step =
    | Mine(e: Event)
    | Scan(available: bool, failing: Option<nat>)
    | Subscribe(ok: bool)
    | Live(e: Event, addable: bool)
    | ConnectionLost
    | Reconnect
    | Stop
    | Process(index: nat, status: CompletionStatus, exception: string)   // by the rollup machine, at any time

  predicate Enabled(w: Worker, step: Step) {
    match step
    case Mine(e) => true
    case Process(_, _, _) => true
    case Scan(_, _) => w.phase == Scanning
    case Subscribe(_) => w.phase == Subscribing
    case Live(e, _) => w.phase == Watching && e in w.chain
    case ConnectionLost => w.phase == Watching
    case Reconnect => w.phase == Reconnecting
    case Stop => w.phase == Watching || w.phase == Reconnecting
  }

  /** The events that a step hands to the model. */
  function Handed(w: Worker, step: Step): seq<Event> {
    match step
    case Scan(available, failing) => if available then Reached(Past(w.chain, w.current), failing) else []
    case Live(e, addable) => if addable then [e] else []
    case _ => []
  }

  predicate ScanCompletes(w: Worker, step: Step) {
    step.Scan? && step.available && (step.failing.None? || step.failing.value >= |Past(w.chain, w.current)|)
  }

  function Next(w: Worker, step: Step): Worker {
    var added := w.(rows := AddAll(w.rows, Handed(w, step)));
    match step
    case Mine(e) => w.(chain := w.chain + [e])
    case Process(index, status, exception) => w.(rows := SetStatus(w.rows, index, status, exception))
    case Scan(_, _) => added.(phase := if ScanCompletes(w, step) then Subscribing else Scanning)
    case Subscribe(ok) => w.(phase := if ok then Watching else Scanning)
    case Live(e, addable) =>
      added.(current := BlockBefore(e.block), phase := if addable then Watching else Reconnecting)
    case ConnectionLost => w.(phase := Reconnecting)
    case Reconnect => w.(phase := Scanning)
    case Stop => w.(phase := Stopped)
  }

  predicate Possible(w: Worker, steps: seq<Step>)
    decreases |steps|
  {
    steps == [] || (Enabled(w, steps[0]) && Possible(Next(w, steps[0]), steps[1..]))
  }

  function Run(w: Worker, steps: seq<Step>): Worker
    decreases |steps|
  {
    if steps == [] then w else Run(Next(w, steps[0]), steps[1..])
  }

  function Start(chain: seq<Event>, inputBoxBlock: U64): Worker { Worker(chain, [], inputBoxBlock, Scanning) }

  // ---------- Failures and stopping ----------

  /** What brings a running worker back to scanning. */
  function BackToScan(phase: Phase): seq<Step>
    requires phase != Stopped
  {
    match phase
    case Scanning => []
    case Subscribing => [Subscribe(false)]
    case Watching => [ConnectionLost, Reconnect]
    case Reconnecting => [Reconnect]
  }

  /** From wherever it is, a running worker can lose its connection and scan again, with its rows and its next start as
      they were. */
  lemma FailuresLeadToScan(w: Worker)
    requires w.phase != Stopped
    ensures Possible(w, BackToScan(w.phase)) && Run(w, BackToScan(w.phase)) == w.(phase := Scanning)
  {
    var steps := BackToScan(w.phase);
    if w.phase == Watching {
      var lost := Next(w, ConnectionLost);
      assert steps[1..] == [Reconnect] && [Reconnect][1..] == [];
      assert Run(lost, [Reconnect]) == w.(phase := Scanning) && Possible(lost, [Reconnect]);
    } else if steps != [] {
      assert steps[1..] == [];
    }
  }

  /** A scan that cannot ask the chain changes nothing and is repeated; one that cannot add an event keeps what it added
      before and is repeated; a complete one goes on to subscribe. */
  lemma ScansAreRepeated(w: Worker, failing: Option<nat>)
    requires w.phase == Scanning
    ensures Next(w, Scan(false, failing)) == w
    ensures var past := Past(w.chain, w.current);
            Next(w, Scan(true, failing)) ==
            if failing.Some? && failing.value < |past| then w.(rows := AddAll(w.rows, past[..failing.value]))
            else w.(rows := AddAll(w.rows, past), phase := Subscribing)
  {
    assert AddAll(w.rows, []) == w.rows;
  }

  /** A new worker scans from the block of the input box, and then watches: each event of the chain from that block on
      has its row. */
  lemma FirstScan(chain: seq<Event>, inputBoxBlock: U64, e: Event)
    ensures var w, steps := Start(chain, inputBoxBlock), [Scan(true, None), Subscribe(true)];
            && Possible(w, steps) && Run(w, steps).phase == Watching
            && Run(w, steps).rows == AddAll([], Past(chain, inputBoxBlock))
            && (e in chain && e.block >= inputBoxBlock ==> FindByIndex(Run(w, steps).rows, e.index).Some?)
  {
    var w := Start(chain, inputBoxBlock);
    var rows := AddAll([], Past(chain, inputBoxBlock));
    var scanned := w.(rows := rows, phase := Subscribing);
    assert Next(w, Scan(true, None)) == scanned && Next(scanned, Subscribe(true)) == scanned.(phase := Watching);
    assert [Scan(true, None), Subscribe(true)][1..] == [Subscribe(true)] && [Subscribe(true)][1..] == [];
    assert Run(scanned, [Subscribe(true)]) == scanned.(phase := Watching) && Possible(scanned, [Subscribe(true)]);
    AddAllFinds([], Past(chain, inputBoxBlock), e.index);
  }

  /** A worker that watches takes any event of the chain, a lost connection, or a stop; one that waits to reconnect can
      be stopped as well. */
  lemma WatchingListens(w: Worker, e: Event, addable: bool)
    requires w.phase == Watching && e in w.chain
    ensures Possible(w, [Live(e, true), Live(e, addable)]) && Possible(w, [Live(e, true), ConnectionLost, Stop])
    ensures Possible(w, [Live(e, true), Stop])
  {
    var next := Next(w, Live(e, true));
    var lost := Next(next, ConnectionLost);
    assert [Live(e, true), Live(e, addable)][1..] == [Live(e, addable)] && [Live(e, addable)][1..] == [];
    assert Possible(next, [Live(e, addable)]);
    assert [Live(e, true), Stop][1..] == [Stop] && [Stop][1..] == [];
    assert Possible(next, [Stop]) && Possible(lost, [Stop]);
    assert [ConnectionLost, Stop][1..] == [Stop];
    assert Possible(next, [ConnectionLost, Stop]);
    assert [Live(e, true), ConnectionLost, Stop][1..] == [ConnectionLost, Stop];
  }

  /** A worker stops when it is told to, and for no other reason. */
  lemma {:induction false} StopsWhenTold(w: Worker, steps: seq<Step>)
    requires Possible(w, steps)
    ensures Run(w, steps).phase == Stopped <==> w.phase == Stopped || Stop in steps
    decreases |steps|
  {
    if steps != [] {
      assert forall x :: x in steps <==> x == steps[0] || x in steps[1..];
      StopsWhenTold(Next(w, steps[0]), steps[1..]);
    }
  }

  // ---------- Redelivery ----------

  lemma {:induction false} AddAllKeeps(rows: seq<InputRow>, es: seq<Event>)
    requires OneRowPerIndex(rows)
    ensures OneRowPerIndex(AddAll(rows, es)) && rows <= AddAll(rows, es)
    decreases |es|
  {
    if es != [] { AddAllKeeps(Add(rows, es[0]), es[1..]); }
  }

  /** The rows after the status updates of a run, and nothing else of it. */
  function Processed(rows: seq<InputRow>, steps: seq<Step>): (r: seq<InputRow>)
    ensures |r| == |rows|
    decreases |steps|
  {
    if steps == [] then rows
    else if steps[0].Process?
    then Processed(SetStatus(rows, steps[0].index, steps[0].status, steps[0].exception), steps[1..])
    else Processed(rows, steps[1..])
  }

  lemma {:induction false} ProcessedPrefix(rows: seq<InputRow>, more: seq<InputRow>, steps: seq<Step>)
    requires rows <= more
    ensures Processed(rows, steps) <= Processed(more, steps)
    decreases |steps|
  {
    if steps != [] {
      var step := steps[0];
      if step.Process? {
        ProcessedPrefix(SetStatus(rows, step.index, step.status, step.exception),
                        SetStatus(more, step.index, step.status, step.exception), steps[1..]);
      } else {
        ProcessedPrefix(rows, more, steps[1..]);
      }
    }
  }

  /** In every run the rows that exist keep their places and contents, up to the status updates of the rollup machine:
      no scan, live event, duplicate or reconnection changes one. And there is never a second row for an index. */
  lemma {:induction false} RedeliveryChangesNothing(w: Worker, steps: seq<Step>)
    requires OneRowPerIndex(w.rows)
    ensures Processed(w.rows, steps) <= Run(w, steps).rows
    ensures OneRowPerIndex(Run(w, steps).rows)
    decreases |steps|
  {
    if steps != [] {
      var next := Next(w, steps[0]);
      AddAllKeeps(w.rows, Handed(w, steps[0]));
      RedeliveryChangesNothing(next, steps[1..]);
      if !steps[0].Process? { ProcessedPrefix(w.rows, next.rows, steps[1..]); }
    }
  }

  // ---------- The first delivery counts ----------

  function AllHanded(w: Worker, steps: seq<Step>): seq<Event>
    decreases |steps|
  {
    if steps == [] then [] else Handed(w, steps[0]) + AllHanded(Next(w, steps[0]), steps[1..])
  }

  function FirstWith(es: seq<Event>, index: nat): (r: Option<Event>)
    ensures r.None? ==> forall e :: e in es ==> e.index != index
    ensures r.Some? ==> r.value in es && r.value.index == index
  {
    if es == [] then None else if es[0].index == index then Some(es[0]) else FirstWith(es[1..], index)
  }

  /** Everything but the status and the exception is that of the event. */
  predicate ComesFrom(row: InputRow, e: Event) {
    && row.index == e.index && row.sender == e.sender && row.payload == e.payload
    && row.block == e.block && row.timestamp == e.timestamp && row.app == ZERO_ADDRESS
  }

  predicate RowFits(rows: seq<InputRow>, es: seq<Event>, index: nat) {
    match FindByIndex(rows, index)
    case Some(row) => FirstWith(es, index).Some? && ComesFrom(row, FirstWith(es, index).value)
    case None => FirstWith(es, index).None?
  }

  /** The table holds what was delivered first: a row for exactly the indices delivered, with everything but the status
      from the first event with the index. */
  ghost predicate HoldsFirst(rows: seq<InputRow>, es: seq<Event>) { forall index: nat :: RowFits(rows, es, index) }

  lemma {:induction false} FirstWithAppend(es: seq<Event>, more: seq<Event>, index: nat)
    ensures FirstWith(es + more, index) ==
            if FirstWith(es, index).Some? then FirstWith(es, index) else FirstWith(more, index)
  {
    if es == [] {
      assert es + more == more;
    } else {
      assert (es + more)[0] == es[0] && (es + more)[1..] == es[1..] + more;
      FirstWithAppend(es[1..], more, index);
    }
  }

  lemma {:induction false} FindAppend(rows: seq<InputRow>, row: InputRow, index: nat)
    ensures FindByIndex(rows + [row], index) ==
            if FindByIndex(rows, index).Some? then FindByIndex(rows, index)
            else if row.index == index then Some(row) else None
  {
    if rows == [] {
      assert rows + [row] == [row] && [row][1..] == [];
    } else {
      assert (rows + [row])[0] == rows[0] && (rows + [row])[1..] == rows[1..] + [row];
      FindAppend(rows[1..], row, index);
    }
  }

  lemma AddFinds(rows: seq<InputRow>, e: Event, index: nat)
    ensures FindByIndex(Add(rows, e), index) ==
            if FindByIndex(rows, index).Some? then FindByIndex(rows, index)
            else if e.index != index then None
            else Some(InputRow(index, ZERO_ADDRESS, Unprocessed, e.sender, e.payload, e.block, e.timestamp, ""))
  {
    FindAppend(rows, RowOf(e), index);
  }

  /** What is found after additions: the row that was there, or else the first event with the index. */
  lemma {:induction false} AddAllFinds(rows: seq<InputRow>, es: seq<Event>, index: nat)
    ensures var found, first := FindByIndex(rows, index), FirstWith(es, index);
            FindByIndex(AddAll(rows, es), index) ==
            if found.Some? then found
            else if first.None? then None
            else
              var e := first.value;
              Some(InputRow(index, ZERO_ADDRESS, Unprocessed, e.sender, e.payload, e.block, e.timestamp, ""))
    decreases |es|
  {
    if es != [] {
      AddFinds(rows, es[0], index);
      AddAllFinds(Add(rows, es[0]), es[1..], index);
    }
  }

  lemma {:induction false} SetStatusFinds(rows: seq<InputRow>, index: nat, status: CompletionStatus, exception: string,
                                          j: nat)
    ensures var found := FindByIndex(rows, j);
            FindByIndex(SetStatus(rows, index, status, exception), j) ==
            if found.Some? && j == index then Some(found.value.(status := status, exception := exception)) else found
  {
    if rows != [] {
      assert SetStatus(rows, index, status, exception)[1..] == SetStatus(rows[1..], index, status, exception);
      SetStatusFinds(rows[1..], index, status, exception, j);
    }
  }

  lemma StepHoldsFirst(w: Worker, step: Step, es: seq<Event>)
    requires HoldsFirst(w.rows, es)
    ensures HoldsFirst(Next(w, step).rows, es + Handed(w, step))
  {
    forall index: nat ensures RowFits(Next(w, step).rows, es + Handed(w, step), index) {
      assert RowFits(w.rows, es, index);
      FirstWithAppend(es, Handed(w, step), index);
      if step.Process? {
        SetStatusFinds(w.rows, step.index, step.status, step.exception, index);
      } else {
        AddAllFinds(w.rows, Handed(w, step), index);
      }
    }
  }

  lemma {:induction false} RunHoldsFirst(w: Worker, steps: seq<Step>, es: seq<Event>)
    requires HoldsFirst(w.rows, es)
    ensures HoldsFirst(Run(w, steps).rows, es + AllHanded(w, steps))
    decreases |steps|
  {
    if steps == [] {
      assert es + [] == es;
    } else {
      var next, handed := Next(w, steps[0]), Handed(w, steps[0]);
      StepHoldsFirst(w, steps[0], es);
      RunHoldsFirst(next, steps[1..], es + handed);
      assert es + AllHanded(w, steps) == es + handed + AllHanded(next, steps[1..]);
    }
  }

  /** In every run the table has a row for exactly the indices delivered, with the payload, sender and block of the
      first delivery of the index. */
  lemma FirstDeliveryStays(chain: seq<Event>, inputBoxBlock: U64, steps: seq<Step>)
    ensures HoldsFirst(Run(Start(chain, inputBoxBlock), steps).rows, AllHanded(Start(chain, inputBoxBlock), steps))
  {
    var w := Start(chain, inputBoxBlock);
    RunHoldsFirst(w, steps, []);
    assert [] + AllHanded(w, steps) == AllHanded(w, steps);
  }

  // ---------- Live events that could not be added ----------

  function LiveEvent(step: Step): seq<Event> { if step.Live? then [step.e] else [] }

  function LiveEvents(steps: seq<Step>): seq<Event> {
    if steps == [] then [] else LiveEvent(steps[0]) + LiveEvents(steps[1..])
  }

  /** The event has its row, or the worker is about to scan from the block before it, or it was stopped before it
      could. */
  predicate StoredOrAhead(w: Worker, e: Event) {
    || FindByIndex(w.rows, e.index).Some?
    || ((w.phase == Scanning || w.phase == Reconnecting) && w.current == e.block - 1)
    || (w.phase == Stopped && w.current == e.block - 1)
  }

  predicate Remembers(w: Worker, lives: seq<Event>) {
    forall e :: e in lives && e.block >= 1 ==> e in w.chain && StoredOrAhead(w, e)
  }

  lemma StepRemembersOne(w: Worker, step: Step, e: Event)
    requires Enabled(w, step) && e.block >= 1
    requires (e in w.chain && StoredOrAhead(w, e)) || e in LiveEvent(step)
    ensures e in Next(w, step).chain && StoredOrAhead(Next(w, step), e)
  {
    var handed := Handed(w, step);
    if step.Process? {
      SetStatusFinds(w.rows, step.index, step.status, step.exception, e.index);
    } else {
      AddAllFinds(w.rows, handed, e.index);
    }
  }

  lemma StepRemembers(w: Worker, step: Step, lives: seq<Event>)
    requires Remembers(w, lives) && Enabled(w, step)
    ensures Remembers(Next(w, step), lives + LiveEvent(step))
  {
    forall e | e in lives + LiveEvent(step) && e.block >= 1
      ensures e in Next(w, step).chain && StoredOrAhead(Next(w, step), e)
    {
      StepRemembersOne(w, step, e);
    }
  }

  lemma {:induction false} RunRemembers(w: Worker, steps: seq<Step>, lives: seq<Event>)
    requires Remembers(w, lives) && Possible(w, steps)
    ensures Remembers(Run(w, steps), lives + LiveEvents(steps))
    decreases |steps|
  {
    if steps == [] {
      assert lives + [] == lives;
    } else {
      var more := LiveEvent(steps[0]);
      StepRemembers(w, steps[0], lives);
      RunRemembers(Next(w, steps[0]), steps[1..], lives + more);
      assert lives + LiveEvents(steps) == lives + more + LiveEvents(steps[1..]);
    }
  }

  /** In every run each live event of a block other than the first has a row, or the worker has yet to scan and will
      start from the block before it, or the worker was stopped right after the event could not be added. While the
      worker runs, no live event that could not be added is passed over. */
  lemma LiveEventsAreNotLost(chain: seq<Event>, inputBoxBlock: U64, steps: seq<Step>, e: Event)
    requires Possible(Start(chain, inputBoxBlock), steps) && e in LiveEvents(steps) && e.block >= 1
    ensures StoredOrAhead(Run(Start(chain, inputBoxBlock), steps), e)
  {
    RunRemembers(Start(chain, inputBoxBlock), steps, []);
    assert [] + LiveEvents(steps) == LiveEvents(steps);
  }

  lemma RecoveryFinds(rows: seq<InputRow>, chain: seq<Event>, e: Event)
    requires e in chain && forall other :: other in chain && other.index == e.index ==> other == e
    requires FindByIndex(rows, e.index).None?
    ensures FindByIndex(AddAll(rows, Past(chain, BlockBefore(e.block))), e.index).Some? <==> e.block >= 1
  {
    var past := Past(chain, BlockBefore(e.block));
    AddAllFinds(rows, past, e.index);
    assert FirstWith(past, e.index).Some? <==> e in past;
  }

  /** The state after a live event that could not be added, the reconnection and a complete scan. */
  function Recovered(w: Worker, e: Event): Worker {
    w.(rows := AddAll(w.rows, Past(w.chain, BlockBefore(e.block))), current := BlockBefore(e.block),
       phase := Subscribing)
  }

  lemma RecoveryRuns(w: Worker, e: Event)
    requires Enabled(w, Live(e, false))
    ensures var recovery := [Live(e, false), Reconnect, Scan(true, None)];
            Possible(w, recovery) && Run(w, recovery) == Recovered(w, e)
  {
    var recovery := [Live(e, false), Reconnect, Scan(true, None)];
    var w1 := w.(current := BlockBefore(e.block), phase := Reconnecting);
    var w2 := w1.(phase := Scanning);
    assert Next(w, recovery[0]) == w1 && Next(w1, Reconnect) == w2 && Next(w2, Scan(true, None)) == Recovered(w, e);
    assert recovery[1..] == [Reconnect, Scan(true, None)] && recovery[1..][1..] == [Scan(true, None)];
    assert [Scan(true, None)][1..] == [];
    assert Run(w2, [Scan(true, None)]) == Recovered(w, e) && Possible(w2, [Scan(true, None)]);
    assert Run(w1, recovery[1..]) == Recovered(w, e) && Possible(w1, recovery[1..]);
  }

  /** After a live event that could not be added, the next scan, if it completes, stores the event if and only if it is
      not of block 0: there the start of the scan wraps around to the highest block. Block 0 of a chain holds no
      transactions and so no events; the condition says that nothing but this start is needed. */
  lemma FailedEventIsRecoveredIff(w: Worker, e: Event)
    requires Enabled(w, Live(e, false)) && forall other :: other in w.chain && other.index == e.index ==> other == e
    requires FindByIndex(w.rows, e.index).None?
    ensures var recovery := [Live(e, false), Reconnect, Scan(true, None)];
            && Possible(w, recovery)
            && (FindByIndex(Run(w, recovery).rows, e.index).Some? <==> e.block >= 1)
  {
    RecoveryRuns(w, e);
    RecoveryFinds(w.rows, w.chain, e);
  }
}
