/** The backward scan for a data commitment event, in windows of blocks and in 64-bit unsigned arithmetic. */
module BlockScan {
  import opened Wrappers
  import opened Arithmetic

  const TWO_63: int := 0x8000_0000_0000_0000
  const TWO_64: int := 0x1_0000_0000_0000_0000

  type U64 = x: int | 0 <= x < TWO_64
  type I64 = x: int | -TWO_63 <= x < TWO_63

  const WINDOW: U64 := 10_000

  function Sub(a: U64, b: U64): U64 { if a >= b then a - b else a - b + TWO_64 }

  function ToInt64(x: U64): I64 { if x >= TWO_63 then x - TWO_64 else x }

  /** An event in the log: the block that holds it and the range of heights that it commits to. */
  datatype Event = Event(block: U64, startBlock: U64, endBlock: U64)

  predicate Covers(e: Event, height: I64) { ToInt64(e.startBlock) <= height < ToInt64(e.endBlock) }

  function FirstMatch(events: seq<Event>, height: I64): (r: Option<Event>)
    ensures r.Some? ==> r.value in events && Covers(r.value, height)
    ensures r.None? ==> forall e :: e in events ==> !Covers(e, height)
  {
    if events == [] then None
    else if Covers(events[0], height) then Some(events[0])
    else FirstMatch(events[1..], height)
  }

  /** The first match is the first: nothing before it covers the height. */
  lemma {:induction false} FirstMatchIsFirst(before: seq<Event>, e: Event, behind: seq<Event>, height: I64)
    requires Covers(e, height) && forall x :: x in before ==> !Covers(x, height)
    ensures FirstMatch(before + [e] + behind, height) == Some(e)
    decreases |before|
  {
    var events := before + [e] + behind;
    if before != [] {
      assert events[0] == before[0] && events[1..] == before[1..] + [e] + behind;
      FirstMatchIsFirst(before[1..], e, behind, height);
    }
  }

  /** Events of adjacent ranges, in heights that fit 63 bits. */
  predicate Adjacent(events: seq<Event>) {
    && (forall i :: 0 <= i < |events| ==> events[i].startBlock <= events[i].endBlock < TWO_63)
    && (forall i :: 0 <= i < |events| - 1 ==> events[i].endBlock == events[i + 1].startBlock)
  }

  function CoverCount(events: seq<Event>, height: I64): nat {
    if events == [] then 0 else (if Covers(events[0], height) then 1 else 0) + CoverCount(events[1..], height)
  }

  /** Commitments with adjacent ranges cover every height from the first start up to the last end exactly once, and no
      other. */
  lemma {:induction false} AdjacentCoverOnce(events: seq<Event>, height: I64)
    requires events != [] && Adjacent(events)
    ensures CoverCount(events, height) ==
            if events[0].startBlock <= height < events[|events| - 1].endBlock then 1 else 0
    ensures events[0].startBlock <= events[|events| - 1].endBlock
    decreases |events|
  {
    if |events| > 1 {
      var rest := events[1..];
      assert forall i :: 0 <= i < |rest| ==> rest[i] == events[i + 1];
      AdjacentCoverOnce(rest, height);
    } else {
      assert events[1..] == [];
    }
  }

  /** Bounds from 2^63 on are read as negative numbers: 2^64 - a as -a. */
  lemma NegativeBounds(block: U64, a: int, b: int, height: I64)
    requires 0 < a <= TWO_63 && 0 < b <= TWO_63
    ensures Covers(Event(block, TWO_64 - a, TWO_64 - b), height) <==> -a <= height < -b
    ensures Covers(Event(block, TWO_64 - a, b - 1), height) <==> -a <= height < b - 1
    ensures !Covers(Event(block, b - 1, TWO_64 - a), height)
  {
  }

  /** The node's answer to a query for the events from one block to another; None is an error. */
  type Filter = (U64, U64) -> Option<seq<Event>>

  method FindMatchingDataCommitment(filter: Filter, start: U64, end: U64, height: I64)
    returns (r: Option<Option<Event>>)
    ensures r == match filter(start, end)
                 case None => None
                 case Some(events) => Some(FirstMatch(events, height))
  {
    var answer := filter(start, end);
    if answer.None? { return None; }
    var events := answer.value;
    for i := 0 to |events|
      invariant FirstMatch(events, height) == FirstMatch(events[i..], height)
    {
      if Covers(events[i], height) { return Some(Some(events[i])); }
    }
    r := Some(None);
  }

  datatype Outcome = Found(e: Event) | NotFound | FilterFailed | Scanning(end: U64)

  function Blocks(head: U64, blocks: U64): (r: U64)
    ensures r <= head && r <= blocks && (r == head || r == blocks)
  {
    if head < blocks then head else blocks
  }

  /** Where the window that ends at `end` starts. */
  function WindowStart(low: U64, end: U64): U64 {
    var start := Sub(end, WINDOW);
    if start < low then low else start
  }

  /** At most `rounds` windows, the first one ending at `end`. */
  function ScanFrom(filter: Filter, height: I64, low: U64, end: U64, rounds: nat): Outcome
    decreases rounds
  {
    if end <= low then NotFound
    else if rounds == 0 then Scanning(end)
    else
      match filter(WindowStart(low, end), end)
      case None => FilterFailed
      case Some(events) =>
        match FirstMatch(events, height)
        case Some(e) => Found(e)
        case None => ScanFrom(filter, height, low, Sub(end, WINDOW), rounds - 1)
  }

  function Scan(filter: Filter, head: U64, height: I64, blocks: U64, rounds: nat): Outcome {
    ScanFrom(filter, height, head - Blocks(head, blocks), head, rounds)
  }

  /** The source has no bound on the rounds; Scanning says that the bound was reached and the loop would go on. */
  method GetDataCommitment(filter: Filter, head: U64, height: I64, blocks: U64, rounds: nat) returns (r: Outcome)
    ensures r == Scan(filter, head, height, blocks, rounds)
  {
    var range: U64 := blocks;
    if head < range { range := head; }
    var end: U64 := head;
    var left := rounds;
    while end > head - range
      invariant ScanFrom(filter, height, head - range, end, left) == Scan(filter, head, height, blocks, rounds)
      decreases left
    {
      if left == 0 { return Scanning(end); }
      left := left - 1;
      var start: U64 := Sub(end, WINDOW);
      if start < head - range { start := head - range; }
      var commitment := FindMatchingDataCommitment(filter, start, end, height);
      if commitment.None? { return FilterFailed; }
      if commitment.value.Some? { return Found(commitment.value.value); }
      end := Sub(end, WINDOW);
    }
    r := NotFound;
  }

  // ---------- The windows ----------

  /** The number of windows of a scan down to `low`. */
  function Windows(low: U64, end: U64): nat
    requires low <= end
    decreases end - low
  {
    if end == low then 0 else if end - low > WINDOW then 1 + Windows(low, end - WINDOW) else 1
  }

  /** Where the lowest window ends. */
  function LowestEnd(low: U64, end: U64): (r: U64)
    requires low < end
    ensures low < r <= end && r - low <= WINDOW
    decreases end - low
  {
    if end - low > WINDOW then LowestEnd(low, end - WINDOW) else end
  }

  lemma {:induction false} WindowsIsCeiling(low: U64, end: U64)
    requires low <= end
    ensures Windows(low, end) == (end - low + 9_999) / 10_000
    decreases end - low
  {
    if end - low > WINDOW { WindowsIsCeiling(low, end - WINDOW); }
  }

  lemma {:induction false} LowestEndIs(low: U64, end: U64)
    requires low < end
    ensures LowestEnd(low, end) == low + (end - low - 1) % 10_000 + 1
    decreases end - low
  {
    if end - low > WINDOW {
      LowestEndIs(low, end - WINDOW);
      var d := end - low - 1;
      DivideExactly(10_000, d / 10_000 - 1, d % 10_000);
      assert d - 10_000 == 10_000 * (d / 10_000 - 1) + d % 10_000;
    }
  }

  /** A query whose first block is not behind its last is answered with the events of the log in that range. */
  ghost predicate Faithful(filter: Filter, log: seq<Event>) {
    forall start: U64, end: U64 :: start <= end ==>
      filter(start, end).Some? && forall e :: e in filter(start, end).value <==> e in log && start <= e.block <= end
  }

  /** No block below 10000 is reached while blocks remain to be scanned. */
  predicate NeverWraps(head: U64, blocks: U64) {
    var n := Blocks(head, blocks);
    n == 0 || (head - n) + (n - 1) % 10_000 + 1 >= 10_000
  }

  predicate CoveredIn(log: seq<Event>, height: I64, low: U64, high: U64) {
    exists e :: e in log && low <= e.block <= high && Covers(e, height)
  }

  /** No event that covers the height lies more than a window above the one found. */
  predicate InNewestWindow(log: seq<Event>, height: I64, end: U64, found: Event) {
    forall e :: e in log && e.block <= end && Covers(e, height) ==> e.block <= found.block + 10_000
  }

  /** From an end whose lowest window does not wrap: the scan ends within the windows that are left, and misses no
      event. */
  lemma {:induction false} ScanDecidesFrom(filter: Filter, log: seq<Event>, height: I64, low: U64, end: U64,
                                           rounds: nat)
    requires Faithful(filter, log) && low < end && LowestEnd(low, end) >= WINDOW && rounds >= Windows(low, end)
    ensures var r := ScanFrom(filter, height, low, end, rounds);
            && (r.Found? || r.NotFound?)
            && (r.Found? ==> r.e in log && low <= r.e.block <= end && Covers(r.e, height))
            && (r.Found? ==> InNewestWindow(log, height, end, r.e))
            && (r.NotFound? <==> !CoveredIn(log, height, low, end))
    decreases rounds
  {
    var start := WindowStart(low, end);
    assert start <= end && filter(start, end).Some?;
    var events := filter(start, end).value;
    if FirstMatch(events, height).None? && end - low > WINDOW {
      ScanDecidesFrom(filter, log, height, low, end - WINDOW, rounds - 1);
    }
  }

  /** When the arithmetic never wraps, the scan ends after at most ceil(blocks / 10000) windows; it fails to find a
      commitment if and only if no event between the lowest block and the head covers the height, or there are no blocks
      to scan; and what it finds is such an event, in the newest window that has one. */
  lemma ScanDecides(filter: Filter, log: seq<Event>, head: U64, height: I64, blocks: U64, rounds: nat)
    requires Faithful(filter, log) && NeverWraps(head, blocks)
    requires rounds >= (Blocks(head, blocks) + 9_999) / 10_000
    ensures var r, low := Scan(filter, head, height, blocks, rounds), head - Blocks(head, blocks);
            && (r.NotFound? <==> Blocks(head, blocks) == 0 || !CoveredIn(log, height, low, head))
            && (!r.NotFound? ==> r.Found? && r.e in log && low <= r.e.block <= head && Covers(r.e, height))
            && (r.Found? ==> InNewestWindow(log, height, head, r.e))
  {
    var low := head - Blocks(head, blocks);
    if low < head {
      WindowsIsCeiling(low, head);
      LowestEndIs(low, head);
      ScanDecidesFrom(filter, log, height, low, head, rounds);
    }
  }

  /** When nothing matches, the scan takes exactly ceil(blocks / 10000) windows. */
  lemma {:induction false} NoMatchTakesAllWindows(filter: Filter, log: seq<Event>, height: I64, low: U64, end: U64,
                                                  rounds: nat)
    requires Faithful(filter, log) && low <= end && (low < end ==> LowestEnd(low, end) >= WINDOW)
    requires !CoveredIn(log, height, low, end)
    ensures ScanFrom(filter, height, low, end, rounds).Scanning? <==> rounds < (end - low + 9_999) / 10_000
    decreases rounds
  {
    WindowsIsCeiling(low, end);
    if low < end && rounds > 0 {
      var start := WindowStart(low, end);
      assert start <= end && filter(start, end).Some?;
      assert FirstMatch(filter(start, end).value, height).None?;
      if end - low > WINDOW { NoMatchTakesAllWindows(filter, log, height, low, end - WINDOW, rounds - 1); }
    }
  }

  // ---------- When it wraps ----------

  /** A node that rejects a query whose first block is behind its last. */
  ghost predicate RejectsReversed(filter: Filter) {
    forall start: U64, end: U64 :: start > end ==> filter(start, end).None?
  }

  /** The blocks that the scan has seen when it reaches its lowest window: those from the end of that window on, but
      none when the lowest window is the first. */
  predicate FoundAbove(log: seq<Event>, height: I64, lowest: U64, head: U64) {
    lowest < head && CoveredIn(log, height, lowest, head)
  }

  lemma {:induction false} WrappedScanFrom(filter: Filter, log: seq<Event>, height: I64, low: U64, end: U64,
                                           rounds: nat)
    requires Faithful(filter, log) && RejectsReversed(filter) && low < end && rounds >= Windows(low, end)
    requires LowestEnd(low, end) < WINDOW
    ensures var r := ScanFrom(filter, height, low, end, rounds);
            if FoundAbove(log, height, LowestEnd(low, end), end)
            then r.Found? && r.e in log && LowestEnd(low, end) <= r.e.block <= end && Covers(r.e, height)
            else r.FilterFailed?
    decreases rounds
  {
    var start := WindowStart(low, end);
    if end - low > WINDOW {
      assert start == end - WINDOW && filter(start, end).Some?;
      WrappedScanFrom(filter, log, height, low, start, rounds - 1);
    } else {
      assert start > end;
    }
  }

  /** On a node that rejects reversed ranges, the scan fails with an error if and only if the arithmetic wraps and no
      event above the window in which it does covers the height: what the lowest window holds is never looked at. A scan
      that wraps and does not fail finds such an event. */
  lemma ScanFailsIff(filter: Filter, log: seq<Event>, head: U64, height: I64, blocks: U64, rounds: nat)
    requires Faithful(filter, log) && RejectsReversed(filter)
    requires rounds >= (Blocks(head, blocks) + 9_999) / 10_000
    ensures var n := Blocks(head, blocks);
            var r, lowest := Scan(filter, head, height, blocks, rounds), head - n + (n - 1) % 10_000 + 1;
            && (r.FilterFailed? <==> !NeverWraps(head, blocks) && !FoundAbove(log, height, lowest, head))
            && (!NeverWraps(head, blocks) && !r.FilterFailed? ==>
                  r.Found? && r.e in log && lowest <= r.e.block <= head && Covers(r.e, height))
  {
    var n := Blocks(head, blocks);
    var low := head - n;
    if NeverWraps(head, blocks) {
      ScanDecides(filter, log, head, height, blocks, rounds);
    } else {
      WindowsIsCeiling(low, head);
      LowestEndIs(low, head);
      WrappedScanFrom(filter, log, height, low, head, rounds);
    }
  }

  /** A chain of 5000 blocks with a matching event in block 3000: the whole range is to be scanned, and nothing is. */
  lemma YoungChainFails(filter: Filter)
    requires Faithful(filter, [Event(3000, 1, 100)]) && RejectsReversed(filter)
    ensures CoveredIn([Event(3000, 1, 100)], 50, 0, 5000)
    ensures Scan(filter, 5000, 50, 5000, 1) == FilterFailed
  {
    assert Covers(Event(3000, 1, 100), 50);
    ScanFailsIff(filter, [Event(3000, 1, 100)], 5000, 50, 5000, 1);
  }
}
