/** Outputs that arrive in several transactions, one after the other: what the table holds in the end. */
module Batches {
  import opened Wrappers
  import opened Repository

  /** One transaction for each batch, from an empty table. None when one of them fails. */
  function RunBatches<C>(bs: seq<seq<Output<C>>>): Option<Table<C>>
    decreases |bs|
  {
    if bs == [] then Some(map[])
    else
      match RunBatches(bs[..|bs| - 1])
      case None => None
      case Some(t) =>
        match UpsertAll(t, t, bs[|bs| - 1])
        case Ok(t') => Some(t')
        case Err(_) => None
  }

  function Concat<C>(bs: seq<seq<Output<C>>>): seq<Output<C>>
    decreases |bs|
  {
    if bs == [] then [] else Concat(bs[..|bs| - 1]) + bs[|bs| - 1]
  }

  predicate Claimed<C>(before: seq<Output<C>>, o: Output<C>) { exists i :: 0 <= i < |before| && SamePair(before[i], o) }

  /** The outputs whose (input, application) pair did not occur before. */
  function Unclaimed<C>(before: seq<Output<C>>, os: seq<Output<C>>): (r: seq<Output<C>>)
    ensures |r| <= |os|
    ensures |r| == |os| ==> r == os
    decreases |os|
  {
    if os == [] then [] else (if Claimed(before, os[0]) then [] else [os[0]]) + Unclaimed(before, os[1..])
  }

  /** What gets stored: an output whose pair occurs in an earlier batch is dropped. */
  function Kept<C>(bs: seq<seq<Output<C>>>): seq<Output<C>>
    decreases |bs|
  {
    if bs == [] then []
    else
      var init := bs[..|bs| - 1];
      Kept(init) + Unclaimed(Concat(init), bs[|bs| - 1])
  }

  /** No (input, application) pair occurs in two different batches. */
  ghost predicate NotSplit<C(!new)>(bs: seq<seq<Output<C>>>) {
    forall i, j :: 0 <= i < j < |bs| ==> Apart(bs[i], bs[j])
  }

  // ---------- Keys ----------

  ghost predicate KeysApart<C(!new)>(a: seq<Output<C>>, b: seq<Output<C>>) {
    forall x, y :: x in a && y in b ==> x.key != y.key
  }

  lemma DistinctKeysJoin<C(!new)>(a: seq<Output<C>>, b: seq<Output<C>>)
    ensures DistinctKeys(a + b) <==> DistinctKeys(a) && DistinctKeys(b) && KeysApart(a, b)
  {
    var s := a + b;
    assert forall i :: 0 <= i < |a| ==> s[i] == a[i];
    assert forall j :: 0 <= j < |b| ==> s[|a| + j] == b[j];
    if DistinctKeys(s) {
      forall x, y | x in a && y in b ensures x.key != y.key {
        var i :| 0 <= i < |a| && a[i] == x;
        var j :| 0 <= j < |b| && b[j] == y;
        assert s[i] == x && s[|a| + j] == y;
      }
    }
  }

  lemma {:induction false} UnclaimedIsPart<C(!new)>(before: seq<Output<C>>, os: seq<Output<C>>)
    requires DistinctKeys(os)
    ensures DistinctKeys(Unclaimed(before, os))
    ensures forall x :: x in Unclaimed(before, os) ==> x in os
    decreases |os|
  {
    if os != [] {
      assert os == [os[0]] + os[1..];
      DistinctKeysJoin([os[0]], os[1..]);
      UnclaimedIsPart(before, os[1..]);
      DistinctKeysJoin([os[0]], Unclaimed(before, os[1..]));
    }
  }

  /** What is kept is part of what arrived. */
  lemma {:induction false} KeptIsPart<C(!new)>(bs: seq<seq<Output<C>>>)
    requires DistinctKeys(Concat(bs))
    ensures DistinctKeys(Kept(bs)) && |Kept(bs)| <= |Concat(bs)|
    ensures forall x :: x in Kept(bs) ==> x in Concat(bs)
    decreases |bs|
  {
    if bs != [] {
      var init, last := bs[..|bs| - 1], bs[|bs| - 1];
      DistinctKeysJoin(Concat(init), last);
      KeptIsPart(init);
      UnclaimedIsPart(Concat(init), last);
      DistinctKeysJoin(Kept(init), Unclaimed(Concat(init), last));
    }
  }

  /** Every pair that arrived is among what is kept. */
  lemma {:induction false} KeptClaims<C>(bs: seq<seq<Output<C>>>, o: Output<C>)
    ensures Claimed(Kept(bs), o) <==> Claimed(Concat(bs), o)
    decreases |bs|
  {
    if bs != [] {
      var init, last := bs[..|bs| - 1], bs[|bs| - 1];
      KeptClaims(init, o);
      ClaimedJoin(Concat(init), last, o);
      ClaimedJoin(Kept(init), Unclaimed(Concat(init), last), o);
      UnclaimedClaims(Concat(init), last, o);
    }
  }

  lemma ClaimedJoin<C>(a: seq<Output<C>>, b: seq<Output<C>>, o: Output<C>)
    ensures Claimed(a + b, o) <==> Claimed(a, o) || Claimed(b, o)
  {
    assert forall i :: 0 <= i < |a| ==> (a + b)[i] == a[i];
    assert forall i :: 0 <= i < |b| ==> (a + b)[|a| + i] == b[i];
  }

  lemma {:induction false} UnclaimedClaims<C>(before: seq<Output<C>>, os: seq<Output<C>>, o: Output<C>)
    ensures Claimed(before, o) || Claimed(os, o) <==> Claimed(before, o) || Claimed(Unclaimed(before, os), o)
    decreases |os|
  {
    if os != [] {
      UnclaimedClaims(before, os[1..], o);
      assert os == [os[0]] + os[1..];
      ClaimedJoin([os[0]], os[1..], o);
      ClaimedJoin(if Claimed(before, os[0]) then [] else [os[0]], Unclaimed(before, os[1..]), o);
      if Claimed(before, os[0]) && SamePair(os[0], o) {
        var i :| 0 <= i < |before| && SamePair(before[i], os[0]);
        assert SamePair(before[i], o);
      }
    }
  }

  // ---------- What is stored ----------

  /** The table owns the pair of an output if and only if the pair was seen. */
  ghost predicate Knows<C>(t: Table<C>, before: seq<Output<C>>, o: Output<C>) {
    Owned(t, o.key.input, o.app) <==> Claimed(before, o)
  }

  lemma UpsertDistinct<C>(committed: Table<C>, done: seq<Output<C>>, before: seq<Output<C>>, o: Output<C>)
    requires Knows(committed, before, o) && DistinctKeys(done + [o])
    ensures Upsert(committed, TableOf(done), o) == Ok(TableOf(if Claimed(before, o) then done else done + [o]))
  {
    assert (done + [o])[|done|] == o && (done + [o])[..|done|] == done;
    assert o.key !in TableOf(done) by { assert forall j :: 0 <= j < |done| ==> (done + [o])[j] == done[j]; }
  }

  lemma MoveOver<C(!new)>(done: seq<Output<C>>, o: Output<C>, rest: seq<Output<C>>, os: seq<Output<C>>)
    requires os == [o] + rest && DistinctKeys(done + os)
    ensures DistinctKeys(done + [o]) && DistinctKeys(done + rest) && DistinctKeys(done + [o] + rest)
  {
    assert done + os == done + [o] + rest;
    DistinctKeysJoin(done, os);
    DistinctKeysJoin([o], rest);
    DistinctKeysJoin(done, [o]);
    DistinctKeysJoin(done, rest);
  }

  lemma FirstOfBatch<C(!new)>(committed: Table<C>, done: seq<Output<C>>, before: seq<Output<C>>, os: seq<Output<C>>)
    returns (done': seq<Output<C>>)
    requires os != [] && Knows(committed, before, os[0]) && DistinctKeys(done + os)
    ensures DistinctKeys(done' + os[1..])
    ensures UpsertAll(committed, TableOf(done), os) == UpsertAll(committed, TableOf(done'), os[1..])
    ensures done' + Unclaimed(before, os[1..]) == done + Unclaimed(before, os)
  {
    var o, rest := os[0], os[1..];
    done' := if Claimed(before, o) then done else done + [o];
    assert DistinctKeys(done' + rest) by { MoveOver(done, o, rest, os); }
    assert Upsert(committed, TableOf(done), o) == Ok(TableOf(done')) by {
      assert DistinctKeys(done + [o]) by { MoveOver(done, o, rest, os); }
      UpsertDistinct(committed, done, before, o);
    }
    assert done' + Unclaimed(before, rest) == done + Unclaimed(before, os) by { UnclaimedStep(done, before, os); }
    UpsertFirst(committed, TableOf(done), TableOf(done'), os);
  }

  lemma UnclaimedStep<C>(done: seq<Output<C>>, before: seq<Output<C>>, os: seq<Output<C>>)
    requires os != []
    ensures done + Unclaimed(before, os) ==
            (if Claimed(before, os[0]) then done else done + [os[0]]) + Unclaimed(before, os[1..])
  {
  }

  lemma UpsertFirst<C>(committed: Table<C>, t: Table<C>, t': Table<C>, os: seq<Output<C>>)
    requires os != [] && Upsert(committed, t, os[0]) == Ok(t')
    ensures UpsertAll(committed, t, os) == UpsertAll(committed, t', os[1..])
  {
  }

  /** One transaction over committed rows that own exactly the pairs seen before. */
  lemma {:induction false} BatchKeepsUnclaimed<C(!new)>(committed: Table<C>, done: seq<Output<C>>,
                                                       before: seq<Output<C>>, os: seq<Output<C>>)
    requires forall o :: Knows(committed, before, o)
    requires DistinctKeys(done + os)
    ensures UpsertAll(committed, TableOf(done), os) == Ok(TableOf(done + Unclaimed(before, os)))
    decreases |os|
  {
    if os == [] {
      assert done + [] == done;
    } else {
      assert Knows(committed, before, os[0]);
      var done' := FirstOfBatch(committed, done, before, os);
      BatchKeepsUnclaimed(committed, done', before, os[1..]);
    }
  }

  lemma TableKnows<C(!new)>(bs: seq<seq<Output<C>>>, o: Output<C>)
    requires DistinctKeys(Concat(bs))
    ensures Knows(TableOf(Kept(bs)), Concat(bs), o)
  {
    KeptIsPart(bs);
    OwnedIffAsked(Kept(bs), o);
    KeptClaims(bs, o);
  }

  /** When no key repeats, no transaction fails, and the table holds exactly the outputs whose pair occurs in no earlier
      batch. */
  lemma {:induction false} BatchesStoreKept<C(!new)>(bs: seq<seq<Output<C>>>)
    requires DistinctKeys(Concat(bs))
    ensures RunBatches(bs) == Some(TableOf(Kept(bs)))
    decreases |bs|
  {
    if bs != [] {
      var init, last := bs[..|bs| - 1], bs[|bs| - 1];
      DistinctKeysJoin(Concat(init), last);
      BatchesStoreKept(init);
      KeptIsPart(init);
      DistinctKeysJoin(Kept(init), last);
      forall o ensures Knows(TableOf(Kept(init)), Concat(init), o) { TableKnows(init, o); }
      BatchKeepsUnclaimed(TableOf(Kept(init)), Kept(init), Concat(init), last);
    }
  }

  lemma {:induction false} UnclaimedIff<C>(before: seq<Output<C>>, os: seq<Output<C>>, o: Output<C>)
    ensures o in Unclaimed(before, os) <==> o in os && !Claimed(before, o)
    decreases |os|
  {
    if os != [] { UnclaimedIff(before, os[1..], o); }
  }

  lemma SameKeySame<C>(os: seq<Output<C>>, x: Output<C>, y: Output<C>)
    requires DistinctKeys(os) && x in os && y in os && x.key == y.key
    ensures x == y
  {
    var a :| 0 <= a < |os| && os[a] == x;
    var b :| 0 <= b < |os| && os[b] == y;
  }

  /** What the last batch leaves of the kept outputs: those of earlier batches, and its own whose pair is new. */
  lemma KeptStep<C(!new)>(bs: seq<seq<Output<C>>>, o: Output<C>)
    requires bs != [] && DistinctKeys(Concat(bs))
    ensures var init, last := bs[..|bs| - 1], bs[|bs| - 1];
            && DistinctKeys(Concat(init))
            && (o in Concat(init) ==> (o in Kept(bs) <==> o in Kept(init)))
            && (o in last ==> (o in Kept(bs) <==> !Claimed(Concat(init), o)))
  {
    var init, last := bs[..|bs| - 1], bs[|bs| - 1];
    DistinctKeysJoin(Concat(init), last);
    UnclaimedIff(Concat(init), last, o);
    KeptIsPart(init);
  }

  /** An output of batch k is kept if and only if its pair occurs in no earlier batch. */
  lemma {:induction false} KeptIff<C(!new)>(bs: seq<seq<Output<C>>>, k: nat, o: Output<C>)
    requires DistinctKeys(Concat(bs)) && k < |bs| && o in bs[k]
    ensures o in Kept(bs) <==> !Claimed(Concat(bs[..k]), o)
    decreases |bs|
  {
    var init := bs[..|bs| - 1];
    KeptStep(bs, o);
    if k < |init| {
      assert init[k] == bs[k] && init[..k] == bs[..k];
      InConcat(init, o);
      KeptIff(init, k, o);
    } else {
      assert bs[..k] == init;
    }
  }

  /** So the row of an output of batch k is in the table if and only if its pair occurs in no earlier batch, and then
      it is that output's. */
  lemma RowOfKept<C(!new)>(bs: seq<seq<Output<C>>>, k: nat, o: Output<C>)
    requires DistinctKeys(Concat(bs)) && k < |bs| && o in bs[k]
    ensures var t := TableOf(Kept(bs));
            && (o.key in t <==> !Claimed(Concat(bs[..k]), o))
            && (o.key in t ==> t[o.key] == o.ToRow())
  {
    var kept := Kept(bs);
    KeptIsPart(bs);
    KeptIff(bs, k, o);
    InConcat(bs, o);
    if o in kept {
      var j :| 0 <= j < |kept| && kept[j] == o;
      TableOfAt(kept, j);
    } else {
      forall j | 0 <= j < |kept| ensures kept[j].key != o.key {
        if kept[j].key == o.key { SameKeySame(Concat(bs), kept[j], o); }
      }
    }
  }

  // ---------- When everything is stored ----------

  lemma {:induction false} TableSize<C>(os: seq<Output<C>>)
    requires DistinctKeys(os)
    ensures |TableOf(os)| == |os|
    decreases |os|
  {
    if os != [] {
      var init, last := os[..|os| - 1], os[|os| - 1];
      assert forall j :: 0 <= j < |init| ==> init[j] == os[j];
      TableSize(init);
    }
  }

  lemma {:induction false} AllUnclaimedIff<C(!new)>(before: seq<Output<C>>, os: seq<Output<C>>)
    ensures |Unclaimed(before, os)| == |os| <==> Apart(before, os)
    decreases |os|
  {
    if os != [] {
      AllUnclaimedIff(before, os[1..]);
      assert forall x :: x in os <==> x == os[0] || x in os[1..];
    }
  }

  lemma {:induction false} InConcat<C>(bs: seq<seq<Output<C>>>, x: Output<C>)
    ensures x in Concat(bs) <==> exists i :: 0 <= i < |bs| && x in bs[i]
    decreases |bs|
  {
    if bs != [] {
      InConcat(bs[..|bs| - 1], x);
      assert forall i :: 0 <= i < |bs| - 1 ==> bs[..|bs| - 1][i] == bs[i];
    }
  }

  lemma NotSplitStep<C(!new)>(bs: seq<seq<Output<C>>>)
    requires bs != []
    ensures var init := bs[..|bs| - 1]; NotSplit(bs) <==> NotSplit(init) && Apart(Concat(init), bs[|bs| - 1])
  {
    var init, last := bs[..|bs| - 1], bs[|bs| - 1];
    assert forall i :: 0 <= i < |init| ==> init[i] == bs[i];
    forall x ensures x in Concat(init) <==> exists i :: 0 <= i < |init| && x in init[i] { InConcat(init, x); }
    if Apart(Concat(init), last) {
      forall i | 0 <= i < |init| ensures Apart(bs[i], last) {
        assert forall x :: x in init[i] ==> x in Concat(init);
      }
    }
  }

  lemma {:induction false} AllKeptIff<C(!new)>(bs: seq<seq<Output<C>>>)
    requires DistinctKeys(Concat(bs))
    ensures |Kept(bs)| == |Concat(bs)| <==> NotSplit(bs)
    ensures NotSplit(bs) ==> Kept(bs) == Concat(bs)
    decreases |bs|
  {
    if bs != [] {
      var init, last := bs[..|bs| - 1], bs[|bs| - 1];
      DistinctKeysJoin(Concat(init), last);
      KeptIsPart(init);
      AllKeptIff(init);
      AllUnclaimedIff(Concat(init), last);
      NotSplitStep(bs);
    }
  }

  /** When no key repeats, the table holds exactly what arrived if and only if no (input, application) pair is split
      over two transactions. */
  lemma AllStoredIff<C(!new)>(bs: seq<seq<Output<C>>>)
    requires DistinctKeys(Concat(bs))
    ensures RunBatches(bs) == Some(TableOf(Concat(bs))) <==> NotSplit(bs)
  {
    BatchesStoreKept(bs);
    KeptIsPart(bs);
    AllKeptIff(bs);
    TableSize(Kept(bs));
    TableSize(Concat(bs));
  }
}
