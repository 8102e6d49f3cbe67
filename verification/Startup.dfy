/**
 Start-up: taking back the blocks of a branch that was abandoned while the node was down, and the first queue of
 wanted blocks.
 */
module Startup {
  import opened Wrappers
  import opened BlockDownload

  datatype Header = Header(prev: Hash, height: nat, time: nat)

  /** All known headers by their hash, and the hashes of the trunk by height. */
  datatype Chain = Chain(headers: map<Hash, Header>, trunk: seq<Hash>)

  /** The all-zero hash. It stands for "before the first block". */
  const NO_HASH: Hash := 0

  /** The trunk is a chain: each block has its place as height. */
  ghost predicate TrunkLinked(c: Chain) {
    && (forall i :: 0 <= i < |c.trunk| ==> c.trunk[i] in c.headers && c.headers[c.trunk[i]].height == i)
    && (c.trunk != [] ==> c.headers[c.trunk[0]].prev == NO_HASH)
    && (forall i :: 0 < i < |c.trunk| ==> Follows(c, i))
  }

  ghost predicate Follows(c: Chain, i: int)
    requires 0 < i < |c.trunk| && c.trunk[i] in c.headers
  {
    c.headers[c.trunk[i]].prev == c.trunk[i - 1]
  }

  /** Every branch leads down to the first block, which is on the trunk. */
  ghost predicate Rooted(c: Chain) {
    forall h {:trigger RootedAt(c, h)} :: h in c.headers ==> RootedAt(c, h)
  }

  ghost predicate RootedAt(c: Chain, h: Hash)
    requires h in c.headers
  {
    var x := c.headers[h];
    if x.height == 0 then c.trunk != [] && h == c.trunk[0] else x.prev in c.headers &&
                                                                c.headers[x.prev].height == x.height - 1
  }

  ghost predicate Consistent(c: Chain) {
    NO_HASH !in c.headers && TrunkLinked(c) && Rooted(c)
  }

  predicate OnTrunk(c: Chain, h: Hash) {
    h in c.headers && c.headers[h].height < |c.trunk| && c.trunk[c.headers[h].height] == h
  }

  /** A block is on the trunk exactly if the trunk lists it. */
  lemma OnTrunkIsListed(c: Chain, h: Hash)
    requires Consistent(c)
    ensures OnTrunk(c, h) <==> h in c.trunk
  {
    if h in c.trunk {
      var i :| 0 <= i < |c.trunk| && c.trunk[i] == h;
    }
  }

  /* ---------- the abandoned branch ---------- */

  /** The k-th ancestor of a block. */
  ghost function Up(c: Chain, h: Hash, k: nat): (a: Hash)
    requires Consistent(c) && h in c.headers && k <= c.headers[h].height
    ensures a in c.headers && c.headers[a].height == c.headers[h].height - k
  {
    if k == 0 then h
    else
      var child := Up(c, h, k - 1);
      assert RootedAt(c, child);
      c.headers[child].prev
  }

  /** The ancestors of a trunk block are on the trunk. */
  lemma TrunkGoesDown(c: Chain, h: Hash)
    requires Consistent(c) && h in c.headers && c.headers[h].height > 0 && OnTrunk(c, h)
    ensures OnTrunk(c, c.headers[h].prev)
  {
    assert Follows(c, c.headers[h].height);
  }

  /** The branch that was abandoned is cut where the first trunk ancestor is: below it there is only trunk. */
  lemma {:induction false} BelowIsTrunk(c: Chain, h: Hash, k: nat, j: nat)
    requires Consistent(c) && h in c.headers && k <= j <= c.headers[h].height && OnTrunk(c, Up(c, h, k))
    ensures OnTrunk(c, Up(c, h, j))
  {
    if k < j {
      BelowIsTrunk(c, h, k, j - 1);
      TrunkGoesDown(c, Up(c, h, j - 1));
    }
  }

  /**
   The blocks to take back, child first, and the trunk block they grew from. There is no answer if the last processed
   block is unknown, which stops the program.
   */
  method Rollback(c: Chain, processed: Hash) returns (r: Option<(seq<Hash>, Hash)>)
    requires Consistent(c)
    ensures r.None? <==> processed !in c.headers
    ensures r.Some? ==> |r.value.0| <= c.headers[processed].height && r.value.1 == Up(c, processed, |r.value.0|) &&
                        OnTrunk(c, r.value.1)
    ensures r.Some? ==> forall k :: 0 <= k < |r.value.0| ==> r.value.0[k] == Up(c, processed, k)
    ensures r.Some? ==> forall k :: 0 <= k <= c.headers[processed].height ==>
                                      (OnTrunk(c, Up(c, processed, k)) <==> k >= |r.value.0|)
  {
    if processed !in c.headers {
      return None;
    }
    var block, disconnected := processed, [];
    while !OnTrunk(c, block)
      invariant |disconnected| <= c.headers[processed].height && block == Up(c, processed, |disconnected|)
      invariant forall k :: 0 <= k < |disconnected| ==>
                              disconnected[k] == Up(c, processed, k) && !OnTrunk(c, Up(c, processed, k))
      decreases c.headers[block].height
    {
      assert RootedAt(c, block);
      disconnected := disconnected + [block];
      block := c.headers[block].prev;
    }
    forall k | |disconnected| <= k <= c.headers[processed].height ensures OnTrunk(c, Up(c, processed, k)) {
      BelowIsTrunk(c, processed, |disconnected|, k);
    }
    r := Some((disconnected, block));
  }

  /* ---------- the first wanted blocks ---------- */

  function Time(c: Chain, i: nat): nat
    requires TrunkLinked(c) && i < |c.trunk|
  {
    c.headers[c.trunk[i]].time
  }

  /** The trunk from height k to the tip. */
  function TrunkFrom(c: Chain, k: nat): seq<BlockRef>
    requires k <= |c.trunk|
  {
    seq(|c.trunk| - k, j requires 0 <= j < |c.trunk| - k => BlockRef(c.trunk[k + j], k + j))
  }

  /** There is something to download at all. */
  ghost predicate TipIsRecent(c: Chain, birth: nat)
    requires TrunkLinked(c)
  {
    c.trunk != [] && Time(c, |c.trunk| - 1) > birth
  }

  /** The way down from the tip ends before it takes the block at height i. */
  ghost predicate EndsBefore(c: Chain, stop: Hash, birth: nat, i: nat)
    requires TrunkLinked(c) && i < |c.trunk|
  {
    c.trunk[i] == stop || (i < |c.trunk| - 1 && Time(c, i) < birth)
  }

  /** The blocks from height k on are the ones wanted: the way down passes all of them and ends below them. */
  ghost predicate WantedFrom(c: Chain, stop: Hash, birth: nat, k: nat)
    requires TrunkLinked(c)
  {
    && k <= |c.trunk|
    && (forall i :: k <= i < |c.trunk| ==> !EndsBefore(c, stop, birth, i))
    && (if k == 0 then stop == NO_HASH else EndsBefore(c, stop, birth, k - 1))
  }

  /** The way down ends: at the start of the chain, at a trunk block, or at a block from before the birth. */
  ghost predicate Ends(c: Chain, stop: Hash, birth: nat)
    requires TrunkLinked(c)
  {
    TipIsRecent(c, birth) ==> stop == NO_HASH || exists i :: 0 <= i < |c.trunk| && EndsBefore(c, stop, birth, i)
  }

  ghost predicate IsQueue(c: Chain, stop: Hash, birth: nat, wanted: seq<BlockRef>)
    requires TrunkLinked(c)
  {
    if TipIsRecent(c, birth)
    then exists k :: WantedFrom(c, stop, birth, k) && wanted == TrunkFrom(c, k)
    else wanted == []
  }

  /** One round: a block at height k that does not end the way down is taken. */
  lemma OneDown(c: Chain, stop: Hash, birth: nat, k: nat)
    requires Consistent(c) && k < |c.trunk| && Ends(c, stop, birth) && TipIsRecent(c, birth)
    requires forall i :: k < i < |c.trunk| ==> !EndsBefore(c, stop, birth, i)
    requires c.trunk[k] != stop && (k < |c.trunk| - 1 ==> Time(c, k) >= birth)
    ensures forall i :: k <= i < |c.trunk| ==> !EndsBefore(c, stop, birth, i)
    ensures k == 0 ==> stop == NO_HASH
    ensures TrunkFrom(c, k) == [BlockRef(c.trunk[k], k)] + TrunkFrom(c, k + 1)
    ensures c.headers[c.trunk[k]].height == k
    ensures var prev := c.headers[c.trunk[k]].prev;
            && (k == 0 ==> prev == NO_HASH)
            && (k > 0 ==> prev == c.trunk[k - 1] && prev in c.headers && prev != NO_HASH)
            && (k > 0 ==> c.headers[prev].time == Time(c, k - 1))
  {
    assert !EndsBefore(c, stop, birth, k);
    assert k > 0 ==> Follows(c, k);
  }

  /** Collects the wanted blocks from the tip down to the last processed block or the birth. */
  method InitialQueue(c: Chain, processed: Option<Hash>, birth: nat) returns (wanted: seq<BlockRef>)
    requires Consistent(c) && Ends(c, if processed.Some? then processed.value else NO_HASH, birth)
    ensures IsQueue(c, if processed.Some? then processed.value else NO_HASH, birth, wanted)
  {
    wanted := [];
    if c.trunk == [] {
      return;
    }
    var tip := c.trunk[|c.trunk| - 1];
    if c.headers[tip].time > birth {
      var stop := if processed.Some? then processed.value else NO_HASH;
      var block, h := tip, tip;
      ghost var k := |c.trunk|;
      while block != stop
        invariant 0 <= k <= |c.trunk| && wanted == TrunkFrom(c, k)
        invariant k == 0 ==> block == NO_HASH == stop
        invariant k > 0 ==> block == h == c.trunk[k - 1] && (k < |c.trunk| ==> Time(c, k - 1) >= birth)
        invariant forall i :: k <= i < |c.trunk| ==> !EndsBefore(c, stop, birth, i)
        decreases k
      {
        k := k - 1;
        OneDown(c, stop, birth, k);
        wanted := [BlockRef(block, c.headers[h].height)] + wanted;
        block := c.headers[h].prev;
        if block != NO_HASH {
          h := block;
          if c.headers[h].time < birth {
            break;
          }
        }
      }
      assert WantedFrom(c, stop, birth, k);
    }
  }

  /**
   The first queue in plain terms: a trunk from some height to the tip, without the block looked for and without
   blocks from before the birth below the tip, and it starts at the first block of the chain, or right above the block
   looked for or a block from before the birth. There is none if the tip is not later than the birth.
   */
  lemma QueueInPlainTerms(c: Chain, stop: Hash, birth: nat, wanted: seq<BlockRef>)
    requires Consistent(c) && IsQueue(c, stop, birth, wanted)
    ensures c.trunk == [] || c.headers[c.trunk[|c.trunk| - 1]].time <= birth ==> wanted == []
    ensures c.trunk != [] && c.headers[c.trunk[|c.trunk| - 1]].time > birth ==>
              exists k :: 0 <= k <= |c.trunk| && |wanted| == |c.trunk| - k && PlainFrom(c, stop, birth, k, wanted)
  {
    if TipIsRecent(c, birth) {
      var k: nat :| WantedFrom(c, stop, birth, k) && wanted == TrunkFrom(c, k);
      forall i | 0 <= i < |wanted| ensures
          && wanted[i] == BlockRef(c.trunk[k + i], k + i) && wanted[i].hash != stop
          && (k + i < |c.trunk| - 1 ==> c.headers[wanted[i].hash].time >= birth)
      {
        assert !EndsBefore(c, stop, birth, k + i);
      }
      assert PlainFrom(c, stop, birth, k, wanted);
    }
  }

  ghost predicate PlainFrom(c: Chain, stop: Hash, birth: nat, k: nat, wanted: seq<BlockRef>)
    requires TrunkLinked(c) && k + |wanted| == |c.trunk|
  {
    && (forall i :: 0 <= i < |wanted| ==>
                      && wanted[i] == BlockRef(c.trunk[k + i], k + i) && wanted[i].hash != stop
                      && (k + i < |c.trunk| - 1 ==> c.headers[c.trunk[k + i]].time >= birth))
    && (k > 0 ==> c.trunk[k - 1] == stop || (k < |c.trunk| && c.headers[c.trunk[k - 1]].time < birth))
  }

  /* ---------- exactly when the way down ends ---------- */

  /** Where the loop is: the block to be taken next and the last header read. */
  datatype Walk = Walk(block: Hash, header: Hash)

  /** The loop after n rounds, if it still runs. */
  ghost function After(c: Chain, stop: Hash, birth: nat, n: nat): (w: Option<Walk>)
    requires Consistent(c) && c.trunk != []
    ensures w.Some? ==> w.value.header in c.headers
  {
    if n == 0 then Some(Walk(c.trunk[|c.trunk| - 1], c.trunk[|c.trunk| - 1]))
    else
      var before := After(c, stop, birth, n - 1);
      if before.None? || before.value.block == stop then None
      else
        var block := c.headers[before.value.header].prev;
        if block == NO_HASH || block !in c.headers then Some(Walk(block, before.value.header))
        else if c.headers[block].time < birth then None
        else Some(Walk(block, block))
  }

  /** While nothing ends the way down, round n is at the n-th trunk block below the tip. */
  lemma {:induction false} WalksDown(c: Chain, stop: Hash, birth: nat, n: nat)
    requires Consistent(c) && n < |c.trunk|
    requires forall i :: |c.trunk| - n <= i < |c.trunk| ==> !EndsBefore(c, stop, birth, i)
    requires n > 0 ==> Time(c, |c.trunk| - 1 - n) >= birth
    ensures After(c, stop, birth, n) == Some(Walk(c.trunk[|c.trunk| - 1 - n], c.trunk[|c.trunk| - 1 - n]))
  {
    if n > 0 {
      assert !EndsBefore(c, stop, birth, |c.trunk| - n);
      assert Follows(c, |c.trunk| - n);
      WalksDown(c, stop, birth, n - 1);
    }
  }

  /** Below the first block the loop repeats the same step. */
  lemma BelowFirst(c: Chain, stop: Hash, birth: nat, n: nat, block: Hash)
    requires Consistent(c) && c.trunk != [] && After(c, stop, birth, n) == Some(Walk(block, c.trunk[0])) &&
             block != stop
    ensures After(c, stop, birth, n + 1) == Some(Walk(NO_HASH, c.trunk[0]))
  {
  }

  /** If nothing ends the way down, the loop runs forever. */
  lemma {:induction false} NeverEnds(c: Chain, stop: Hash, birth: nat, n: nat)
    requires Consistent(c) && TipIsRecent(c, birth) && !Ends(c, stop, birth)
    ensures After(c, stop, birth, n).Some? && After(c, stop, birth, n).value.block != stop
    ensures n >= |c.trunk| - 1 ==> After(c, stop, birth, n).value.header == c.trunk[0]
  {
    if n < |c.trunk| {
      assert !EndsBefore(c, stop, birth, |c.trunk| - 1 - n);
      WalksDown(c, stop, birth, n);
    } else {
      NeverEnds(c, stop, birth, n - 1);
      BelowFirst(c, stop, birth, n - 1, After(c, stop, birth, n - 1).value.block);
    }
  }

  /** If blocks are wanted from height k, the loop ends one round after taking the last of them. */
  lemma EndsBelow(c: Chain, stop: Hash, birth: nat, k: nat)
    requires Consistent(c) && c.trunk != [] && WantedFrom(c, stop, birth, k)
    ensures After(c, stop, birth, |c.trunk| - k + 1) == None
  {
    var n := |c.trunk| - k;
    if k > 0 && (n == 0 || Time(c, k - 1) >= birth) {
      WalksDown(c, stop, birth, n);
    } else {
      assert n > 0 && !EndsBefore(c, stop, birth, k);
      WalksDown(c, stop, birth, n - 1);
      if k == 0 {
        BelowFirst(c, stop, birth, n - 1, c.trunk[0]);
      } else {
        assert Follows(c, k);
      }
    }
  }

  /** The loop ends if and only if something ends the way down. */
  lemma EndsExactly(c: Chain, stop: Hash, birth: nat)
    requires Consistent(c) && TipIsRecent(c, birth)
    ensures Ends(c, stop, birth) <==> exists n :: After(c, stop, birth, n) == None
  {
    if Ends(c, stop, birth) {
      EndsBelow(c, stop, birth, LowestWanted(c, stop, birth, |c.trunk|));
    } else {
      forall n: nat ensures After(c, stop, birth, n) != None {
        NeverEnds(c, stop, birth, n);
      }
    }
  }

  /** The height from which blocks are wanted. */
  ghost function LowestWanted(c: Chain, stop: Hash, birth: nat, k: nat): (low: nat)
    requires Consistent(c) && k <= |c.trunk|
    requires forall i :: k <= i < |c.trunk| ==> !EndsBefore(c, stop, birth, i)
    requires stop == NO_HASH || exists i :: 0 <= i < |c.trunk| && EndsBefore(c, stop, birth, i)
    ensures WantedFrom(c, stop, birth, low)
  {
    if k == 0 || EndsBefore(c, stop, birth, k - 1) then k else LowestWanted(c, stop, birth, k - 1)
  }

  lemma WantedFromOneHeight(c: Chain, stop: Hash, birth: nat, j: nat, k: nat)
    requires Consistent(c) && WantedFrom(c, stop, birth, j) && WantedFrom(c, stop, birth, k)
    ensures j == k
  {
  }

  /* ---------- the whole start-up ---------- */

  /**
   What start-up promises after blocks were taken back to the trunk block at height a: the trunk after that block, cut
   at the birth.
   */
  ghost predicate IsPromised(c: Chain, birth: nat, a: nat, wanted: seq<BlockRef>)
    requires Consistent(c) && a < |c.trunk|
  {
    IsQueue(c, c.trunk[a], birth, wanted)
  }

  /** A block at or above height a is from before the birth, and not the tip. */
  ghost predicate BirthIsAbove(c: Chain, birth: nat, a: nat)
    requires TrunkLinked(c)
  {
    exists i :: a <= i < |c.trunk| - 1 && Time(c, i) < birth
  }

  /**
   The queue is built with the block that was last processed, not with the trunk block it was taken back to. Start-up
   keeps its promise if and only if nothing was taken back, there is nothing to download, or the birth cuts the trunk
   above the abandoned branch anyway. Otherwise the loop never ends, or wants blocks again that the store has.
   */
  lemma StartupMeetsPromise(c: Chain, processed: Hash, birth: nat, d: nat)
    requires Consistent(c) && processed in c.headers && d <= c.headers[processed].height
    requires forall k :: 0 <= k <= c.headers[processed].height ==> (OnTrunk(c, Up(c, processed, k)) <==> k >= d)
    ensures var a := c.headers[processed].height - d;
            && a < |c.trunk|
            && ((Ends(c, processed, birth) && forall wanted :: IsQueue(c, processed, birth, wanted) ==>
                                                                 IsPromised(c, birth, a, wanted))
                <==> d == 0 || !TipIsRecent(c, birth) || BirthIsAbove(c, birth, a))
  {
    var a := c.headers[processed].height - d;
    assert OnTrunk(c, Up(c, processed, d)) && c.trunk[a] == Up(c, processed, d);
    if d == 0 {
      assert EndsBefore(c, processed, birth, a);
    } else if TipIsRecent(c, birth) {
      assert Up(c, processed, 0) == processed && !OnTrunk(c, processed);
      OffTrunk(c, processed, birth, a);
    }
  }

  /** An abandoned block ends no way down. */
  lemma OffTrunk(c: Chain, processed: Hash, birth: nat, a: nat)
    requires Consistent(c) && processed in c.headers && !OnTrunk(c, processed) && a < |c.trunk| && TipIsRecent(c, birth)
    ensures (Ends(c, processed, birth) && forall wanted :: IsQueue(c, processed, birth, wanted) ==>
                                                             IsPromised(c, birth, a, wanted))
       <==> BirthIsAbove(c, birth, a)
  {
    assert EndsBefore(c, c.trunk[a], birth, a);
    var promised := LowestWanted(c, c.trunk[a], birth, |c.trunk|);
    if BirthIsAbove(c, birth, a) {
      var i :| a <= i < |c.trunk| - 1 && Time(c, i) < birth;
      assert EndsBefore(c, processed, birth, i);
      forall k | WantedFrom(c, processed, birth, k) ensures WantedFrom(c, c.trunk[a], birth, k) {
        CutAbove(c, processed, birth, a, i, k);
      }
    } else if Ends(c, processed, birth) {
      var k := LowestWanted(c, processed, birth, |c.trunk|);
      assert IsQueue(c, processed, birth, TrunkFrom(c, k));
      assert k <= a < promised;
      forall j | WantedFrom(c, c.trunk[a], birth, j) ensures |TrunkFrom(c, j)| < |TrunkFrom(c, k)| {
        WantedFromOneHeight(c, c.trunk[a], birth, j, promised);
      }
    }
  }

  /** Where the birth cuts the trunk at or above height a, it does not matter which block the way down looks for. */
  lemma CutAbove(c: Chain, processed: Hash, birth: nat, a: nat, i: nat, k: nat)
    requires Consistent(c) && processed in c.headers && !OnTrunk(c, processed) && a <= i < |c.trunk| - 1 &&
             Time(c, i) < birth
    requires WantedFrom(c, processed, birth, k)
    ensures WantedFrom(c, c.trunk[a], birth, k)
  {
    assert EndsBefore(c, processed, birth, i);
    assert k > i;
    forall j | k <= j < |c.trunk| ensures !EndsBefore(c, c.trunk[a], birth, j) {
      assert !EndsBefore(c, processed, birth, j);
      assert c.headers[c.trunk[j]].height == j && c.headers[c.trunk[a]].height == a;
    }
  }

  /**
   A fork at the first block: block 3 was processed, the trunk went on with block 2, and no block is from before the
   birth. The trunk after the fork is block 2, but the loop runs forever.
   */
  lemma ForkAtFirstBlockHangs(n: nat)
    ensures var c := Chain(map[1 := Header(NO_HASH, 0, 5), 2 := Header(1, 1, 6), 3 := Header(1, 1, 6)], [1, 2]);
            && Consistent(c) && OnTrunk(c, 1) && !OnTrunk(c, 3) && c.headers[3].prev == 1
            && IsPromised(c, 4, 0, [BlockRef(2, 1)])
            && After(c, 3, 4, n) != None
  {
    var c := Chain(map[1 := Header(NO_HASH, 0, 5), 2 := Header(1, 1, 6), 3 := Header(1, 1, 6)], [1, 2]);
    assert TrunkFrom(c, 1) == [BlockRef(2, 1)];
    assert WantedFrom(c, c.trunk[0], 4, 1);
    NeverEnds(c, 3, 4, n);
  }
}
