/**
 Runs with reorganisations, and what a restart makes of a record that ran ahead.
 */
module ReorganisedRuns {
  import opened Wrappers
  import opened BlockDownload
  import opened DownloadRuns
  import Startup

  /* ---------- the trunk as the header database moves it ---------- */

  /** One answer takes back the last headers and adds those that became part of the trunk. */
  function AfterAnswer(trunk: seq<BlockRef>, r: Added): seq<BlockRef> {
    if r.Stored? && r.forwards.Some? then
      var keep := Minus(|trunk|, if r.unwinds.Some? then |r.unwinds.value| else 0);
      trunk[..keep] +
      seq(|r.forwards.value|, i requires 0 <= i < |r.forwards.value| => BlockRef(r.forwards.value[i], keep + i))
    else trunk
  }

  function AfterAnswers(trunk: seq<BlockRef>, results: seq<Added>, i: nat): seq<BlockRef>
    requires i <= |results|
  {
    if i == 0 then trunk else AfterAnswer(AfterAnswers(trunk, results, i - 1), results[i - 1])
  }

  function TrunkThen(trunk: seq<BlockRef>, h: seq<Event>, i: nat): seq<BlockRef>
    requires i <= |h|
  {
    if i == 0 then trunk
    else
      var before := TrunkThen(trunk, h, i - 1);
      if h[i - 1].NewHeaders? then AfterAnswers(before, h[i - 1].results, |h[i - 1].results|) else before
  }

  /** The headers stored among the first i answers. */
  function AllStored(results: seq<Added>, i: nat): seq<BlockRef>
    requires i <= |results|
  {
    if i == 0 then []
    else if results[i - 1].Stored? then AllStored(results, i - 1) + [results[i - 1].ref]
    else AllStored(results, i - 1)
  }

  ghost predicate AllLate(results: seq<Added>, birth: nat) {
    forall j :: 0 <= j < |results| && results[j].Stored? ==> results[j].time > birth
  }

  lemma {:induction false} StoredAreRecent(results: seq<Added>, birth: nat, n: nat)
    requires n <= |results| && AllLate(results, birth)
    ensures Recent(results, birth, n) == AllStored(results, n)
  {
    if n > 0 {
      StoredAreRecent(results, birth, n - 1);
    }
  }

  /** The stored headers have the heights that follow a base. */
  ghost predicate HeightsFrom(results: seq<Added>, base: nat, n: nat)
    requires n <= |results|
  {
    forall i :: 0 <= i < |AllStored(results, n)| ==> AllStored(results, n)[i].height == base + i
  }

  lemma HeightsOfFront(results: seq<Added>, base: nat, n: nat)
    requires 0 < n <= |results| && HeightsFrom(results, base, n)
    ensures HeightsFrom(results, base, n - 1)
    ensures results[n - 1].Stored? ==> results[n - 1].ref.height == base + |AllStored(results, n - 1)|
  {
    var front, all := AllStored(results, n - 1), AllStored(results, n);
    assert forall i :: 0 <= i < |front| ==> front[i] == all[i];
    if results[n - 1].Stored? {
      assert all[|front|] == results[n - 1].ref;
    }
  }

  lemma {:induction false} HeightsOfPrefix(results: seq<Added>, base: nat, i: nat, n: nat)
    requires i <= n <= |results| && HeightsFrom(results, base, n)
    ensures HeightsFrom(results, base, i)
  {
    if i < n {
      HeightsOfFront(results, base, n);
      HeightsOfPrefix(results, base, i, n - 1);
    }
  }

  /** Header j extends the trunk by itself. */
  ghost predicate ExtendsByOne(r: Added) {
    r.Stored? ==> r.unwinds.None? && r.forwards == Some([r.ref.hash])
  }

  lemma OneMoreOnTrunk(trunk: seq<BlockRef>, r: Added)
    requires ExtendsByOne(r) && (r.Stored? ==> r.ref.height == |trunk|)
    ensures AfterAnswer(trunk, r) == if r.Stored? then trunk + [r.ref] else trunk
  {
    if r.Stored? {
      assert trunk[..|trunk|] == trunk;
    }
  }

  /** Headers that extend the trunk one after the other are appended to it. */
  lemma {:induction false} TrunkExtended(trunk: seq<BlockRef>, results: seq<Added>, n: nat, from: nat,
                                         base: seq<BlockRef>)
    requires from <= n <= |results| && (forall j :: from <= j < n ==> ExtendsByOne(results[j]))
    requires AfterAnswers(trunk, results, from) == base + AllStored(results, from) && HeightsFrom(results, |base|, n)
    ensures AfterAnswers(trunk, results, n) == base + AllStored(results, n)
  {
    if from < n {
      HeightsOfFront(results, |base|, n);
      TrunkExtended(trunk, results, n - 1, from, base);
      OneMoreOnTrunk(AfterAnswers(trunk, results, n - 1), results[n - 1]);
      if results[n - 1].Stored? {
        Associates(base, AllStored(results, n - 1), [results[n - 1].ref]);
      }
    }
  }

  /** A message that only extends the trunk. */
  ghost predicate Extension(trunk: seq<BlockRef>, results: seq<Added>, birth: nat) {
    && AllLate(results, birth) && HeightsFrom(results, |trunk|, |results|)
    && forall j :: 0 <= j < |results| ==> ExtendsByOne(results[j])
  }

  lemma ExtensionOnTrack(q: Queues, results: seq<Added>, birth: nat, trunk: seq<BlockRef>, start: nat)
    requires IsTrunkFrom(q, trunk, start) && Extension(trunk, results, birth)
    ensures IsTrunkFrom(AfterHeaders(q, results, birth), AfterAnswers(trunk, results, |results|), start)
  {
    assert trunk + AllStored(results, 0) == trunk;
    TrunkExtended(trunk, results, |results|, 0, trunk);
    StoredAreRecent(results, birth, |results|);
    StepKeepsPipeline(q, NewHeaders(results), birth);
    assert (trunk + AllStored(results, |results|))[start..] == trunk[start..] + AllStored(results, |results|);
  }

  /* ---------- a reorganisation in one message ---------- */

  /**
   The message brings a whole new branch: its first headers are stored on the side, header k takes back the end of the
   trunk in favour of the branch, and the rest extends it.
   */
  ghost predicate WholeBranch(trunk: seq<BlockRef>, results: seq<Added>, birth: nat, k: nat) {
    && k < |results| && Reorganises(results[k]) && |results[k].unwinds.value| <= |trunk|
    && (forall j :: 0 <= j < k && results[j].Stored? ==> results[j].unwinds.None? && results[j].forwards.None?)
    && results[k].forwards == Some(Hashes(AllStored(results, k + 1)))
    && (forall j :: k < j < |results| ==> ExtendsByOne(results[j]))
    && AllLate(results, birth) && HeightsFrom(results, |trunk| - |results[k].unwinds.value|, |results|)
  }

  lemma {:induction false} SideStored(trunk: seq<BlockRef>, results: seq<Added>, birth: nat, k: nat, i: nat)
    requires WholeBranch(trunk, results, birth, k) && i <= k
    ensures AfterAnswers(trunk, results, i) == trunk
  {
    if i > 0 {
      SideStored(trunk, results, birth, k, i - 1);
    }
  }

  lemma BranchTrunk(trunk: seq<BlockRef>, results: seq<Added>, birth: nat, k: nat)
    requires WholeBranch(trunk, results, birth, k)
    ensures AfterAnswers(trunk, results, |results|) ==
            trunk[..|trunk| - |results[k].unwinds.value|] + AllStored(results, |results|)
  {
    var base := trunk[..|trunk| - |results[k].unwinds.value|];
    SideStored(trunk, results, birth, k, k);
    HeightsOfPrefix(results, |base|, k + 1, |results|);
    assert AfterAnswer(trunk, results[k]) == base + AllStored(results, k + 1);
    TrunkExtended(trunk, results, |results|, k + 1, base);
  }

  /** The reorganisation reaches only wanted blocks, or blocks of the store while nothing is asked for. */
  ghost predicate WithinReach(q: Queues, us: seq<Unwound>, birth: nat) {
    && Distinct(Pipeline(q)) && UnwindsLast(Pipeline(q), us) && (forall i :: 0 <= i < |us| ==> us[i].time > birth)
    && (q.asked == [] || |us| <= |q.wanted|)
  }

  lemma {:induction false} AllAreLate(us: seq<Unwound>, birth: nat, n: nat)
    requires n <= |us| && forall i :: 0 <= i < |us| ==> us[i].time > birth
    ensures Late(us, birth, n) == us[..n]
  {
    if n > 0 {
      AllAreLate(us, birth, n - 1);
    }
  }

  lemma BranchPipeline(q: Queues, trunk: seq<BlockRef>, results: seq<Added>, birth: nat, k: nat)
    requires WholeBranch(trunk, results, birth, k) && WithinReach(q, results[k].unwinds.value, birth)
    ensures Pipeline(AfterHeaders(q, results, birth)) ==
            Pipeline(q)[..|Pipeline(q)| - |results[k].unwinds.value|] + AllStored(results, |results|)
  {
    var us := results[k].unwinds.value;
    assert Late(us, birth, |us|) == us by {
      AllAreLate(us, birth, |us|);
      assert us[..|us|] == us;
    }
    StoredAreRecent(results, birth, |results|);
    ReorganisationInOneMessage(q, results, birth, k);
  }

  lemma BranchOnTrack(q: Queues, results: seq<Added>, birth: nat, trunk: seq<BlockRef>, start: nat, k: nat)
    requires IsTrunkFrom(q, trunk, start) && WholeBranch(trunk, results, birth, k)
    requires WithinReach(q, results[k].unwinds.value, birth)
    ensures IsTrunkFrom(AfterHeaders(q, results, birth), AfterAnswers(trunk, results, |results|), start)
  {
    var d := |results[k].unwinds.value|;
    BranchPipeline(q, trunk, results, birth, k);
    assert |Pipeline(q)| == |trunk| - start && d <= |Pipeline(q)|;
    BranchTrunk(trunk, results, birth, k);
    SliceOfBranch(trunk, start, d, AllStored(results, |results|));
  }

  lemma SliceOfBranch(trunk: seq<BlockRef>, start: nat, d: nat, branch: seq<BlockRef>)
    requires start <= |trunk| && d <= |trunk| - start
    ensures (trunk[..|trunk| - d] + branch)[start..] == trunk[start..][..|trunk| - start - d] + branch
  {
  }

  /* ---------- whole runs ---------- */

  /** The event moves blocks along, extends the trunk, or reorganises it in one message and within reach. */
  ghost predicate Smooth(q: Queues, e: Event, trunk: seq<BlockRef>, birth: nat) {
    e.NewHeaders? ==>
      || Extension(trunk, e.results, birth)
      || exists k: nat :: WholeBranch(trunk, e.results, birth, k) && WithinReach(q, e.results[k].unwinds.value, birth)
  }

  lemma SmoothStep(q: Queues, e: Event, birth: nat, trunk: seq<BlockRef>, start: nat)
    requires IsTrunkFrom(q, trunk, start) && Smooth(q, e, trunk, birth)
    ensures IsTrunkFrom(Apply(q, e, birth),
                        if e.NewHeaders? then AfterAnswers(trunk, e.results, |e.results|) else trunk, start)
  {
    if !e.NewHeaders? {
      StepKeepsPipeline(q, e, birth);
    } else if Extension(trunk, e.results, birth) {
      ExtensionOnTrack(q, e.results, birth, trunk, start);
    } else {
      var k: nat :| WholeBranch(trunk, e.results, birth, k) && WithinReach(q, e.results[k].unwinds.value, birth);
      BranchOnTrack(q, e.results, birth, trunk, start, k);
    }
  }

  /**
   In every run, reorganisations included, the blocks delivered and not taken back, asked for and wanted are the trunk
   from the first block to process to the tip, as long as each reorganisation arrives in one message and is within
   reach.
   */
  lemma {:induction false} SmoothRunsFollowTrunk(states: seq<Queues>, h: seq<Event>, birth: nat, trunk: seq<BlockRef>,
                                                 start: nat, n: nat)
    requires Run(states, h, birth) && n <= |h| && IsTrunkFrom(states[0], trunk, start)
    requires forall j :: 0 <= j < n ==> Smooth(states[j], h[j], TrunkThen(trunk, h, j), birth)
    ensures IsTrunkFrom(states[n], TrunkThen(trunk, h, n), start)
  {
    if n > 0 {
      SmoothRunsFollowTrunk(states, h, birth, trunk, start, n - 1);
      assert Smooth(states[n - 1], h[n - 1], TrunkThen(trunk, h, n - 1), birth);
      SmoothStep(states[n - 1], h[n - 1], birth, TrunkThen(trunk, h, n - 1), start);
    }
  }

  /* ---------- a restart after the record ran ahead ---------- */

  /** The first queue after a restart holds no trunk block up to the one recorded as processed. */
  lemma RestartSkips(c: Startup.Chain, birth: nat, j: nat, i: nat, wanted: seq<BlockRef>)
    requires Startup.Consistent(c) && i <= j < |c.trunk| && Startup.IsQueue(c, c.trunk[j], birth, wanted)
    ensures forall n :: 0 <= n < |wanted| ==> wanted[n].hash != c.trunk[i]
  {
    if Startup.TipIsRecent(c, birth) {
      var k: nat :| Startup.WantedFrom(c, c.trunk[j], birth, k) && wanted == Startup.TrunkFrom(c, k);
      assert Startup.EndsBefore(c, c.trunk[j], birth, j);
      assert k > j;
      forall n | 0 <= n < |wanted| ensures wanted[n].hash != c.trunk[i] {
        assert wanted[n] == BlockRef(c.trunk[k + n], k + n);
        assert c.headers[c.trunk[k + n]].height == k + n && c.headers[c.trunk[i]].height == i;
      }
    }
  }

  /**
   If a reorganisation takes back fewer blocks than are wanted and asked for, and the node restarts, the blocks that
   stay on the trunk behind those the store has are never wanted again: there are some, and the store never gets them.
   */
  lemma RestartLosesBlocks(q: Queues, us: seq<Unwound>, birth: nat, c: Startup.Chain, base: nat, wanted: seq<BlockRef>)
    requires var p, late := Pipeline(q), Late(us, birth, |us|);
             && Distinct(p) && UnwindsLast(p, late) && q.done != [] && 0 < |late| < |q.wanted| + |q.asked|
             && Startup.Consistent(c) && base + |p| - |late| <= |c.trunk|
             && (forall i :: 0 <= i < |p| - |late| ==> c.trunk[base + i] == p[i].hash)
             && TakenBackAll(q, us, birth, |us|).processed.Some?
             && Startup.IsQueue(c, TakenBackAll(q, us, birth, |us|).processed.value, birth, wanted)
    ensures var p, d := Pipeline(q), |Late(us, birth, |us|)|;
            && |TakenBackAll(q, us, birth, |us|).done| < |p| - d
            && forall i, n :: |TakenBackAll(q, us, birth, |us|).done| <= i < |p| - d && 0 <= n < |wanted| ==>
                                wanted[n].hash != p[i].hash
  {
    RecordedAhead(q, us, birth);
    SkipsUpTo(c, birth, Pipeline(q), |Pipeline(q)| - |Late(us, birth, |us|)|, base, wanted);
  }

  lemma SkipsUpTo(c: Startup.Chain, birth: nat, p: seq<BlockRef>, n: nat, base: nat, wanted: seq<BlockRef>)
    requires Startup.Consistent(c) && 0 < n <= |p| && base + n <= |c.trunk|
    requires forall i :: 0 <= i < n ==> c.trunk[base + i] == p[i].hash
    requires Startup.IsQueue(c, p[n - 1].hash, birth, wanted)
    ensures forall i, k :: 0 <= i < n && 0 <= k < |wanted| ==> wanted[k].hash != p[i].hash
  {
    assert c.trunk[base + (n - 1)] == p[n - 1].hash;
    forall i, k | 0 <= i < n && 0 <= k < |wanted| ensures wanted[k].hash != p[i].hash {
      assert c.trunk[base + i] == p[i].hash;
      RestartSkips(c, birth, base + (n - 1), base + i, wanted);
    }
  }

  lemma RecordedAhead(q: Queues, us: seq<Unwound>, birth: nat)
    requires var late := Late(us, birth, |us|);
             UnwindsLast(Pipeline(q), late) && Distinct(Pipeline(q)) && q.done != [] &&
             0 < |late| < |q.wanted| + |q.asked|
    ensures var r, p, d := TakenBackAll(q, us, birth, |us|), Pipeline(q), |Late(us, birth, |us|)|;
            r.done == q.done && r.processed == Some(p[|p| - d - 1].hash)
  {
    var late := Late(us, birth, |us|);
    OnlyLateCount(q, us, birth, |us|);
    TakeBackShortens(q, late, birth);
    assert q.done[..|q.done|] == q.done;
    assert late[|late| - 1].prev == Pipeline(q)[|Pipeline(q)| - 2 - (|late| - 1)].hash;
  }
}
