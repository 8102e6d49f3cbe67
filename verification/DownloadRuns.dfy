/**
 What the download queues keep over whole runs, and exactly when a reorganisation leaves them right.
 */
module DownloadRuns {
  import opened Wrappers
  import opened BlockDownload

  datatype Event =
    | PeerLost
    | Ask
    | Arrive(hash: Hash)
    | NewHeaders(results: seq<Added>)

  function Apply(q: Queues, e: Event, birth: nat): Queues {
    match e
    case PeerLost => Lost(q)
    case Ask => AskedMore(q)
    case Arrive(hash) => Arrived(q, hash)
    case NewHeaders(results) => AfterHeaders(q, results, birth)
  }

  ghost predicate Run(states: seq<Queues>, h: seq<Event>, birth: nat) {
    && |states| == |h| + 1
    && forall i :: 0 <= i < |h| ==> states[i + 1] == Apply(states[i], h[i], birth)
  }

  ghost predicate NoReorganisation(results: seq<Added>) {
    forall i :: 0 <= i < |results| ==> !Reorganises(results[i])
  }

  /** Headers that only extend the chain are appended to the wanted blocks. */
  lemma ExtensionAppends(q: Queues, results: seq<Added>, birth: nat)
    requires NoReorganisation(results)
    ensures AfterHeaders(q, results, birth) == q.(wanted := q.wanted + Recent(results, birth, |results|))
  {
  }

  /** The blocks an event announces. */
  function News(e: Event, birth: nat): seq<BlockRef> {
    match e
    case PeerLost => []
    case Ask => []
    case Arrive(_) => []
    case NewHeaders(results) => Recent(results, birth, |results|)
  }

  /** The blocks announced by the first i events. */
  function Announced(h: seq<Event>, birth: nat, i: nat): seq<BlockRef>
    requires i <= |h|
  {
    if i == 0 then [] else Announced(h, birth, i - 1) + News(h[i - 1], birth)
  }

  ghost predicate Extends(e: Event) {
    e.NewHeaders? ==> NoReorganisation(e.results)
  }

  /**
   Losing a peer, asking and receiving move blocks along the pipeline without losing, repeating or reordering any,
   and headers that extend the chain are appended.
   */
  lemma StepKeepsPipeline(q: Queues, e: Event, birth: nat)
    requires Extends(e)
    ensures Pipeline(Apply(q, e, birth)) == Pipeline(q) + News(e, birth)
    ensures q.done <= Apply(q, e, birth).done
  {
    match e {
      case PeerLost =>
      case Ask =>
        var k := Least(BATCH, |q.wanted|);
        assert q.wanted[..k] + q.wanted[k..] == q.wanted;
      case Arrive(hash) =>
        assert q.asked != [] ==> [q.asked[0]] + q.asked[1..] == q.asked;
      case NewHeaders(results) =>
        ExtensionAppends(q, results, birth);
        Associates(q.done + q.asked, q.wanted, News(e, birth));
    }
  }

  lemma Associates(a: seq<BlockRef>, b: seq<BlockRef>, c: seq<BlockRef>)
    ensures a + (b + c) == (a + b) + c
  {
  }

  lemma DoneComesFirst(q: Queues)
    ensures q.done <= Pipeline(q)
  {
  }

  /**
   In every run without reorganisation, whatever peers come and go and whatever they answer, the blocks
   given to the store, asked for and wanted are the initial ones followed by those announced, in order.
   */
  lemma {:induction false} PipelineIsAnnounced(states: seq<Queues>, h: seq<Event>, birth: nat, i: nat)
    requires Run(states, h, birth) && i <= |h| && forall j :: 0 <= j < |h| ==> Extends(h[j])
    ensures Pipeline(states[i]) == Pipeline(states[0]) + Announced(h, birth, i)
  {
    if i > 0 {
      PipelineIsAnnounced(states, h, birth, i - 1);
      var q, e := states[i - 1], h[i - 1];
      StepAnnounces(q, e, states[i], birth, Pipeline(states[0]), Announced(h, birth, i - 1));
    }
  }

  lemma StepAnnounces(q: Queues, e: Event, r: Queues, birth: nat, first: seq<BlockRef>, announced: seq<BlockRef>)
    requires Extends(e) && r == Apply(q, e, birth) && Pipeline(q) == first + announced
    ensures Pipeline(r) == first + (announced + News(e, birth))
  {
    StepKeepsPipeline(q, e, birth);
    Associates(first, announced, News(e, birth));
  }

  /** So the store has received a prefix of that sequence, each block once, and never loses one. */
  lemma {:induction false} BlocksArriveInOrder(states: seq<Queues>, h: seq<Event>, birth: nat, i: nat)
    requires Run(states, h, birth) && i <= |h| && forall j :: 0 <= j < |h| ==> Extends(h[j])
    ensures states[i].done <= Pipeline(states[0]) + Announced(h, birth, i)
    ensures i > 0 ==> states[i - 1].done <= states[i].done
  {
    PipelineIsAnnounced(states, h, birth, i);
    DoneComesFirst(states[i]);
    if i > 0 {
      StepKeepsPipeline(states[i - 1], h[i - 1], birth);
    }
  }

  /* ---------- what arrives ---------- */

  /** The block is the one expected next. */
  predicate IsNext(q: Queues, hash: Hash) {
    q.asked != [] && q.asked[0].hash == hash
  }

  /**
   An arriving block is given to the store if and only if it is the one expected next. Then it is the last one
   delivered and the one recorded, and otherwise nothing changes.
   */
  lemma ArriveExactly(q: Queues, hash: Hash, birth: nat)
    ensures var r := Apply(q, Arrive(hash), birth);
            && (|r.done| > |q.done| <==> q.asked != [] && q.asked[0].hash == hash)
            && (|r.done| > |q.done| ==>
                  && r.done == q.done + [q.asked[0]] && r.asked == q.asked[1..] && r.wanted == q.wanted
                  && r.done[|q.done|].hash == hash && r.processed == Some(hash))
            && (|r.done| <= |q.done| ==> r == q)
  {
  }

  function Hashes(refs: seq<BlockRef>): seq<Hash> {
    seq(|refs|, i requires 0 <= i < |refs| => refs[i].hash)
  }

  /** The hashes of those among the first i events that bring the block expected next. */
  ghost function Accepted(states: seq<Queues>, h: seq<Event>, i: nat): seq<Hash>
    requires i <= |h| && i <= |states|
  {
    if i == 0 then []
    else if h[i - 1].Arrive? && IsNext(states[i - 1], h[i - 1].hash)
    then Accepted(states, h, i - 1) + [h[i - 1].hash]
    else Accepted(states, h, i - 1)
  }

  /** The record is the last block delivered since a state, or what it was then. */
  ghost predicate RecordIsLast(first: Queues, q: Queues) {
    && |first.done| <= |q.done|
    && q.processed == if |q.done| == |first.done| then first.processed else Some(q.done[|q.done| - 1].hash)
  }

  lemma StepDelivers(first: Queues, q: Queues, e: Event, birth: nat)
    requires Extends(e) && RecordIsLast(first, q)
    ensures var r := Apply(q, e, birth);
            && RecordIsLast(first, r)
            && r.done == if e.Arrive? && IsNext(q, e.hash) then q.done + [q.asked[0]] else q.done
  {
    match e {
      case PeerLost =>
      case Ask =>
      case Arrive(hash) => ArriveExactly(q, hash, birth);
      case NewHeaders(results) => ExtensionAppends(q, results, birth);
    }
  }

  /**
   In every run without reorganisation the record is the last block the store was given, and the store was given
   exactly the blocks that arrived when they were expected, in the order in which they arrived.
   */
  lemma {:induction false} DeliveredAsArrived(states: seq<Queues>, h: seq<Event>, birth: nat, i: nat)
    requires Run(states, h, birth) && i <= |h| && forall j :: 0 <= j < |h| ==> Extends(h[j])
    ensures RecordIsLast(states[0], states[i]) && states[0].done <= states[i].done
    ensures Hashes(states[i].done) == Hashes(states[0].done) + Accepted(states, h, i)
  {
    if i > 0 {
      DeliveredAsArrived(states, h, birth, i - 1);
      var q, e := states[i - 1], h[i - 1];
      assert states[i] == Apply(q, e, birth);
      StepDelivers(states[0], q, e, birth);
      if e.Arrive? && IsNext(q, e.hash) {
        assert Hashes(q.done + [q.asked[0]]) == Hashes(q.done) + [e.hash];
      }
    }
  }

  /* ---------- what is asked for ---------- */

  /**
   The first wanted blocks are asked for, a thousand of them or all if there are fewer, behind those asked for
   before.
   */
  lemma AskExactly(q: Queues)
    ensures var r, k := AskedMore(q), if |q.wanted| < 1000 then |q.wanted| else 1000;
            r == q.(asked := q.asked + q.wanted[..k], wanted := q.wanted[k..])
  {
  }

  /** The first i of a list of blocks arrive one after the other. */
  function ArriveAll(q: Queues, hashes: seq<Hash>, i: nat): Queues
    requires i <= |hashes|
  {
    if i == 0 then q else Arrived(ArriveAll(q, hashes, i - 1), hashes[i - 1])
  }

  /** A request that is answered block by block in its order delivers all blocks asked for. */
  lemma {:induction false} AnswersDeliver(q: Queues, i: nat)
    requires q.asked != [] && Request(q).Some? && i <= |Request(q).value|
    ensures |Request(q).value| == |q.asked|
    ensures var r := ArriveAll(q, Request(q).value, i);
            && r.done == q.done + q.asked[..i] && r.asked == q.asked[i..] && r.wanted == q.wanted
            && (i > 0 ==> r.processed == Some(q.asked[i - 1].hash))
  {
    if i > 0 {
      AnswersDeliver(q, i - 1);
      assert q.asked[i - 1..][0] == q.asked[i - 1] && q.asked[i - 1..][1..] == q.asked[i..];
      assert q.asked[..i] == q.asked[..i - 1] + [q.asked[i - 1]];
    }
  }

  /** One round of asking and answering. */
  function Served(q: Queues): Queues {
    var a := AskedMore(q);
    if Request(a).None? then a else ArriveAll(a, Request(a).value, |Request(a).value|)
  }

  function ServedTimes(q: Queues, n: nat): Queues {
    if n == 0 then q else Served(ServedTimes(q, n - 1))
  }

  lemma ServedDelivers(q: Queues)
    requires q.asked == []
    ensures var k := if |q.wanted| < 1000 then |q.wanted| else 1000;
            Served(q).done == q.done + q.wanted[..k] && Served(q).asked == [] && Served(q).wanted == q.wanted[k..]
  {
    AskExactly(q);
    var a := AskedMore(q);
    if a.asked != [] {
      AnswersDeliver(a, |a.asked|);
      assert a.asked[..|a.asked|] == a.asked;
    }
  }

  /** How many of the wanted blocks n rounds ask for. */
  function Upto(wanted: nat, n: nat): nat {
    if wanted < 1000 * n then wanted else 1000 * n
  }

  lemma Slices<T>(w: seq<T>, j: nat, k: nat)
    requires j <= k <= |w|
    ensures w[j..][..k - j] == w[j..k] && w[j..][k - j..] == w[k..] && w[..j] + w[j..k] == w[..k]
  {
  }

  /**
   With a peer that answers, n rounds deliver the first thousand times n wanted blocks, so all are delivered in the
   end.
   */
  lemma {:induction false} RoundsDeliver(q: Queues, n: nat)
    requires q.asked == []
    ensures Upto(|q.wanted|, n) == if |q.wanted| < 1000 * n then |q.wanted| else 1000 * n
    ensures var r, k := ServedTimes(q, n), Upto(|q.wanted|, n);
            r.done == q.done + q.wanted[..k] && r.asked == [] && r.wanted == q.wanted[k..]
  {
    if n > 0 {
      RoundsDeliver(q, n - 1);
      var before := ServedTimes(q, n - 1);
      ServedDelivers(before);
      var j, k := Upto(|q.wanted|, n - 1), Upto(|q.wanted|, n);
      assert k - j == if |before.wanted| < 1000 then |before.wanted| else 1000;
      Slices(q.wanted, j, k);
    }
  }

  /* ---------- exactly when the pipeline is the trunk ---------- */

  /** The headers among the first i answers that became part of the trunk. */
  function Moved(results: seq<Added>, i: nat): seq<BlockRef>
    requires i <= |results|
  {
    if i == 0 then []
    else if results[i - 1].Stored? && results[i - 1].forwards.Some? then Moved(results, i - 1) + [results[i - 1].ref]
    else Moved(results, i - 1)
  }

  /** What an event adds to the trunk, if it takes nothing back. */
  function Gain(e: Event): seq<BlockRef> {
    if e.NewHeaders? then Moved(e.results, |e.results|) else []
  }

  /** The trunk after the first i events. */
  function TrunkAfter(trunk: seq<BlockRef>, h: seq<Event>, i: nat): seq<BlockRef>
    requires i <= |h|
  {
    if i == 0 then trunk else TrunkAfter(trunk, h, i - 1) + Gain(h[i - 1])
  }

  /** The database stores a header once. */
  ghost predicate StoresOnce(results: seq<Added>) {
    forall i, j :: 0 <= i < j < |results| && results[i].Stored? && results[j].Stored? ==>
                     results[i].ref != results[j].ref
  }

  /** A stored header is later than the birth exactly if it moved the tip. */
  ghost predicate LateIffMoved(results: seq<Added>, birth: nat, n: nat)
    requires n <= |results|
  {
    forall j :: 0 <= j < n && results[j].Stored? ==> (results[j].time > birth <==> results[j].forwards.Some?)
  }

  lemma {:induction false} RecentFrom(results: seq<Added>, birth: nat, n: nat, x: BlockRef)
    requires n <= |results| && x in Recent(results, birth, n)
    ensures exists j :: 0 <= j < n && results[j].Stored? && results[j].ref == x
  {
    if x in Recent(results, birth, n - 1) {
      RecentFrom(results, birth, n - 1, x);
    } else {
      assert results[n - 1].ref == x;
    }
  }

  lemma {:induction false} MovedFrom(results: seq<Added>, n: nat, x: BlockRef)
    requires n <= |results| && x in Moved(results, n)
    ensures exists j :: 0 <= j < n && results[j].Stored? && results[j].ref == x
  {
    if x in Moved(results, n - 1) {
      MovedFrom(results, n - 1, x);
    } else {
      assert results[n - 1].ref == x;
    }
  }

  /** A header that is stored now was not stored before. */
  lemma LastIsNew(results: seq<Added>, birth: nat, n: nat)
    requires StoresOnce(results) && 0 < n <= |results| && results[n - 1].Stored?
    ensures results[n - 1].ref !in Recent(results, birth, n - 1) && results[n - 1].ref !in Moved(results, n - 1)
  {
    var x := results[n - 1].ref;
    if x in Recent(results, birth, n - 1) {
      RecentFrom(results, birth, n - 1, x);
    }
    if x in Moved(results, n - 1) {
      MovedFrom(results, n - 1, x);
    }
  }

  /**
   The news of a message is what it adds to the trunk if and only if its late headers are those that moved the tip.
   */
  lemma {:induction false} NewsIsGain(results: seq<Added>, birth: nat, n: nat)
    requires StoresOnce(results) && n <= |results|
    ensures Recent(results, birth, n) == Moved(results, n) <==> LateIffMoved(results, birth, n)
  {
    if n > 0 {
      NewsIsGain(results, birth, n - 1);
      var r, a, b := results[n - 1], Recent(results, birth, n - 1), Moved(results, n - 1);
      if r.Stored? {
        LastIsNew(results, birth, n);
        AppendedAlike(a, b, r.ref, r.time > birth, r.forwards.Some?);
      }
      assert LateIffMoved(results, birth, n) <==>
             LateIffMoved(results, birth, n - 1) && (r.Stored? ==> (r.time > birth <==> r.forwards.Some?));
    }
  }

  lemma AppendedAlike(a: seq<BlockRef>, b: seq<BlockRef>, x: BlockRef, toA: bool, toB: bool)
    requires x !in a && x !in b
    ensures (if toA then a + [x] else a) == (if toB then b + [x] else b) <==> a == b && toA == toB
  {
    if toA && toB {
      assert a + [x] == b + [x] ==> a == (a + [x])[..|a|] == (b + [x])[..|b|] == b;
    } else if toA {
      assert (a + [x])[|a|] == x;
    } else if toB {
      assert (b + [x])[|b|] == x;
    }
  }

  ghost predicate IsTrunkFrom(q: Queues, trunk: seq<BlockRef>, start: nat) {
    start <= |trunk| && Pipeline(q) == trunk[start..]
  }

  /** The event keeps the pipeline on the trunk. */
  ghost predicate OnTrack(e: Event, birth: nat) {
    e.NewHeaders? ==> LateIffMoved(e.results, birth, |e.results|)
  }

  lemma StepOnTrack(q: Queues, e: Event, birth: nat, trunk: seq<BlockRef>, start: nat)
    requires Extends(e) && IsTrunkFrom(q, trunk, start) && (e.NewHeaders? ==> StoresOnce(e.results))
    ensures IsTrunkFrom(Apply(q, e, birth), trunk + Gain(e), start) <==> OnTrack(e, birth)
  {
    StepKeepsPipeline(q, e, birth);
    if e.NewHeaders? {
      NewsIsGain(e.results, birth, |e.results|);
    }
    var p, news, gain := trunk[start..], News(e, birth), Gain(e);
    assert (trunk + gain)[start..] == p + gain;
    assert p + news == p + gain ==> news == (p + news)[|p|..] == (p + gain)[|p|..] == gain;
  }

  /** The pipeline is the trunk from the start up to the tip in each of the first n + 1 states. */
  ghost predicate TrunkThroughout(states: seq<Queues>, h: seq<Event>, trunk: seq<BlockRef>, start: nat, n: nat)
    requires n <= |h| < |states|
  {
    forall i: nat :: i <= n ==> IsTrunkFrom(states[i], TrunkAfter(trunk, h, i), start)
  }

  ghost predicate AllOnTrack(h: seq<Event>, birth: nat, n: nat)
    requires n <= |h|
  {
    forall j :: 0 <= j < n ==> OnTrack(h[j], birth)
  }

  /** The event takes nothing back, and its headers are stored for the first time. */
  ghost predicate Regular(e: Event) {
    Extends(e) && (e.NewHeaders? ==> StoresOnce(e.results))
  }

  /**
   In every run without reorganisation the pipeline stays the trunk from the first block to process up to the tip if
   and only if in every message the headers later than the birth are exactly those that moved the tip.
   */
  lemma {:induction false} PipelineIsTrunk(states: seq<Queues>, h: seq<Event>, birth: nat, trunk: seq<BlockRef>,
                                           start: nat, n: nat)
    requires Run(states, h, birth) && n <= |h| && IsTrunkFrom(states[0], trunk, start)
    requires forall j :: 0 <= j < |h| ==> Regular(h[j])
    ensures TrunkThroughout(states, h, trunk, start, n) <==> AllOnTrack(h, birth, n)
  {
    if n > 0 {
      PipelineIsTrunk(states, h, birth, trunk, start, n - 1);
      ThroughoutSplits(states, h, birth, trunk, start, n);
      if TrunkThroughout(states, h, trunk, start, n - 1) {
        assert IsTrunkFrom(states[n - 1], TrunkAfter(trunk, h, n - 1), start);
        NextOnTrack(states[n - 1], h[n - 1], states[n], birth, TrunkAfter(trunk, h, n - 1), start);
      }
    }
  }

  lemma ThroughoutSplits(states: seq<Queues>, h: seq<Event>, birth: nat, trunk: seq<BlockRef>, start: nat, n: nat)
    requires 0 < n <= |h| < |states|
    ensures TrunkThroughout(states, h, trunk, start, n) <==>
            TrunkThroughout(states, h, trunk, start, n - 1) && IsTrunkFrom(states[n], TrunkAfter(trunk, h, n), start)
    ensures AllOnTrack(h, birth, n) <==> AllOnTrack(h, birth, n - 1) && OnTrack(h[n - 1], birth)
  {
  }

  lemma NextOnTrack(q: Queues, e: Event, r: Queues, birth: nat, trunk: seq<BlockRef>, start: nat)
    requires Regular(e) && r == Apply(q, e, birth) && IsTrunkFrom(q, trunk, start)
    ensures IsTrunkFrom(r, trunk + Gain(e), start) <==> OnTrack(e, birth)
  {
    StepOnTrack(q, e, birth, trunk, start);
  }

  /** Blocks stand at their heights. */
  ghost predicate Heights(trunk: seq<BlockRef>) {
    forall k :: 0 <= k < |trunk| ==> trunk[k].height == k
  }

  /** Then blocks reach the store in the order of their heights, without a gap. */
  lemma DeliveredByHeight(q: Queues, trunk: seq<BlockRef>, start: nat, k: nat)
    requires IsTrunkFrom(q, trunk, start) && Heights(trunk) && k < |q.done|
    ensures q.done[k].height == start + k
  {
    assert q.done[k] == Pipeline(q)[k] == trunk[start + k];
  }

  /**
   A header stored on a side branch is wanted, though the trunk does not move: two blocks of one height are on their
   way.
   */
  lemma SideBranchIsWanted()
    ensures var trunk := [BlockRef(10, 0), BlockRef(11, 1), BlockRef(12, 2)];
            var q := Queues([], [], [BlockRef(12, 2)], Some(11));
            var e := NewHeaders([Stored(BlockRef(13, 2), 9, None, None)]);
            && IsTrunkFrom(q, trunk, 2) && Gain(e) == [] && Apply(q, e, 5).wanted == [BlockRef(12, 2), BlockRef(13, 2)]
            && !OnTrack(e, 5)
  {
    var q, results := Queues([], [], [BlockRef(12, 2)], Some(11)), [Stored(BlockRef(13, 2), 9, None, None)];
    ExtensionAppends(q, results, 5);
    assert Recent(results, 5, 1) == [BlockRef(13, 2)];
    assert Moved(results, 1) == [];
    assert results[0].Stored?;
  }

  /* ---------- reorganisations ---------- */

  ghost predicate Distinct(p: seq<BlockRef>) {
    forall i, j :: 0 <= i < j < |p| ==> p[i].hash != p[j].hash
  }

  /** The headers among the first i that are later than the birth; blocks of earlier ones were never wanted. */
  function Late(us: seq<Unwound>, birth: nat, i: nat): (late: seq<Unwound>)
    requires i <= |us|
    ensures forall k :: 0 <= k < |late| ==> late[k].time > birth
  {
    if i == 0 then []
    else if us[i - 1].time > birth then Late(us, birth, i - 1) + [us[i - 1]]
    else Late(us, birth, i - 1)
  }

  /** Headers that are not later than the birth are passed over. */
  lemma {:induction false} OnlyLateCount(q: Queues, us: seq<Unwound>, birth: nat, i: nat)
    requires i <= |us|
    ensures TakenBackAll(q, us, birth, i) == TakenBackAll(q, Late(us, birth, i), birth, |Late(us, birth, i)|)
  {
    if i > 0 {
      OnlyLateCount(q, us, birth, i - 1);
      if us[i - 1].time > birth {
        var before := Late(us, birth, i - 1);
        LaterOnesDoNotMatter(q, before, us[i - 1], birth, |before|);
      }
    }
  }

  lemma {:induction false} LaterOnesDoNotMatter(q: Queues, us: seq<Unwound>, u: Unwound, birth: nat, i: nat)
    requires i <= |us|
    ensures TakenBackAll(q, us + [u], birth, i) == TakenBackAll(q, us, birth, i)
  {
    if i > 0 {
      LaterOnesDoNotMatter(q, us, u, birth, i - 1);
    }
  }

  /** The headers taken back are the last of the pipeline, last first, and each names its predecessor. */
  ghost predicate UnwindsLast(p: seq<BlockRef>, us: seq<Unwound>) {
    && |us| <= |p|
    && (forall i :: 0 <= i < |us| ==> us[i].hash == p[|p| - 1 - i].hash)
    && (forall i :: 0 <= i < |us| && i + 1 < |p| ==> us[i].prev == p[|p| - 2 - i].hash)
  }

  function Minus(a: nat, b: nat): nat {
    if a < b then 0 else a - b
  }

  /** How many blocks of the store are left when i headers are taken back. */
  function DoneLeft(q: Queues, i: nat): nat {
    Minus(|q.done|, Minus(i, |q.wanted| + |q.asked|))
  }

  /** Header i undoes a block of the store exactly when all blocks wanted and asked for were taken back before it. */
  ghost predicate UndoesInTurn(q: Queues, us: seq<Unwound>, i: nat)
    requires i < |us|
  {
    var n := DoneLeft(q, i);
    n > 0 ==> (q.done[n - 1].hash == us[i].hash <==> i >= |q.wanted| + |q.asked|)
  }

  lemma UndoneWhenLast(q: Queues, us: seq<Unwound>, i: nat)
    requires Distinct(Pipeline(q)) && UnwindsLast(Pipeline(q), us) && i < |us|
    ensures UndoesInTurn(q, us, i)
  {
    if DoneLeft(q, i) > 0 {
      var p, k := Pipeline(q), DoneLeft(q, i) - 1;
      assert p[k] == q.done[k];
      assert us[i].hash == p[|p| - 1 - i].hash;
    }
  }

  /**
   What i headers taken back leave: the wanted blocks go first, the blocks asked for stay, and then blocks of the
   store go.
   */
  function Shortened(q: Queues, i: nat, processed: Option<Hash>): Queues {
    Queues(q.done[..DoneLeft(q, i)], q.asked, q.wanted[..Minus(|q.wanted|, i)], processed)
  }

  lemma ShortenedByOne(q: Queues, i: nat, processed: Option<Hash>, u: Unwound)
    requires DoneLeft(q, i) > 0 ==> (q.done[DoneLeft(q, i) - 1].hash == u.hash <==> i >= |q.wanted| + |q.asked|)
    ensures TakenBack(Shortened(q, i, processed), u) == Shortened(q, i + 1, Some(u.prev))
  {
  }

  lemma {:induction false} ShortenedByAll(q: Queues, us: seq<Unwound>, birth: nat, i: nat)
    requires i <= |us| && forall k :: 0 <= k < |us| ==> us[k].time > birth && UndoesInTurn(q, us, k)
    ensures TakenBackAll(q, us, birth, i) == Shortened(q, i, if i == 0 then q.processed else Some(us[i - 1].prev))
  {
    if i > 0 {
      ShortenedByAll(q, us, birth, i - 1);
      assert UndoesInTurn(q, us, i - 1);
      ShortenedByOne(q, i - 1, if i == 1 then q.processed else Some(us[i - 2].prev), us[i - 1]);
    } else {
      assert q.done[..|q.done|] == q.done && q.wanted[..|q.wanted|] == q.wanted;
    }
  }

  lemma TakeBackShortens(q: Queues, us: seq<Unwound>, birth: nat)
    requires Distinct(Pipeline(q)) && UnwindsLast(Pipeline(q), us)
    requires us != [] && forall k :: 0 <= k < |us| ==> us[k].time > birth
    ensures TakenBackAll(q, us, birth, |us|) == Shortened(q, |us|, Some(us[|us| - 1].prev))
  {
    forall k | 0 <= k < |us| ensures UndoesInTurn(q, us, k) {
      UndoneWhenLast(q, us, k);
    }
    ShortenedByAll(q, us, birth, |us|);
  }

  /**
   Keeping m blocks of the store and n wanted ones is keeping the first blocks of the pipeline, if only wanted blocks
   go or none is asked for and the wanted ones go first.
   */
  lemma KeepsFirst(q: Queues, m: nat, n: nat)
    requires m <= |q.done| && n <= |q.wanted|
    requires m == |q.done| || (q.asked == [] && n == 0)
    ensures q.done[..m] + q.asked + q.wanted[..n] == Pipeline(q)[..m + |q.asked| + n]
  {
  }

  /**
   A reorganisation of depth d takes exactly the last d blocks out of the pipeline if and only if no block is being
   asked for or the wanted blocks alone cover the depth. Otherwise abandoned blocks stay among those asked for.
   */
  lemma ReorganisationExact(q: Queues, us: seq<Unwound>, birth: nat)
    requires Distinct(Pipeline(q)) && UnwindsLast(Pipeline(q), Late(us, birth, |us|))
    ensures var d := |Late(us, birth, |us|)|;
            Pipeline(TakenBackAll(q, us, birth, |us|)) == Pipeline(q)[..|Pipeline(q)| - d] <==>
            q.asked == [] || d <= |q.wanted|
  {
    OnlyLateCount(q, us, birth, |us|);
    var late := Late(us, birth, |us|);
    var m, n := DoneLeft(q, |late|), Minus(|q.wanted|, |late|);
    if late == [] {
      assert Pipeline(q)[..|Pipeline(q)|] == Pipeline(q);
      return;
    }
    TakeBackShortens(q, late, birth);
    if q.asked == [] || |late| <= |q.wanted| {
      KeepsFirst(q, m, n);
    } else {
      assert |q.done[..m] + q.asked + q.wanted[..n]| == m + |q.asked| > |Pipeline(q)| - |late|;
    }
  }

  /**
   If the whole new branch arrives in one message, and its answer at position k takes back the abandoned
   branch, the abandoned blocks leave the pipeline and all new ones are appended.
   */
  lemma ReorganisationInOneMessage(q: Queues, results: seq<Added>, birth: nat, k: nat)
    requires k < |results| && results[k].Stored? && results[k].unwinds.Some?
    requires forall j :: 0 <= j < |results| && j != k && results[j].Stored? ==> results[j].unwinds.None?
    requires var us := results[k].unwinds.value; var late := Late(us, birth, |us|);
                                                 Distinct(Pipeline(q)) && UnwindsLast(Pipeline(q), late) &&
                                                 (q.asked == [] || |late| <= |q.wanted|)
    ensures var us := results[k].unwinds.value;
            Pipeline(AfterHeaders(q, results, birth)) ==
            Pipeline(q)[..|Pipeline(q)| - |Late(us, birth, |us|)|] + Recent(results, birth, |results|)
  {
    OneBatchThenExtension(q, results, birth, k);
    ReorganisationExact(q, results[k].unwinds.value, birth);
    var r := TakenBackAll(q, results[k].unwinds.value, birth, |results[k].unwinds.value|);
    Associates(r.done + r.asked, r.wanted, Recent(results, birth, |results|));
  }

  lemma OneBatchThenExtension(q: Queues, results: seq<Added>, birth: nat, k: nat)
    requires k < |results| && Reorganises(results[k])
    requires forall j :: 0 <= j < |results| && j != k ==> !Reorganises(results[j])
    ensures var us := results[k].unwinds.value; var r := TakenBackAll(q, us, birth, |us|);
                                                AfterHeaders(q, results, birth) ==
                                                r.(wanted := r.wanted + Recent(results, birth, |results|))
  {
    BatchEndsAt(results, k);
    RestExtends(results, k);
    BatchAndRest(q, results, birth, k + 1);
    RecentSplits(results, birth, k + 1, |results| - (k + 1));
  }

  /** After the batch that ends at n, headers that only extend the chain are appended too. */
  lemma BatchAndRest(q: Queues, results: seq<Added>, birth: nat, n: nat)
    requires 0 < n == BatchEnd(results) && NoReorganisation(results[n..])
    ensures var us, rest := UnwindsOf(results, n), results[n..];
            var r := TakenBackAll(q, us, birth, |us|);
            var news := Recent(results, birth, n) + Recent(rest, birth, |rest|);
            AfterHeaders(q, results, birth) == r.(wanted := r.wanted + news)
  {
    var us := UnwindsOf(results, n);
    var r, rest := TakenBackAll(q, us, birth, |us|), results[n..];
    ExtensionAppends(AfterBatch(q, results, birth, n), rest, birth);
    Associates(r.wanted, Recent(results, birth, n), Recent(rest, birth, |rest|));
  }

  lemma RestExtends(results: seq<Added>, k: nat)
    requires k < |results| && forall j :: k < j < |results| ==> !Reorganises(results[j])
    ensures NoReorganisation(results[k + 1..])
  {
  }

  lemma {:induction false} BatchEndsAt(results: seq<Added>, k: nat)
    requires k < |results| && Reorganises(results[k]) && forall j :: 0 <= j < k ==> !Reorganises(results[j])
    ensures BatchEnd(results) == k + 1
  {
  }

  lemma {:induction false} RecentSplits(results: seq<Added>, birth: nat, n: nat, i: nat)
    requires n + i <= |results|
    ensures Recent(results, birth, n + i) == Recent(results, birth, n) + Recent(results[n..], birth, i)
  {
    if i > 0 {
      RecentSplits(results, birth, n, i - 1);
      assert results[n..][i - 1] == results[n + i - 1];
    }
  }

  /**
   After taking back headers the block recorded as processed is the last one the store really has if and only if all
   blocks wanted and asked for were taken back. Otherwise the record runs ahead of the store.
   */
  lemma ProcessedIsLastDone(q: Queues, us: seq<Unwound>, birth: nat)
    requires var d := |Late(us, birth, |us|)|;
             && Distinct(Pipeline(q)) && UnwindsLast(Pipeline(q), Late(us, birth, |us|))
             && q.done != [] && 0 < d < |Pipeline(q)|
    ensures var r := TakenBackAll(q, us, birth, |us|);
            r.done != [] && (r.processed == Some(r.done[|r.done| - 1].hash) <==>
                             |Late(us, birth, |us|)| >= |q.wanted| + |q.asked|)
  {
    OnlyLateCount(q, us, birth, |us|);
    LateIsLastDone(q, Late(us, birth, |us|), birth);
  }

  lemma LateIsLastDone(q: Queues, late: seq<Unwound>, birth: nat)
    requires Distinct(Pipeline(q)) && UnwindsLast(Pipeline(q), late)
    requires forall k :: 0 <= k < |late| ==> late[k].time > birth
    requires q.done != [] && 0 < |late| < |Pipeline(q)|
    ensures var r := TakenBackAll(q, late, birth, |late|);
            r.done != [] && (r.processed == Some(r.done[|r.done| - 1].hash) <==> |late| >= |q.wanted| + |q.asked|)
  {
    TakeBackShortens(q, late, birth);
    LastLeft(q, late);
    var n := DoneLeft(q, |late|);
    assert q.done[..n][n - 1] == q.done[n - 1];
  }

  lemma LastLeft(q: Queues, us: seq<Unwound>)
    requires Distinct(Pipeline(q)) && UnwindsLast(Pipeline(q), us) && q.done != [] && 0 < |us| < |Pipeline(q)|
    ensures DoneLeft(q, |us|) > 0
    ensures us[|us| - 1].prev == q.done[DoneLeft(q, |us|) - 1].hash <==> |us| >= |q.wanted| + |q.asked|
  {
    var p, d, k := Pipeline(q), |us|, DoneLeft(q, |us|) - 1;
    assert us[d - 1].prev == p[|p| - 1 - d].hash;
    assert p[k] == q.done[k];
    assert p[k].hash == p[|p| - 1 - d].hash <==> k == |p| - 1 - d;
  }

  /**
   Blocks 2 and 3 are wanted when block 3 is taken back: block 2 is recorded as processed, and the store never saw
   it.
   */
  lemma RecordRunsAhead()
    ensures var q := Queues([BlockRef(1, 1)], [], [BlockRef(2, 2), BlockRef(3, 3)], Some(1));
            TakenBackAll(q, [Unwound(3, 2, 9)], 5, 1) == Queues([BlockRef(1, 1)], [], [BlockRef(2, 2)], Some(2))
  {
  }

  /** Block 3 is asked for when it is taken back: it stays in the pipeline, and the store will get it. */
  lemma AskedBlockStays()
    ensures var q := Queues([], [BlockRef(2, 2), BlockRef(3, 3)], [], None);
            Pipeline(TakenBackAll(q, [Unwound(3, 2, 9)], 5, 1)) == [BlockRef(2, 2), BlockRef(3, 3)]
  {
  }

  /* ---------- a branch that arrives in several messages ---------- */

  /** Whatever is taken back, the wanted blocks go from the end and those asked for stay. */
  lemma {:induction false} TakeBackPops(q: Queues, us: seq<Unwound>, birth: nat, i: nat)
    requires i <= |us| && forall k :: 0 <= k < |us| ==> us[k].time > birth
    ensures var r := TakenBackAll(q, us, birth, i);
            r.asked == q.asked && r.wanted == q.wanted[..Minus(|q.wanted|, i)]
  {
    if i > 0 {
      TakeBackPops(q, us, birth, i - 1);
      var w := Minus(|q.wanted|, i - 1);
      assert w > 0 ==> q.wanted[..w][..w - 1] == q.wanted[..w - 1];
    } else {
      assert q.wanted[..|q.wanted|] == q.wanted;
    }
  }

  /** What the store undoes does not depend on the blocks that are wanted. */
  lemma {:induction false} UndoneAlike(q: Queues, wanted: seq<BlockRef>, us: seq<Unwound>, birth: nat, i: nat)
    requires i <= |us|
    ensures TakenBackAll(q, us, birth, i).done == TakenBackAll(q.(wanted := wanted), us, birth, i).done
  {
    if i > 0 {
      UndoneAlike(q, wanted, us, birth, i - 1);
    }
  }

  /**
   If the first blocks of the new branch came in earlier messages, they are wanted already, behind the old trunk. What
   remains then when the old trunk is taken back: the newest wanted blocks go instead of the abandoned ones.
   */
  lemma SplitForkRemainder(q: Queues, side: seq<BlockRef>, us: seq<Unwound>, birth: nat)
    requires Distinct(Pipeline(q)) && UnwindsLast(Pipeline(q), Late(us, birth, |us|)) && Late(us, birth, |us|) != []
    ensures var d, r := |Late(us, birth, |us|)|, TakenBackAll(q.(wanted := q.wanted + side), us, birth, |us|);
            && r.done == q.done[..DoneLeft(q, d)] && r.asked == q.asked
            && r.wanted == (q.wanted + side)[..Minus(|q.wanted + side|, d)]
  {
    var q', late := q.(wanted := q.wanted + side), Late(us, birth, |us|);
    OnlyLateCount(q', us, birth, |us|);
    TakeBackPops(q', late, birth, |late|);
    UndoneAlike(q', q.wanted, late, birth, |late|);
    assert q'.(wanted := q.wanted) == q;
    TakeBackShortens(q, late, birth);
  }

  /** So the last block that came in an earlier message is always lost, and the new branch never arrives complete. */
  lemma SplitForkLosesBlock(q: Queues, side: seq<BlockRef>, us: seq<Unwound>, birth: nat)
    requires Distinct(Pipeline(q) + side) && side != []
    requires UnwindsLast(Pipeline(q), Late(us, birth, |us|)) && Late(us, birth, |us|) != []
    ensures side[|side| - 1] !in Pipeline(TakenBackAll(q.(wanted := q.wanted + side), us, birth, |us|))
  {
    assert Distinct(Pipeline(q)) by {
      FrontIsDistinct(Pipeline(q), side);
    }
    SplitForkRemainder(q, side, us, birth);
    var d := |Late(us, birth, |us|)|;
    LastIsGone(q, side, DoneLeft(q, d), Minus(|q.wanted + side|, d));
  }

  lemma FrontIsDistinct(a: seq<BlockRef>, b: seq<BlockRef>)
    requires Distinct(a + b)
    ensures Distinct(a)
  {
    forall i, j | 0 <= i < j < |a| ensures a[i].hash != a[j].hash {
      assert (a + b)[i] == a[i] && (a + b)[j] == a[j];
    }
  }

  lemma LastIsGone(q: Queues, side: seq<BlockRef>, m: nat, n: nat)
    requires Distinct(Pipeline(q) + side) && side != [] && m <= |q.done| && n < |q.wanted + side|
    ensures side[|side| - 1] !in q.done[..m] + q.asked + (q.wanted + side)[..n]
  {
    var p, x, k := Pipeline(q) + side, side[|side| - 1], |q.done| + |q.asked|;
    assert p == q.done + q.asked + (q.wanted + side) && p[|p| - 1] == x;
    assert q.done[..m] == p[0..0 + m];
    NotAmong(p, q.done[..m], 0, x);
    assert q.asked == p[|q.done|..k];
    NotAmong(p, q.asked, |q.done|, x);
    assert (q.wanted + side)[..n] == p[k..k + n];
    NotAmong(p, (q.wanted + side)[..n], k, x);
  }

  /** The last of distinct blocks is not in a part of them that ends before it. */
  lemma NotAmong(p: seq<BlockRef>, part: seq<BlockRef>, from: nat, x: BlockRef)
    requires Distinct(p) && p != [] && p[|p| - 1] == x && from + |part| < |p| && part == p[from..from + |part|]
    ensures x !in part
  {
    forall i | 0 <= i < |part| ensures part[i] != x {
      assert part[i] == p[from + i];
    }
  }
}
