/**
 The exchange of two nodes of the system: stores whose rows are sound for their common trunk form a fair setting, in
 which an exchange without overlapping tables ends with the rows of both; and what a repeated content does to a table.
 */
module Agreement {
  import opened Wrappers
  import opened Keys
  import opened Algebra
  import opened ContentDb
  import opened ContentStore
  import opened Updater
  import Simulation
  import HashPurity
  import NearAgreement
  import Overlap
  import Convergence

  /** Every row is stored under its digest and would be stored the same again. */
  ghost predicate SoundRows(trunk: Trunk, commitment: Commitment, rows: Rows) {
    forall id :: id in rows ==>
                   && rows[id].content.digest == id && 0 < rows[id].content.length
                   && Judge(trunk, commitment, rows[id].content) == Some(rows[id])
  }

  /** Every ad has its own digest and length, and its text is encoded as a node encodes its own texts. */
  ghost predicate CanonicalRows(shelf: Shelf, rows: Rows) {
    forall id :: id in rows ==>
                   var c := rows[id].content; Genuine(shelf, c) && Readable(shelf, c) && Canonical(shelf, c)
  }

  /** The length of an ad is determined by its digest. */
  ghost predicate SameAds(a: Rows, b: Rows) {
    forall id :: id in a && id in b ==> a[id].content.length == b[id].content.length
  }

  function Merge(a: Rows, b: Rows): Rows {
    map id | id in a.Keys + b.Keys :: if id in a then a[id] else b[id]
  }

  /** Two nodes on the same trunk: their rows are sound and canonical, and fit the limit together. */
  ghost predicate Meet(trunk: Trunk, commitment: Commitment, limit: nat, shelf: Shelf, a: Rows, b: Rows) {
    && SoundRows(trunk, commitment, a) && SoundRows(trunk, commitment, b)
    && TextCodec.Inverts(shelf.z) && CanonicalRows(shelf, a) && CanonicalRows(shelf, b)
    && SameAds(a, b) && SumLength(Merge(a, b)) <= limit
  }

  lemma DrawnFits(a: Rows, b: Rows, limit: nat, rows: map<ContentKey, Content>)
    requires SameAds(a, b) && SumLength(Merge(a, b)) <= limit
    requires Convergence.Drawn(ContentsOf(a), ContentsOf(b), rows)
    ensures SumLength(AsRows(rows)) <= limit
  {
    forall id | id in rows
      ensures id in Merge(a, b) && AsRows(rows)[id].content.length == Merge(a, b)[id].content.length
    {
      assert Convergence.OneOf(ContentsOf(a), ContentsOf(b), id, rows[id]);
    }
    SumLengthSubset(AsRows(rows), Merge(a, b));
  }

  lemma RowsReadBack(r: Realm, trunk: Trunk, commitment: Commitment, shelf: Shelf, rows: Rows)
    requires SoundRows(trunk, commitment, rows) && TextCodec.Inverts(shelf.z) && CanonicalRows(shelf, rows)
    requires forall c: Content ::
               r.keyOf(c) == c.digest && r.readable(c) == Readable(shelf, c) && r.reread(c) == Reread(shelf, c)
    ensures Refinement.ReadsBack(r, ContentsOf(rows))
  {
    forall id | id in rows ensures Reread(shelf, rows[id].content) == rows[id].content {
      RebuiltIfCanonical(shelf, rows[id].content);
    }
  }

  lemma NodesAreSetting(r: Realm, p: Scheme<ContentKey>, trunk: Trunk, commitment: Commitment, limit: nat,
                        shelf: Shelf, a: Rows, b: Rows)
    requires r == RealmOf(p, trunk, commitment, limit, shelf) && Meet(trunk, commitment, limit, shelf, a, b)
    ensures Convergence.Setting(Refinement.WorldOf(r), ContentsOf(a), ContentsOf(b))
  {
    var w := Refinement.WorldOf(r);
    forall rows: map<ContentKey, Content> | Convergence.Drawn(ContentsOf(a), ContentsOf(b), rows) ensures w.fits(rows) {
      DrawnFits(a, b, limit, rows);
    }
  }

  /** Two such nodes form a fair setting. */
  lemma NodesAreFair(p: Scheme<ContentKey>, trunk: Trunk, commitment: Commitment, limit: nat, shelf: Shelf, a: Rows,
                     b: Rows)
    requires Usable(p) && Meet(trunk, commitment, limit, shelf, a, b)
    ensures Simulation.Fair(RealmOf(p, trunk, commitment, limit, shelf), ContentsOf(a), ContentsOf(b))
  {
    var r, a', b' := RealmOf(p, trunk, commitment, limit, shelf), ContentsOf(a), ContentsOf(b);
    assert Convergence.Setting(Refinement.WorldOf(r), a', b') by {
      NodesAreSetting(r, p, trunk, commitment, limit, shelf, a, b);
    }
    assert Refinement.ReadsBack(r, a') && Refinement.ReadsBack(r, b') by {
      RowsReadBack(r, trunk, commitment, shelf, a);
      RowsReadBack(r, trunk, commitment, shelf, b);
    }
  }

  /**
   The hash gives no key away that nobody holds, if wherever keys of one node alone meet in a bucket of a table that was
   sent the hash of their mixture is not the mixture of their hashes.
   */
  lemma HashesTellApart(r: Realm, a: Rows, b: Rows, s: Exchange.Duo<ContentKey, Content>)
    requires Usable(r.p)
    requires forall m :: m in s.left.sent + s.right.sent ==>
                           HashPurity.HashTells(r.p, m, Difference.Diff(a.Keys, b.Keys))
    ensures Simulation.TellsApart(r, ContentsOf(a), ContentsOf(b), s)
  {
    assert ContentsOf(a).Keys == a.Keys && ContentsOf(b).Keys == b.Keys;
    forall m | m in s.left.sent + s.right.sent
      ensures Peeling.NoFalsePurity(r.p, m, Difference.Diff(a.Keys, b.Keys))
    {
      HashPurity.HashTellsKeys(r.p, m, Difference.Diff(a.Keys, b.Keys));
    }
  }

  /**
   Two such nodes, whatever the interleaving of deliveries and polls, as long as no table is sent while something of
   the previous one is on its way: no request fails, their cached tables are exact, and when both have sent tables
   that give the difference away and nothing is on its way any more, both hold exactly the rows of both.
   */
  lemma NodesAgree(p: Scheme<ContentKey>, trunk: Trunk, commitment: Commitment, limit: nat, shelf: Shelf,
                   a: Rows, b: Rows, states: seq<Exchange.Duo<ContentKey, Content>>, i: nat)
    requires Usable(p) && Meet(trunk, commitment, limit, shelf, a, b) && i < |states| && Simulation.NoOverlap(states)
    requires Simulation.TellsApart(RealmOf(p, trunk, commitment, limit, shelf), ContentsOf(a), ContentsOf(b), states[i])
    requires Exchange.Run(RealmOf(p, trunk, commitment, limit, shelf), ContentsOf(a), ContentsOf(b), states)
    ensures Simulation.Sound(RealmOf(p, trunk, commitment, limit, shelf), states[i])
    ensures Simulation.LeftCanAnswer(states[i]) && Simulation.LeftCanAnswer(Exchange.Flip(states[i]))
    ensures Simulation.Silent(states[i]) &&
            Simulation.AllGivenAway(RealmOf(p, trunk, commitment, limit, shelf), ContentsOf(a), ContentsOf(b),
                                    states[i])
            ==> Simulation.Agreed(ContentsOf(a), ContentsOf(b), states[i])
  {
    NodesAreFair(p, trunk, commitment, limit, shelf, a, b);
    Simulation.FairNodesAgree(RealmOf(p, trunk, commitment, limit, shelf), ContentsOf(a), ContentsOf(b), states, i);
  }

  /**
   With overlapping tables the same holds as long as every table that is decoded is near the own one and gives
   everything away.
   */
  lemma OverlappingNodesAgree(p: Scheme<ContentKey>, trunk: Trunk, commitment: Commitment, limit: nat, shelf: Shelf,
                              a: Rows, b: Rows, states: seq<Exchange.Duo<ContentKey, Content>>, i: nat)
    requires Usable(p) && Meet(trunk, commitment, limit, shelf, a, b) && i < |states|
    requires Exchange.Run(RealmOf(p, trunk, commitment, limit, shelf), ContentsOf(a), ContentsOf(b), states)
    requires NearAgreement.ClearUpTo(RealmOf(p, trunk, commitment, limit, shelf), states, i)
    ensures Simulation.LeftCanAnswer(states[i]) && Simulation.LeftCanAnswer(Exchange.Flip(states[i]))
    ensures Simulation.Silent(states[i]) && states[i].left.sent != {} && states[i].right.sent != {} ==>
              Simulation.Agreed(ContentsOf(a), ContentsOf(b), states[i])
  {
    NodesAreFair(p, trunk, commitment, limit, shelf, a, b);
    NearAgreement.ClearExchangesAgree(RealmOf(p, trunk, commitment, limit, shelf), ContentsOf(a), ContentsOf(b), states,
                                      i);
  }

  /* ---------- nodes of the system that stop each other ---------- */

  /** The empty text as a node writes it. */
  function EmptyAd(cat: string): Ad {
    Ad(cat, "", [1])
  }

  /** Without compression, and with a digest that tells two ads apart. */
  function PlainShelf(x: ContentKey, y: ContentKey): Shelf {
    Shelf(TextCodec.Compression((d: seq<Unicode.byte>) => d, (d: seq<Unicode.byte>) => Some(d)),
          (ad: Ad) => if ad.cat == "x" then x else y, (ad: Ad) => 1)
  }

  /** A content funded by the only block of a trunk. */
  function FundedContent(commitment: Commitment, cat: string, id: ContentKey): Content {
    Content(EmptyAd(cat), id, 1, Funding(7, 9, 2, [TxOut(5, commitment([], id, 0))]), [], 0)
  }

  const ONE_BLOCK: Trunk := [Header(7, 0, 9, 1)]

  lemma FundedIsAccepted(commitment: Commitment, cat: string, id: ContentKey)
    ensures Judge(ONE_BLOCK, commitment, FundedContent(commitment, cat, id)) ==
            Some(Row(FundedContent(commitment, cat, id), 7, 0, 5))
  {
    assert HeightOf(ONE_BLOCK, 7) == Some(0);
  }

  lemma FundedIsCanonical(x: ContentKey, y: ContentKey, commitment: Commitment, cat: string, id: ContentKey)
    requires id == if cat == "x" then x else y
    ensures var shelf, c := PlainShelf(x, y), FundedContent(commitment, cat, id);
            && TextCodec.Inverts(shelf.z) && Genuine(shelf, c) && Readable(shelf, c) && Canonical(shelf, c)
  {
    var shelf, c := PlainShelf(x, y), FundedContent(commitment, cat, id);
    assert TextCodec.Encoded(shelf.z, []) == [1];
    assert c.ad.text == TextCodec.Encoded(shelf.z, []);
    TextCodec.TextRoundTrip(shelf.z, []);
  }

  function TwoRows(commitment: Commitment, x: ContentKey, y: ContentKey): Rows {
    map[x := Row(FundedContent(commitment, "x", x), 7, 0, 5), y := Row(FundedContent(commitment, "y", y), 7, 0, 5)]
  }

  lemma TwoRowsMeet(commitment: Commitment, x: ContentKey, y: ContentKey)
    requires x != y
    ensures Meet(ONE_BLOCK, commitment, 2, PlainShelf(x, y), map[], TwoRows(commitment, x, y))
  {
    var b, none := TwoRows(commitment, x, y), map[];
    FundedIsAccepted(commitment, "x", x);
    FundedIsAccepted(commitment, "y", y);
    FundedIsCanonical(x, y, commitment, "x", x);
    FundedIsCanonical(x, y, commitment, "y", y);
    assert Merge(none, b) == b;
    SumLengthPick(b, x);
    assert b - {x} == map[y := b[y]];
    SumLengthPick(b - {x}, y);
    assert b - {x} - {y} == map[];
  }

  /**
   Two nodes of the system whose overlapping exchange stops one of them: for every funding script and any two digests
   there is a keyed hash, a trunk and two ads for which the run of Overlap is a run of these nodes.
   */
  lemma SystemNodesStop(commitment: Commitment, x: ContentKey, y: ContentKey)
    returns (states: seq<Exchange.Duo<ContentKey, Content>>)
    requires x != y
    ensures var r := RealmOf(Overlap.TwoBuckets(CONTENT_KEYS, x), ONE_BLOCK, commitment, 2, PlainShelf(x, y));
            Exchange.Run(r, map[], ContentsOf(TwoRows(commitment, x, y)), states)
    ensures var s := states[|states| - 1]; s.toLeft.gets == [[y]] && y !in s.left.rows
  {
    var r := RealmOf(Overlap.TwoBuckets(CONTENT_KEYS, x), ONE_BLOCK, commitment, 2, PlainShelf(x, y));
    SystemIsFair(commitment, x, y);
    SystemIsCast(r, commitment, x, y);
    states := Overlap.OverlapStopsNode(r, 100, x, y, ContentsOf(TwoRows(commitment, x, y)));
  }

  lemma SystemIsFair(commitment: Commitment, x: ContentKey, y: ContentKey)
    requires x != y
    ensures Simulation.Fair(RealmOf(Overlap.TwoBuckets(CONTENT_KEYS, x), ONE_BLOCK, commitment, 2, PlainShelf(x, y)),
                            map[], ContentsOf(TwoRows(commitment, x, y)))
  {
    ContentKeyLaws();
    Overlap.TwoBucketsInside(CONTENT_KEYS, x, y);
    TwoRowsMeet(commitment, x, y);
    NodesAreFair(Overlap.TwoBuckets(CONTENT_KEYS, x), ONE_BLOCK, commitment, 2, PlainShelf(x, y), map[],
                 TwoRows(commitment, x, y));
    assert ContentsOf(map[]) == map[];
  }

  lemma SystemIsCast(r: Realm, commitment: Commitment, x: ContentKey, y: ContentKey)
    requires x != y && r.p == Overlap.TwoBuckets(CONTENT_KEYS, x)
    requires Simulation.Fair(r, map[], ContentsOf(TwoRows(commitment, x, y)))
    ensures Overlap.Cast(r, 100, x, y, ContentsOf(TwoRows(commitment, x, y)))
  {
    ContentKeyLaws();
    Overlap.TwoBucketsInside(CONTENT_KEYS, x, y);
    assert ContentsOf(TwoRows(commitment, x, y)).Keys == {x, y};
    assert Exchange.TimesFour(Exchange.MINIMUM_IBLT_SIZE, 0) == 100;
  }
}
