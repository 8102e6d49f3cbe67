/**
 The store of ads: the table together with the caches kept beside it, which are
 one lookup table for each size asked for, a min sketch and a counter of keys. Every method is tied to a
 function on store states; the runs of these functions are studied in StoreRuns and ChainRuns.
 */
module ContentStore {
  import opened Wrappers
  import opened Keys
  import opened Algebra
  import opened Caches
  import opened Sketch
  import opened ContentDb

  /* ---------- the chain as the store sees it ---------- */

  datatype Header = Header(hash: BlockHash, prev: BlockHash, merkleRoot: nat, time: nat)

  /** The headers of the most work chain; the index of a header is its height. */
  type Trunk = seq<Header>

  function HeightOf(trunk: Trunk, block: BlockHash): (h: Option<nat>)
    ensures h.Some? ==> h.value < |trunk| && trunk[h.value].hash == block
    ensures h.None? ==> forall i :: 0 <= i < |trunk| ==> trunk[i].hash != block
  {
    if trunk == [] then None
    else if trunk[|trunk| - 1].hash == block then Some(|trunk| - 1)
    else HeightOf(trunk[..|trunk| - 1], block)
  }

  /** The height of the last header, and zero without one. */
  function TipHeight(trunk: Trunk): nat {
    if trunk == [] then 0 else |trunk| - 1
  }

  /* ---------- which content is accepted ---------- */

  /** The script a funding output must have: a function of the funder, the digest of the ad and the term. */
  type Commitment = (Bytes, ContentKey, nat) -> Bytes

  /** Output j is the first with the script. */
  ghost predicate IsFirst(outputs: seq<TxOut>, script: Bytes, j: int) {
    0 <= j < |outputs| && outputs[j].script == script && forall i :: 0 <= i < j ==> outputs[i].script != script
  }

  function FindOutput(outputs: seq<TxOut>, script: Bytes): (o: Option<TxOut>)
    ensures o.Some? ==> exists j :: IsFirst(outputs, script, j) && o.value == outputs[j]
    ensures o.None? ==> forall i :: 0 <= i < |outputs| ==> outputs[i].script != script
  {
    if outputs == [] then None
    else if outputs[0].script == script then
      assert IsFirst(outputs, script, 0);
      Some(outputs[0])
    else
      var o := FindOutput(outputs[1..], script);
      assert o.Some? ==> forall j :: IsFirst(outputs[1..], script, j) ==> IsFirst(outputs, script, j + 1);
      o
  }

  /** A signed 32 bit version read as an unsigned number. */
  function AsUnsigned(version: int): int {
    version % 0x1_0000_0000
  }

  /** The row a content is stored as, or nothing if it is rejected. */
  function Judge(trunk: Trunk, commitment: Commitment, c: Content): (r: Option<Row>)
    requires 0 < c.length
    ensures r.Some? ==>
              && r.value.content == c && r.value.block == c.funding.block
              && HeightOf(trunk, c.funding.block) == Some(r.value.height)
              && r.value.height + c.term >= TipHeight(trunk)
  {
    match HeightOf(trunk, c.funding.block)
    case None => None
    case Some(height) =>
      if height + c.term < TipHeight(trunk) then None
      else if trunk[height].merkleRoot != c.funding.merkleRoot then None
      else if AsUnsigned(c.funding.version) < 2 then None
      else
        match FindOutput(c.funding.outputs, commitment(c.funder, c.digest, c.term))
        case None => None
        case Some(o) => Some(Row(c, c.funding.block, height, (o.value / c.length) % 0x1_0000_0000))
  }

  /** A trunk names each block once. */
  ghost predicate NoRepeats(trunk: Trunk) {
    forall i, j :: 0 <= i < j < |trunk| ==> trunk[i].hash != trunk[j].hash
  }

  /**
   The content is funded by the trunk block at height i, in time, by a transaction with the output j that commits to
   the ad.
   */
  ghost predicate FundedBy(trunk: Trunk, commitment: Commitment, c: Content, i: int, j: int) {
    && 0 <= i < |trunk| && trunk[i].hash == c.funding.block && i + c.term >= |trunk| - 1
    && trunk[i].merkleRoot == c.funding.merkleRoot
    && !(0 <= c.funding.version < 2)
    && 0 <= j < |c.funding.outputs| && c.funding.outputs[j].script == commitment(c.funder, c.digest, c.term)
  }

  /**
   Content is accepted if and only if a trunk block funds it, and then it is recorded at the height of that block with
   the amount per byte of the first output that commits to the ad.
   */
  lemma AcceptedExactly(trunk: Trunk, commitment: Commitment, c: Content)
    requires 0 < c.length && NoRepeats(trunk) && -0x8000_0000 <= c.funding.version < 0x8000_0000
    ensures Judge(trunk, commitment, c).Some? <==> exists i, j :: FundedBy(trunk, commitment, c, i, j)
    ensures Judge(trunk, commitment, c).Some? ==>
              var row := Judge(trunk, commitment, c).value;
              exists j :: FundedBy(trunk, commitment, c, row.height, j) &&
                          IsFirst(c.funding.outputs, commitment(c.funder, c.digest, c.term), j) &&
                          row == Row(c, c.funding.block, row.height,
                                     (c.funding.outputs[j].value / c.length) % 0x1_0000_0000)
  {
    var h := HeightOf(trunk, c.funding.block);
    if Judge(trunk, commitment, c).Some? {
      var o := FindOutput(c.funding.outputs, commitment(c.funder, c.digest, c.term));
      var j :| IsFirst(c.funding.outputs, commitment(c.funder, c.digest, c.term), j) && c.funding.outputs[j] == o.value;
      assert FundedBy(trunk, commitment, c, h.value, j);
    }
    if i, j :| FundedBy(trunk, commitment, c, i, j) {
      assert h.Some? && h.value == i;
    }
  }

  /**
   A row that is not canonical is answered under another digest. The receiver stores the answer only if a transaction
   on its trunk commits to that digest too, and then under that digest.
   */
  lemma AnsweredUnderAnother(shelf: Shelf, trunk: Trunk, commitment: Commitment, c: Content)
    requires TextCodec.Inverts(shelf.z) && Readable(shelf, c) && Genuine(shelf, c) && !Canonical(shelf, c)
    requires shelf.digest(Rebuilt(shelf.z, c.ad)) == shelf.digest(c.ad) ==> Rebuilt(shelf.z, c.ad) == c.ad
    requires NoRepeats(trunk) && -0x8000_0000 <= c.funding.version < 0x8000_0000
    ensures var answer := Reread(shelf, c);
            && answer.digest != c.digest
            && (0 < answer.length && Judge(trunk, commitment, answer).Some? ==>
                  Judge(trunk, commitment, answer).value.content.digest == answer.digest &&
                  exists j :: 0 <= j < |c.funding.outputs| &&
                              c.funding.outputs[j].script == commitment(c.funder, answer.digest, c.term))
  {
    RebuiltIfCanonical(shelf, c);
    var answer := Reread(shelf, c);
    if 0 < answer.length && Judge(trunk, commitment, answer).Some? {
      AcceptedExactly(trunk, commitment, answer);
      var i, j :| FundedBy(trunk, commitment, answer, i, j);
      assert c.funding.outputs[j].script == commitment(c.funder, answer.digest, c.term);
    }
  }

  /**
   There is content that a node accepts and cannot store: a text that is not UTF-8, funded on a trunk of one block.
   */
  lemma UnreadableIsAccepted(shelf: Shelf, commitment: Commitment, c: Content)
    requires c.ad.text == [0, 0xff] && 0 < c.length && c.term == 0
    requires c.funding == Funding(7, 9, 2, [TxOut(5, commitment(c.funder, c.digest, 0))])
    ensures !Readable(shelf, c) && Judge([Header(7, 0, 9, 1)], commitment, c).Some?
  {
    assert c.ad.text[1..] == [0xff];
    assert Unicode.FirstOfUtf8([0xff]).None?;
    var trunk := [Header(7, 0, 9, 1)];
    assert HeightOf(trunk, 7) == Some(0);
  }

  /* ---------- store states ---------- */

  datatype State = State(rows: Rows, iblts: Tables<ContentKey>, sketch: seq<int>, nKeys: nat)

  datatype Config = Config(scheme: Scheme<ContentKey>, sketcher: Sketcher<ContentKey>)

  ghost predicate WellFormed(st: State, cfg: Config) {
    Usable(cfg.scheme) && |st.sketch| == cfg.sketcher.n && Sized(st.iblts)
  }

  /** The table of a size is computed from the rows unless it is cached. */
  ghost function WithTable(st: State, cfg: Config, size: nat): State {
    st.(iblts := Looked(cfg.scheme, st.iblts, st.rows.Keys, size))
  }

  /** A row is inserted or replaced; the caches take the key in either case. */
  function WithRow(st: State, cfg: Config, id: ContentKey, row: Row): State {
    State(st.rows[id := row], WithInserted(cfg.scheme, st.iblts, id), WithKey(cfg.sketcher, st.sketch, id),
          st.nKeys + 1)
  }

  /** A key is taken into the caches, and the node stops before it stores the row. */
  function WithKeyOnly(st: State, cfg: Config, id: ContentKey): State {
    State(st.rows, WithInserted(cfg.scheme, st.iblts, id), WithKey(cfg.sketcher, st.sketch, id), st.nKeys + 1)
  }

  /** Rows are deleted; the sketch and the counter are computed anew only if some table was changed. */
  ghost function WithoutRows(st: State, cfg: Config, keys: seq<ContentKey>): State {
    var rows := st.rows - AllEntries(keys);
    var iblts := WithDeleted(cfg.scheme, st.iblts, keys);
    if keys != [] && st.iblts != map[] then State(rows, iblts, SketchOf(cfg.sketcher, rows.Keys), |rows|)
    else State(rows, iblts, st.sketch, st.nKeys)
  }

  class ContentStore {
    const cfg: Config
    const commitment: Commitment
    const storageLimit: nat
    const db: ContentDb
    var iblts: Tables<ContentKey>
    var minSketch: seq<int>
    var nKeys: nat
    // the last block whose transactions were processed
    var processed: Option<BlockHash>

    ghost function Now(): State
      reads this, db
    {
      State(db.rows, iblts, minSketch, nKeys)
    }

    ghost predicate Valid()
      reads this, db
    {
      WellFormed(Now(), cfg)
    }

    constructor (db: ContentDb, storageLimit: nat, cfg: Config, commitment: Commitment)
      requires Usable(cfg.scheme)
      ensures Valid() && this.db == db && this.cfg == cfg && this.commitment == commitment &&
              this.storageLimit == storageLimit
      ensures Now() == State(db.rows, map[], SketchOf(cfg.sketcher, db.rows.Keys), |db.rows|)
    {
      var v, count := db.ComputeContentSketch(cfg.sketcher);
      this.db, this.storageLimit, this.cfg, this.commitment := db, storageLimit, cfg, commitment;
      iblts, minSketch, nKeys, processed := map[], v, count, None;
    }

    method GetIblt(size: nat) returns (table: Table<ContentKey>)
      requires Valid() && 0 < size
      modifies this`iblts
      ensures Valid() && Now() == WithTable(old(Now()), cfg, size)
      ensures size in iblts && table == iblts[size]
    {
      var computed := db.ComputeContentIblt(cfg.scheme, size);
      if size !in iblts {
        iblts := iblts[size := computed.buckets];
      }
      table := iblts[size];
    }

    /** Adds content if it is committed to on the trunk and has not expired. */
    method AddContent(trunk: Trunk, c: Content) returns (added: bool, stopped: bool)
      requires Valid() && 0 < c.length
      modifies this`iblts, this`minSketch, this`nKeys, db
      ensures Valid()
      ensures stopped <==> Judge(trunk, commitment, c).Some? && !Readable(db.shelf, c)
      ensures added <==> Judge(trunk, commitment, c).Some? && Readable(db.shelf, c)
      ensures added ==> Now() == WithRow(old(Now()), cfg, c.digest, Judge(trunk, commitment, c).value)
      ensures stopped ==> Now() == WithKeyOnly(old(Now()), cfg, c.digest)
      ensures !added && !stopped ==> Now() == old(Now())
    {
      added, stopped := false, false;
      var height := HeightOf(trunk, c.funding.block);
      if height.None? {
        return;
      }
      if height.value + c.term < TipHeight(trunk) {
        return;
      }
      if trunk[height.value].merkleRoot != c.funding.merkleRoot || AsUnsigned(c.funding.version) < 2 {
        return;
      }
      var o := FindOutput(c.funding.outputs, commitment(c.funder, c.digest, c.term));
      if o.None? {
        return;
      }
      InsertIntoTables(c.digest);
      minSketch := WithKey(cfg.sketcher, minSketch, c.digest);
      nKeys := nKeys + 1;
      stopped := db.StoreContent(height.value, c.funding.block, c, o.value.value);
      added := !stopped;
    }

    /** Inserts a key into every cached table. */
    method InsertIntoTables(id: ContentKey)
      modifies this`iblts
      ensures iblts == WithInserted(cfg.scheme, old(iblts), id)
    {
      var todo := iblts.Keys;
      while todo != {}
        invariant todo <= iblts.Keys && iblts.Keys == old(iblts).Keys
        invariant forall s :: s in iblts ==>
                                iblts[s] ==
                                if s in todo then old(iblts)[s] else Toggled(cfg.scheme, old(iblts)[s], id, 1)
      {
        var s :| s in todo;
        iblts := iblts[s := Toggled(cfg.scheme, iblts[s], id, 1)];
        todo := todo - {s};
      }
    }

    /** Deletes a key from every cached table, and says whether there was one. */
    method DeleteFromTables(id: ContentKey) returns (some: bool)
      modifies this`iblts
      ensures iblts == map s | s in old(iblts) :: Toggled(cfg.scheme, old(iblts)[s], id, -1)
      ensures (some <==> old(iblts) != map[]) && (iblts == map[] <==> old(iblts) == map[])
    {
      some := false;
      var todo := iblts.Keys;
      while todo != {}
        invariant todo <= iblts.Keys && iblts.Keys == old(iblts).Keys
        invariant forall s :: s in iblts ==>
                                iblts[s] ==
                                if s in todo then old(iblts)[s] else Toggled(cfg.scheme, old(iblts)[s], id, -1)
        invariant some <==> todo != iblts.Keys
      {
        var s :| s in todo;
        iblts := iblts[s := Toggled(cfg.scheme, iblts[s], id, -1)];
        todo := todo - {s};
        some := true;
      }
      assert iblts.Keys == {} <==> iblts == map[];
      assert old(iblts).Keys == {} <==> old(iblts) == map[];
    }

    /** Brings the caches in line with a deletion of rows that has just happened. */
    method Forget(keys: seq<ContentKey>)
      requires |minSketch| == cfg.sketcher.n
      modifies this`iblts, this`minSketch, this`nKeys
      ensures iblts == WithDeleted(cfg.scheme, old(iblts), keys)
      ensures if keys != [] && old(iblts) != map[]
              then minSketch == SketchOf(cfg.sketcher, db.rows.Keys) && nKeys == |db.rows|
              else minSketch == old(minSketch) && nKeys == old(nKeys)
    {
      var deletedSome := false;
      for i := 0 to |keys|
        invariant iblts == map s | s in old(iblts) :: DeletedFrom(cfg.scheme, old(iblts)[s], keys, i)
        invariant minSketch == old(minSketch) && nKeys == old(nKeys)
        invariant (iblts == map[] <==> old(iblts) == map[]) && (deletedSome <==> i > 0 && old(iblts) != map[])
      {
        var some := DeleteFromTables(keys[i]);
        deletedSome := deletedSome || some;
      }
      if deletedSome {
        minSketch, nKeys := db.ComputeContentSketch(cfg.sketcher);
      }
    }

    /** A header extends the chain: what expires at its height is deleted. */
    method AddHeader(height: nat) returns (ghost keys: seq<ContentKey>)
      requires Valid()
      modifies this`iblts, this`minSketch, this`nKeys, db
      ensures Valid() && Enumerates(keys, ExpiredKeys(old(db.rows), height))
      ensures Now() == WithoutRows(old(Now()), cfg, keys)
      ensures forall id :: id in db.rows <==>
                           id in old(db.rows) && old(db.rows)[id].height + old(db.rows)[id].content.term > height
    {
      var expired := db.DeleteExpired(height);
      Forget(expired);
      keys := expired;
    }

    /** The last header is taken back: what its block funds is deleted. */
    method UnwindTip(header: Header) returns (ghost keys: seq<ContentKey>)
      requires Valid()
      modifies this, db
      ensures Valid() && Enumerates(keys, ConfirmedKeys(old(db.rows), header.hash))
      ensures Now() == WithoutRows(old(Now()), cfg, keys)
      ensures processed == Some(header.prev)
      ensures forall id :: id in db.rows <==> id in old(db.rows) && old(db.rows)[id].block != header.hash
    {
      processed := Some(header.prev);
      var unconfirmed := db.DeleteConfirmed(header.hash);
      Forget(unconfirmed);
      keys := unconfirmed;
    }

    /** What exceeds the storage limit in the order of weight is deleted. */
    method TruncateToLimit(order: seq<ContentKey>) returns (ghost keys: seq<ContentKey>, ghost cut: nat)
      requires Valid() && ByWeight(db.rows, order)
      modifies this`iblts, this`minSketch, this`nKeys, db
      ensures Valid() && LongestFitting(old(db.rows), order, storageLimit, cut) && keys == order[cut..]
      ensures Enumerates(keys, old(db.rows).Keys - Entries(order, cut))
      ensures Now() == WithoutRows(old(Now()), cfg, keys) && db.rows.Keys == Entries(order, cut)
    {
      var dropped: seq<ContentKey>;
      dropped, cut := db.TruncateContent(order, storageLimit);
      Forget(dropped);
      keys := dropped;
    }
  }
}
