/**
 The table of ads. Every row is keyed by the digest of its ad and records the block that
 funds it. Queries answer in an order of their own, which the model takes as an argument or leaves open.
 */
module ContentDb {
  import opened Wrappers
  import opened Keys
  import opened Algebra
  import opened Iblt
  import opened Difference
  import opened Caches
  import opened Sketch
  import Unicode
  import TextCodec

  type BlockHash = nat
  type Bytes = seq<bv8>

  datatype TxOut = TxOut(value: nat, script: Bytes)

  /** A transaction with the proof that a block contains it. */
  datatype Funding = Funding(block: BlockHash, merkleRoot: nat, version: int, outputs: seq<TxOut>)

  datatype Ad = Ad(cat: string, abs: string, text: seq<Unicode.byte>)

  /** An ad with its funding. The digest and the length are those of the serialized ad. */
  datatype Content = Content(ad: Ad, digest: ContentKey, length: nat, funding: Funding, funder: Bytes, term: nat)

  datatype Row = Row(content: Content, block: BlockHash, height: nat, weight: nat)

  type Rows = map<ContentKey, Row>

  predicate Expired(r: Row, height: nat) {
    r.height + r.content.term <= height
  }

  function ExpiredKeys(rows: Rows, height: nat): set<ContentKey> {
    set id | id in rows && Expired(rows[id], height)
  }

  function ConfirmedKeys(rows: Rows, block: BlockHash): set<ContentKey> {
    set id | id in rows && rows[id].block == block
  }

  /* ---------- what fits into the storage limit ---------- */

  function LengthOf(rows: Rows, id: ContentKey): nat {
    if id in rows then rows[id].content.length else 0
  }

  /** The length of the first i rows of a list together. */
  function PrefixLength(rows: Rows, ids: seq<ContentKey>, i: nat): nat
    requires i <= |ids|
  {
    if i == 0 then 0 else PrefixLength(rows, ids, i - 1) + LengthOf(rows, ids[i - 1])
  }

  /** An answer to the query for all rows by descending weight; rows of equal weight come in any order. */
  ghost predicate ByWeight(rows: Rows, order: seq<ContentKey>) {
    && Enumerates(order, rows.Keys)
    && forall i, j :: 0 <= i < j < |order| ==>
                        order[i] in rows && order[j] in rows && rows[order[i]].weight >= rows[order[j]].weight
  }

  /** The first `cut` rows of an order fit the limit, and no more do. */
  ghost predicate LongestFitting(rows: Rows, order: seq<ContentKey>, limit: nat, cut: nat) {
    && cut <= |order|
    && PrefixLength(rows, order, cut) <= limit
    && (cut < |order| ==> PrefixLength(rows, order, cut + 1) > limit)
  }

  lemma {:induction false} PrefixLengthGrows(rows: Rows, ids: seq<ContentKey>, i: nat, j: nat)
    requires i <= j <= |ids|
    ensures PrefixLength(rows, ids, i) <= PrefixLength(rows, ids, j)
    decreases j
  {
    if i < j {
      PrefixLengthGrows(rows, ids, i, j - 1);
    }
  }

  ghost function Satisfying(rows: Rows, ids: set<ContentKey>, condition: Row -> bool): set<ContentKey> {
    set id | id in ids && id in rows && condition(rows[id])
  }

  /* ---------- how an ad is stored ---------- */

  /** What storing depends on: the compression of texts, and the digest and the length of a serialized ad. */
  datatype Shelf = Shelf(z: TextCodec.Compression, digest: Ad -> ContentKey, length: Ad -> nat)

  /** The text can be read, without which storing it stops the node. */
  predicate Readable(shelf: Shelf, c: Content) {
    TextCodec.Read(shelf.z, c.ad.text).Text?
  }

  /** The table keeps the string of a text and not its encoding; reading encodes the string anew. */
  function Rebuilt(z: TextCodec.Compression, ad: Ad): Ad {
    match TextCodec.Read(z, ad.text)
    case Text(s) => ad.(text := TextCodec.Encoded(z, s))
    case Bad(_) => ad
  }

  function Reread(shelf: Shelf, c: Content): Content {
    var ad := Rebuilt(shelf.z, c.ad);
    c.(ad := ad, digest := shelf.digest(ad), length := shelf.length(ad))
  }

  /** The digest and the length are those of the ad. */
  predicate Genuine(shelf: Shelf, c: Content) {
    c.digest == shelf.digest(c.ad) && c.length == shelf.length(c.ad)
  }

  /** The text is encoded as a node encodes its own texts. */
  ghost predicate Canonical(shelf: Shelf, c: Content) {
    exists s :: c.ad.text == TextCodec.Encoded(shelf.z, s)
  }

  /** The table with one more row, which replaces a row under the same digest. */
  function Put(rows: Rows, height: nat, block: BlockHash, c: Content, amount: nat): Rows
    requires 0 < c.length
  {
    rows[c.digest := Row(c, block, height, (amount / c.length) % 0x1_0000_0000)]
  }

  /** A missing row is an error of the query and not an empty answer. */
  function Fetch(shelf: Shelf, rows: Rows, id: ContentKey): Option<Content> {
    if id in rows then Some(Reread(shelf, rows[id].content)) else None
  }

  /** A text reads back as it was stored if and only if it is encoded as a node encodes it. */
  lemma RebuiltIfCanonical(shelf: Shelf, c: Content)
    requires TextCodec.Inverts(shelf.z) && Readable(shelf, c)
    ensures Rebuilt(shelf.z, c.ad) == c.ad <==> Canonical(shelf, c)
  {
    if Canonical(shelf, c) {
      var s :| c.ad.text == TextCodec.Encoded(shelf.z, s);
      TextCodec.TextRoundTrip(shelf.z, s);
    }
  }

  /**
   Reading after storing gives the stored content exactly if its text is encoded as a node encodes it. Otherwise the
   ad comes back under another digest. The other rows are as before.
   */
  lemma ReadAfterStore(shelf: Shelf, rows: Rows, height: nat, block: BlockHash, c: Content, amount: nat, id: ContentKey)
    requires TextCodec.Inverts(shelf.z) && Readable(shelf, c) && Genuine(shelf, c) && 0 < c.length
    requires shelf.digest(Rebuilt(shelf.z, c.ad)) == shelf.digest(c.ad) ==> Rebuilt(shelf.z, c.ad) == c.ad
    ensures id != c.digest ==> Fetch(shelf, Put(rows, height, block, c, amount), id) == Fetch(shelf, rows, id)
    ensures var read := Fetch(shelf, Put(rows, height, block, c, amount), c.digest);
            && read.Some?
            && (read.value.digest == c.digest <==> Canonical(shelf, c))
            && (read.value == c <==> Canonical(shelf, c))
  {
    RebuiltIfCanonical(shelf, c);
  }

  /**
   There are texts that read back as another: one byte that announces UTF-8 reads as the empty text, which a node
   writes as one byte that announces UTF-16.
   */
  lemma EmptyTextIsNotCanonical(shelf: Shelf, c: Content)
    requires TextCodec.Inverts(shelf.z) && c.ad.text == [0]
    ensures Readable(shelf, c) && !Canonical(shelf, c) && Rebuilt(shelf.z, c.ad).text == [1]
  {
    assert c.ad.text[1..] == [];
    assert TextCodec.Read(shelf.z, c.ad.text) == TextCodec.Text([]);
    assert TextCodec.Encoded(shelf.z, []) == [1];
    RebuiltIfCanonical(shelf, c);
  }

  class ContentDb {
    const shelf: Shelf
    var rows: Rows

    constructor (shelf: Shelf)
      ensures this.shelf == shelf && rows == map[]
    {
      this.shelf, rows := shelf, map[];
    }

    /**
     Inserts a row, or replaces the row with the same digest. The string of the text is what is stored, so a text that
     cannot be read stops the node.
     */
    method StoreContent(height: nat, block: BlockHash, c: Content, amount: nat) returns (stopped: bool)
      requires 0 < c.length
      modifies this`rows
      ensures stopped <==> !Readable(shelf, c)
      ensures rows == if stopped then old(rows) else Put(old(rows), height, block, c, amount)
    {
      var text := TextCodec.AsString(shelf.z, c.ad.text);
      if text.Bad? {
        return true;
      }
      rows := rows[c.digest := Row(c, block, height, (amount / c.length) % 0x1_0000_0000)];
      return false;
    }

    method ReadContent(id: ContentKey) returns (r: Option<Content>)
      ensures r == Fetch(shelf, rows, id)
    {
      if id !in rows {
        return None;
      }
      var c := rows[id].content;
      var ad := c.ad;
      var text := TextCodec.AsString(shelf.z, ad.text);
      if text.Text? {
        var encoded := TextCodec.New(shelf.z, text.text);
        ad := ad.(text := encoded);
      }
      r := Some(c.(ad := ad, digest := shelf.digest(ad), length := shelf.length(ad)));
    }

    method ListIds() returns (ids: seq<ContentKey>)
      ensures Enumerates(ids, rows.Keys)
    {
      ids := [];
      var todo := rows.Keys;
      while todo != {}
        invariant todo <= rows.Keys && Enumerates(ids, rows.Keys - todo)
      {
        var id :| id in todo;
        EnumerateOneMore(ids, rows.Keys - todo, id);
        assert rows.Keys - todo + {id} == rows.Keys - (todo - {id});
        ids, todo := ids + [id], todo - {id};
      }
    }

    /** Builds the lookup table of all rows by inserting them one by one. */
    method ComputeContentIblt(p: Scheme<ContentKey>, len: nat) returns (iblt: Iblt<ContentKey>)
      requires Usable(p) && (rows != map[] ==> 0 < len)
      ensures fresh(iblt) && iblt.scheme == p && iblt.buckets == TableOf(p, len, rows.Keys)
    {
      iblt := new Iblt(len, p);
      var ids := ListIds();
      EmptyTable(p, len);
      for i := 0 to |ids|
        invariant fresh(iblt) && iblt.scheme == p && iblt.buckets == TableOf(p, len, Entries(ids, i))
      {
        EnumerationPrefix(ids, rows.Keys, i);
        TableGrows(p, len, Entries(ids, i), ids[i]);
        iblt.Insert(ids[i]);
      }
    }

    method ComputeContentSketch(sk: Sketcher<ContentKey>) returns (v: seq<int>, count: nat)
      ensures v == SketchOf(sk, rows.Keys) && count == |rows|
    {
      var ids := ListIds();
      v, count := MinSketch(sk, ids);
    }

    /** Picks the rows that satisfy a condition. */
    method Select(condition: Row -> bool) returns (keys: seq<ContentKey>)
      ensures Enumerates(keys, Satisfying(rows, rows.Keys, condition))
    {
      var ids := ListIds();
      keys := [];
      for i := 0 to |ids|
        invariant Enumerates(keys, Satisfying(rows, Entries(ids, i), condition))
      {
        EnumerationPrefix(ids, rows.Keys, i);
        ghost var before := Satisfying(rows, Entries(ids, i), condition);
        if condition(rows[ids[i]]) {
          EnumerateOneMore(keys, before, ids[i]);
          assert Satisfying(rows, Entries(ids, i + 1), condition) == before + {ids[i]};
          keys := keys + [ids[i]];
        } else {
          assert Satisfying(rows, Entries(ids, i + 1), condition) == before;
        }
      }
    }

    /** Deletes rows one by one. */
    method DeleteRows(keys: seq<ContentKey>)
      modifies this
      ensures rows == old(rows) - AllEntries(keys)
    {
      for i := 0 to |keys|
        invariant rows == old(rows) - Entries(keys, i)
      {
        rows := rows - {keys[i]};
      }
    }

    /** Deletes the expired rows and returns their keys. */
    method DeleteExpired(height: nat) returns (keys: seq<ContentKey>)
      modifies this
      ensures Enumerates(keys, ExpiredKeys(old(rows), height))
      ensures rows == old(rows) - ExpiredKeys(old(rows), height)
      ensures forall id :: id in rows <==> id in old(rows) && old(rows)[id].height + old(rows)[id].content.term > height
    {
      keys := Select((r: Row) => Expired(r, height));
      DeleteRows(keys);
    }

    /** Deletes the rows a block funds and returns their keys. */
    method DeleteConfirmed(block: BlockHash) returns (keys: seq<ContentKey>)
      modifies this
      ensures Enumerates(keys, ConfirmedKeys(old(rows), block))
      ensures rows == old(rows) - ConfirmedKeys(old(rows), block)
      ensures forall id :: id in rows <==> id in old(rows) && old(rows)[id].block != block
    {
      keys := Select((r: Row) => r.block == block);
      DeleteRows(keys);
    }

    /** Deletes the rows that do not fit the limit and returns their keys. */
    method TruncateContent(order: seq<ContentKey>, limit: nat) returns (keys: seq<ContentKey>, ghost cut: nat)
      requires ByWeight(rows, order)
      modifies this
      ensures LongestFitting(old(rows), order, limit, cut) && keys == order[cut..]
      ensures Enumerates(keys, old(rows).Keys - Entries(order, cut))
      ensures rows == old(rows) - AllEntries(keys) && rows.Keys == Entries(order, cut)
    {
      keys := Overflow(rows, order, limit);
      cut := |order| - |keys|;
      EnumerationSplits(order, rows.Keys, cut);
      EnumerationPrefix(order, rows.Keys, cut);
      DeleteRows(keys);
    }
  }

  /** Adds up the lengths in the order of the query and picks every row at which the sum exceeds the limit. */
  method Overflow(rows: Rows, order: seq<ContentKey>, limit: nat) returns (keys: seq<ContentKey>)
    requires AllEntries(order) <= rows.Keys
    ensures |keys| <= |order| && keys == order[|order| - |keys|..]
    ensures LongestFitting(rows, order, limit, |order| - |keys|)
  {
    ghost var cut := 0;
    keys := [];
    var size := 0;
    for i := 0 to |order|
      invariant size == PrefixLength(rows, order, i)
      invariant cut <= i && keys == order[cut..i]
      invariant PrefixLength(rows, order, cut) <= limit
      invariant cut < i ==> PrefixLength(rows, order, cut + 1) > limit
    {
      EntriesHold(order, |order|, i);
      size := size + rows[order[i]].content.length;
      if size > limit {
        keys := keys + [order[i]];
      } else {
        if cut < i {
          PrefixLengthGrows(rows, order, cut + 1, i + 1);
        }
        cut := i + 1;
      }
    }
  }

  /* ---------- what truncation keeps ---------- */

  /** The length of all rows together. */
  ghost function SumLength(rows: Rows): nat {
    if rows == map[] then 0
    else
      var id :| id in rows;
      rows[id].content.length + SumLength(rows - {id})
  }

  lemma {:induction false} SumLengthPick(rows: Rows, id: ContentKey)
    requires id in rows
    ensures SumLength(rows) == rows[id].content.length + SumLength(rows - {id})
    decreases |rows|
  {
    var first :| first in rows && SumLength(rows) == rows[first].content.length + SumLength(rows - {first});
    if first != id {
      SumLengthPick(rows - {first}, id);
      SumLengthPick(rows - {id}, first);
      assert rows - {first} - {id} == rows - {id} - {first};
    }
  }

  lemma {:induction false} SumLengthSubset(a: Rows, b: Rows)
    requires a.Keys <= b.Keys && forall id :: id in a ==> a[id].content.length == b[id].content.length
    ensures SumLength(a) <= SumLength(b)
    decreases |a|
  {
    if id :| id in a {
      SumLengthPick(a, id);
      SumLengthPick(b, id);
      SumLengthSubset(a - {id}, b - {id});
    } else {
      assert a == map[];
    }
  }

  /** In whatever order the rows are added up, the total is the same. */
  lemma {:induction false} TotalIsSum(rows: Rows, ids: seq<ContentKey>, i: nat, part: Rows)
    requires i <= |ids| && Enumerates(ids, rows.Keys)
    requires part.Keys == Entries(ids, i) && forall id :: id in part ==> id in rows && part[id] == rows[id]
    ensures PrefixLength(rows, ids, i) == SumLength(part)
  {
    if i == 0 {
      assert part == map[];
    } else {
      var last := ids[i - 1];
      EnumerationPrefix(ids, rows.Keys, i - 1);
      SumLengthPick(part, last);
      TotalIsSum(rows, ids, i - 1, part - {last});
    }
  }

  /** The rows that are kept fit the limit together. */
  lemma KeptFits(rows: Rows, order: seq<ContentKey>, limit: nat, cut: nat, kept: Rows)
    requires ByWeight(rows, order) && LongestFitting(rows, order, limit, cut)
    requires kept.Keys == Entries(order, cut) && forall id :: id in kept ==> id in rows && kept[id] == rows[id]
    ensures SumLength(kept) <= limit
  {
    TotalIsSum(rows, order, cut, kept);
  }

  /** If all rows together fit, no order of the query makes truncation drop one. */
  lemma NothingDropped(rows: Rows, order: seq<ContentKey>, limit: nat, cut: nat)
    requires ByWeight(rows, order) && LongestFitting(rows, order, limit, cut)
    requires SumLength(rows) <= limit
    ensures cut == |order|
  {
    TotalIsSum(rows, order, |order|, rows);
    if cut < |order| {
      PrefixLengthGrows(rows, order, cut + 1, |order|);
    }
  }

  /** Truncating again with the same limit drops nothing, even if the query now answers in another order. */
  lemma TruncationIdempotent(rows: Rows, order: seq<ContentKey>, limit: nat, cut: nat, kept: Rows,
                             again: seq<ContentKey>, cut': nat)
    requires ByWeight(rows, order) && LongestFitting(rows, order, limit, cut)
    requires kept.Keys == Entries(order, cut) && forall id :: id in kept ==> id in rows && kept[id] == rows[id]
    requires ByWeight(kept, again) && LongestFitting(kept, again, limit, cut')
    ensures cut' == |again|
  {
    KeptFits(rows, order, limit, cut, kept);
    NothingDropped(kept, again, limit, cut');
  }

  /** No row is dropped that is heavier than a row that is kept. */
  lemma NoHeavierRowDropped(rows: Rows, order: seq<ContentKey>, cut: nat, kept: ContentKey, dropped: ContentKey)
    requires ByWeight(rows, order) && cut <= |order|
    requires kept in Entries(order, cut) && dropped in rows && dropped !in Entries(order, cut)
    ensures kept in rows && rows[kept].weight >= rows[dropped].weight
  {
    var i := EntryAt(order, cut, kept);
    var j := EntryAt(order, |order|, dropped);
    EntriesHold(order, |order|, i);
    if j < cut {
      EntriesHold(order, cut, j);
    }
  }

  lemma EmptyTable<K(!new)>(p: Scheme<K>, m: nat)
    ensures NewTable(p, m) == TableOf(p, m, {})
  {
  }
}
