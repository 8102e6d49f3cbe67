/**
 The message handlers of a node that keeps its ads in line with its peers. Each handler is shown to be a step of the
 exchange in Exchange, whatever the cached tables of the store are worth.
 */
module Updater {
  import opened Wrappers
  import opened Keys
  import opened Algebra
  import opened Peeling
  import opened Listing
  import opened Difference
  import opened Caches
  import opened ContentDb
  import opened ContentStore
  import Exchange
  import Refinement

  type PeerId = nat

  /* ---------- the size of a table ---------- */

  /** The smallest size in the ladder from the minimum in steps of four that covers the estimate, or the maximum. */
  method TableSize(diff: nat) returns (size: nat, ghost steps: nat)
    ensures steps <= 8 && size == Exchange.TimesFour(Exchange.MINIMUM_IBLT_SIZE, steps) && Exchange.IsTableSize(size)
    ensures size >= diff || size == Exchange.MAXIMUM_IBLT_SIZE
    ensures forall j: nat :: j < steps ==> Exchange.TimesFour(Exchange.MINIMUM_IBLT_SIZE, j) < diff
  {
    size, steps := Exchange.MINIMUM_IBLT_SIZE, 0;
    assert Exchange.TimesFour(Exchange.MINIMUM_IBLT_SIZE, 8) == Exchange.MAXIMUM_IBLT_SIZE by {
      assert Exchange.TimesFour(Exchange.MINIMUM_IBLT_SIZE, 2) == 1600;
      assert Exchange.TimesFour(Exchange.MINIMUM_IBLT_SIZE, 4) == 25600;
      assert Exchange.TimesFour(Exchange.MINIMUM_IBLT_SIZE, 6) == 409600;
    }
    while size < Exchange.MAXIMUM_IBLT_SIZE && size < diff
      invariant steps <= 8 && size == Exchange.TimesFour(Exchange.MINIMUM_IBLT_SIZE, steps) > 0
      invariant forall j: nat :: j < steps ==> Exchange.TimesFour(Exchange.MINIMUM_IBLT_SIZE, j) < diff
      decreases Exchange.MAXIMUM_IBLT_SIZE - size
    {
      if steps == 8 {
        assert false;
      }
      size, steps := 4 * size, steps + 1;
    }
  }

  /** The sizes of tables, from the smallest. */
  const LADDER: seq<nat> := [100, 400, 1600, 6400, 25600, 102400, 409600, 1638400, 6553600]

  lemma LadderIs(j: nat)
    requires j <= 8
    ensures Exchange.TimesFour(Exchange.MINIMUM_IBLT_SIZE, j) == LADDER[j]
  {
    if j > 0 {
      LadderIs(j - 1);
    }
  }

  /** The least size in the ladder that covers the difference, or the largest one if none does. */
  ghost predicate IsLeastSize(size: nat, diff: nat) {
    && size in LADDER && (size >= diff || size == 6553600)
    && forall i :: 0 <= i < |LADDER| && LADDER[i] < size ==> LADDER[i] < diff
  }

  lemma LeastInLadder(size: nat, diff: nat, steps: nat)
    requires steps <= 8 && size == Exchange.TimesFour(Exchange.MINIMUM_IBLT_SIZE, steps)
    requires size >= diff || size == Exchange.MAXIMUM_IBLT_SIZE
    requires forall j: nat :: j < steps ==> Exchange.TimesFour(Exchange.MINIMUM_IBLT_SIZE, j) < diff
    ensures IsLeastSize(size, diff)
  {
    LadderIs(steps);
    forall i: nat | i < |LADDER| && LADDER[i] < size ensures LADDER[i] < diff {
      LadderIs(i);
      assert i < steps;
    }
  }

  /** The sizes in use are those of the ladder. */
  lemma SizesAreLadder(size: nat)
    ensures Exchange.IsTableSize(size) <==> size in LADDER
  {
    forall j: nat | j <= 8 ensures Exchange.TimesFour(Exchange.MINIMUM_IBLT_SIZE, j) == LADDER[j] {
      LadderIs(j);
    }
    if size in LADDER {
      var j: nat :| j < |LADDER| && LADDER[j] == size;
      assert Exchange.TimesFour(Exchange.MINIMUM_IBLT_SIZE, j) == size;
    }
  }

  /* ---------- messages ---------- */

  datatype PollMessage = PollMessage(tip: BlockHash, sketch: seq<int>, size: nat)

  datatype Message =
    | PollContent(poll: PollMessage)
    | ContentIblt(tip: BlockHash, table: Table<ContentKey>)
    | Get(ids: seq<ContentKey>)

  type Post = Exchange.Post<ContentKey, Content>
  type Node = Exchange.Holder<ContentKey, Content>
  type Realm = Exchange.Realm<ContentKey, Content>

  function ContentsOf(rows: Rows): map<ContentKey, Content> {
    map id | id in rows :: rows[id].content
  }

  function AsRows(contents: map<ContentKey, Content>): Rows {
    map id | id in contents :: Row(contents[id], 0, 0, 0)
  }

  /** The exchange as nodes with this trunk play it. */
  ghost function RealmOf(p: Scheme<ContentKey>, trunk: Trunk, commitment: Commitment, limit: nat, shelf: Shelf): Realm {
    Exchange.Realm(
      p,
      (c: Content) => c.digest,
      (c: Content) => 0 < c.length && Judge(trunk, commitment, c).Some?,
      (contents: map<ContentKey, Content>) => SumLength(AsRows(contents)) <= limit,
      (c: Content) => Readable(shelf, c),
      (c: Content) => Reread(shelf, c))
  }

  /** What is sent to the peer, as the exchange has it. */
  function PostOf(out: Option<Message>, keys: set<ContentKey>): Post {
    match out
    case None => Exchange.NoPost()
    case Some(PollContent(poll)) => Exchange.NoPost<ContentKey, Content>().(polls := 1)
    case Some(ContentIblt(tip, table)) => Exchange.NoPost<ContentKey,
      Content>().(tables := [Exchange.Sent(table, keys)])
    case Some(Get(ids)) => Exchange.NoPost<ContentKey, Content>().(gets := [ids])
  }

  class Updater {
    const store: ContentStore
    var pollAsked: map<PeerId, PollMessage>
    ghost var sent: map<PeerId, set<nat>>

    constructor (store: ContentStore)
      ensures this.store == store && pollAsked == map[] && sent == map[]
    {
      this.store, pollAsked, sent := store, map[], map[];
    }

    /** This node in an exchange with one peer. */
    ghost function NodeFor(pid: PeerId): Node
      reads this, store, store.db
    {
      Exchange.Holder(ContentsOf(store.db.rows), store.iblts, pid in pollAsked, if pid in sent then sent[pid] else {})
    }

    ghost function Here(trunk: Trunk): Realm
      reads this, store, store.db
    {
      RealmOf(store.cfg.scheme, trunk, store.commitment, store.storageLimit, store.db.shelf)
    }

    /** Polls a peer, on connection or in answer to its poll. Without a tip there is nothing to poll about. */
    method Poll(pid: PeerId, trunk: Trunk) returns (out: Option<Message>)
      modifies this`pollAsked
      ensures trunk == [] ==> out == None && pollAsked == old(pollAsked)
      ensures trunk != [] ==>
                && out == Some(PollContent(PollMessage(trunk[|trunk| - 1].hash, store.minSketch, store.nKeys)))
                && pollAsked == old(pollAsked)[pid := out.value.poll]
    {
      if trunk == [] {
        return None;
      }
      var tip := trunk[|trunk| - 1].hash;
      var poll := PollMessage(tip, store.minSketch, store.nKeys);
      pollAsked := pollAsked[pid := poll];
      out := Some(PollContent(poll));
    }

    /** Handles a poll. The estimate of the difference is that of the two sketches. */
    method OnPollContent(pid: PeerId, poll: PollMessage, trunk: Trunk, estimate: nat) returns (out: Option<Message>)
      requires store.Valid()
      modifies this`pollAsked, this`sent, store`iblts
      ensures store.Valid()
      ensures trunk == [] ==> out == None && NodeFor(pid) == old(NodeFor(pid)).(asked := false)
      ensures trunk != [] ==>
                Exchange.OnPoll(Here(trunk), old(NodeFor(pid)), NodeFor(pid), PostOf(out, store.db.rows.Keys))
      ensures pid !in old(pollAsked) && trunk != [] ==> out.Some? && out.value.PollContent?
      ensures pid in old(pollAsked) ==>
                (out.Some? <==>
                 && trunk != [] && trunk[|trunk| - 1].hash == poll.tip == old(pollAsked)[pid].tip
                 && estimate * 3 / 2 > 0)
      ensures pid in old(pollAsked) && out.Some? ==>
                && out.value.ContentIblt? && out.value.tip == poll.tip
                && IsLeastSize(|out.value.table|, estimate * 3 / 2)
                && out.value.table == old(OwnTable(|out.value.table|))
    {
      out := None;
      if pid !in pollAsked {
        out := Poll(pid, trunk);
        return;
      }
      var question := pollAsked[pid];
      pollAsked := pollAsked - {pid};
      if trunk == [] {
        return;
      }
      var tip := trunk[|trunk| - 1].hash;
      var diff := estimate * 3 / 2;
      if tip == question.tip && question.tip == poll.tip && diff > 0 {
        var size, steps := TableSize(diff);
        LeastInLadder(size, diff, steps);
        var table := store.GetIblt(size);
        out := Some(ContentIblt(tip, table));
        sent := sent[pid := old(NodeFor(pid)).sent + {size}];
        assert ContentsOf(store.db.rows).Keys == store.db.rows.Keys;
        assert Exchange.SendsTable(Here(trunk), old(NodeFor(pid)), size, NodeFor(pid), PostOf(out, store.db.rows.Keys));
      }
    }

    /** The own table of a size, as cached or computed now. */
    ghost function OwnTable(size: nat): (t: Table<ContentKey>)
      reads this, store, store.db
      requires store.Valid()
      ensures |t| == size
    {
      if size in store.iblts then store.iblts[size] else TableOf(store.cfg.scheme, size, store.db.rows.Keys)
    }

    /** Subtracts the own table of the same size, and lists what the peer holds more. */
    method Decode(table: Table<ContentKey>)
      returns (request: seq<ContentKey>, ghost entries: seq<Entry<ContentKey>>, ghost clean: bool)
      requires store.Valid() && 0 < |table|
      requires Ends(store.cfg.scheme, Subtracted(store.cfg.scheme, table, OwnTable(|table|)))
      modifies store`iblts
      ensures store.Valid() && store.iblts == Looked(store.cfg.scheme, old(store.iblts), store.db.rows.Keys, |table|)
      ensures Lists(store.cfg.scheme, Subtracted(store.cfg.scheme, table, old(OwnTable(|table|))), entries, clean)
      ensures request == Exchange.RequestOf(entries, |entries|)
      ensures forall theirs :: GivesAway(store.cfg.scheme, table, old(OwnTable(|table|)), theirs,
                                         store.db.rows.Keys) ==>
                                 Enumerates(request, Wanted(store.cfg.scheme, |table|, theirs, store.db.rows.Keys))
    {
      var own := store.GetIblt(|table|);
      var listed, end := ListAll(store.cfg.scheme, Subtracted(store.cfg.scheme, table, own));
      request := [];
      for i := 0 to |listed|
        invariant request == Exchange.RequestOf(listed, i)
      {
        if listed[i].Inserted? {
          request := request + [listed[i].key];
        }
      }
      entries, clean := listed, end;
      forall theirs | GivesAway(store.cfg.scheme, table, own, theirs, store.db.rows.Keys)
        ensures Enumerates(request, Wanted(store.cfg.scheme, |table|, theirs, store.db.rows.Keys))
      {
        Refinement.RequestIsExact(store.cfg.scheme, Subtracted(store.cfg.scheme, table, own), theirs,
                                  store.db.rows.Keys, listed, end);
      }
    }

    /**
     Handles a table: requests what the iterator lists as inserted. A table for another tip is ignored. On tables on
     which the iterator does not end the handler does not either.
     */
    method OnContentIblt(pid: PeerId, tip: BlockHash, table: Table<ContentKey>, trunk: Trunk)
      returns (out: Option<Message>)
      requires store.Valid() && 0 < |table|
      requires trunk != [] && trunk[|trunk| - 1].hash == tip ==>
                 Ends(store.cfg.scheme, Subtracted(store.cfg.scheme, table, OwnTable(|table|)))
      modifies store`iblts
      ensures store.Valid()
      ensures trunk == [] || trunk[|trunk| - 1].hash != tip ==> out == None && NodeFor(pid) == old(NodeFor(pid))
      ensures trunk != [] && trunk[|trunk| - 1].hash == tip ==>
                Exchange.OnTable(Here(trunk), old(NodeFor(pid)), table, NodeFor(pid), PostOf(out, store.db.rows.Keys))
    {
      if trunk == [] || trunk[|trunk| - 1].hash != tip {
        return None;
      }
      var request;
      ghost var entries, clean;
      request, entries, clean := Decode(table);
      out := if request == [] then None else Some(Get(request));
      assert ContentsOf(store.db.rows).Keys == store.db.rows.Keys;
      assert Exchange.Decodes(Here(trunk), old(NodeFor(pid)), table, entries, clean, NodeFor(pid),
                              PostOf(out, store.db.rows.Keys));
    }

    /** Handles a request. A key without a row stops the node. */
    method OnGet(ids: seq<ContentKey>) returns (contents: seq<Content>, stopped: bool)
      ensures stopped <==> exists i :: 0 <= i < |ids| && ids[i] !in store.db.rows
      ensures !stopped ==> Answered(store.db.shelf, store.db.rows, ids, contents)
    {
      contents, stopped := [], false;
      for i := 0 to |ids|
        invariant |contents| == i && forall j :: 0 <= j < i ==> ids[j] in store.db.rows
        invariant forall j :: 0 <= j < i ==> contents[j] == Reread(store.db.shelf, store.db.rows[ids[j]].content)
      {
        var r := store.db.ReadContent(ids[i]);
        if r.None? {
          return [], true;
        }
        contents := contents + [r.value];
      }
    }

    /** Stores a content if it is accepted. An accepted content whose text cannot be read stops the node. */
    method Offer(c: Content, trunk: Trunk) returns (stopped: bool)
      requires store.Valid() && 0 < c.length
      modifies store`iblts, store`minSketch, store`nKeys, store.db
      ensures store.Valid()
      ensures stopped <==> Judge(trunk, store.commitment, c).Some? && !Readable(store.db.shelf, c)
      ensures store.db.rows ==
              if stopped then old(store.db.rows) else RowsWith(old(store.db.rows), trunk, store.commitment, c)
      ensures store.iblts == TablesWith(store.cfg.scheme, old(store.iblts), trunk, store.commitment, c)
    {
      var _, stops := store.AddContent(trunk, c);
      stopped := stops;
    }

    /** Truncates the store, unless more contents are expected. */
    method Trim(busy: bool, order: seq<ContentKey>) returns (ghost keys: seq<ContentKey>)
      requires store.Valid() && (!busy ==> ByWeight(store.db.rows, order))
      modifies store`iblts, store`minSketch, store`nKeys, store.db
      ensures store.Valid() && Drops(old(store.db.rows), store.storageLimit, keys)
      ensures store.db.rows == old(store.db.rows) - AllEntries(keys)
      ensures store.iblts == WithDeleted(store.cfg.scheme, old(store.iblts), keys)
      ensures busy ==> store.db.rows == old(store.db.rows)
      ensures !busy ==> KeepsHeaviest(old(store.db.rows), order, store.storageLimit, store.db.rows)
    {
      if busy {
        keys := [];
        NothingTrimmed(store.cfg.scheme, store.db.rows, store.iblts);
      } else {
        keys := TruncateRows(order);
      }
    }

    method TruncateRows(order: seq<ContentKey>) returns (ghost keys: seq<ContentKey>)
      requires store.Valid() && ByWeight(store.db.rows, order)
      modifies store`iblts, store`minSketch, store`nKeys, store.db
      ensures store.Valid() && Drops(old(store.db.rows), store.storageLimit, keys)
      ensures store.db.rows == old(store.db.rows) - AllEntries(keys)
      ensures store.iblts == WithDeleted(store.cfg.scheme, old(store.iblts), keys)
      ensures KeepsHeaviest(old(store.db.rows), order, store.storageLimit, store.db.rows)
    {
      ghost var rows, cut := store.db.rows, 0;
      keys, cut := store.TruncateToLimit(order);
      TruncationDrops(rows, order, store.storageLimit, cut, keys);
      TruncationKeepsHeaviest(rows, order, store.storageLimit, cut, store.db.rows);
    }

    /** Handles a content. */
    method OnContent(pid: PeerId, c: Content, trunk: Trunk, busy: bool, order: seq<ContentKey>)
      returns (stopped: bool)
      requires store.Valid() && 0 < c.length
      requires !busy ==> ByWeight(RowsWith(store.db.rows, trunk, store.commitment, c), order)
      modifies store`iblts, store`minSketch, store`nKeys, store.db
      ensures store.Valid()
      ensures stopped <==> Here(trunk).accepts(c) && !Here(trunk).readable(c)
      ensures stopped ==> store.db.rows == old(store.db.rows)
      ensures !stopped ==> Exchange.OnAd(Here(trunk), old(NodeFor(pid)), c, NodeFor(pid), Exchange.NoPost())
      ensures !stopped && busy ==> store.db.rows == RowsWith(old(store.db.rows), trunk, store.commitment, c)
      ensures !stopped && !busy ==> SumLength(store.db.rows) <= store.storageLimit
      ensures !stopped && !busy ==>
                KeepsHeaviest(RowsWith(old(store.db.rows), trunk, store.commitment, c), order, store.storageLimit,
                              store.db.rows)
    {
      stopped := Offer(c, trunk);
      if stopped {
        return;
      }
      ghost var keys := Trim(busy, order);
      TakenIsOnAd(store.cfg.scheme, trunk, store.commitment, store.storageLimit, store.db.shelf,
                  old(store.db.rows), c, keys, store.db.rows, old(NodeFor(pid)), NodeFor(pid));
    }
  }

  /** The contents are the rows of the keys, as they read back. */
  ghost predicate Answered(shelf: Shelf, rows: Rows, ids: seq<ContentKey>, contents: seq<Content>) {
    && |contents| == |ids|
    && forall i :: 0 <= i < |ids| ==> ids[i] in rows && contents[i] == Reread(shelf, rows[ids[i]].content)
  }

  /** The answer to a request is the step of the exchange. */
  lemma AnswerIsOnGet(r: Realm, shelf: Shelf, rows: Rows, n: Node, ids: seq<ContentKey>, contents: seq<Content>)
    requires Answered(shelf, rows, ids, contents) && n.rows == ContentsOf(rows)
    requires forall c: Content :: r.reread(c) == Reread(shelf, c)
    ensures Exchange.OnGet(r, n, ids, n, Exchange.NoPost<ContentKey, Content>().(ads := multiset(contents)))
  {
    assert contents == Exchange.Answers(r.reread, n.rows, ids);
  }

  /** The difference of two tables is that of their sets, and the hash tells its keys from mixtures. */
  ghost predicate GivesAway(p: Scheme<ContentKey>, table: Table<ContentKey>, own: Table<ContentKey>,
                            theirs: set<ContentKey>,
                            mine: set<ContentKey>)
  {
    |table| == |own| && Listable(p, Subtracted(p, table, own), Diff(theirs, mine))
  }

  /** The keys only the peer holds, except those of the core. */
  ghost function Wanted(p: Scheme<ContentKey>, m: nat, theirs: set<ContentKey>,
                        mine: set<ContentKey>): set<ContentKey> {
    (theirs - mine) - Core(p, m, Diff(theirs, mine).Keys)
  }

  /** The rows after a content was offered. */
  function RowsWith(rows: Rows, trunk: Trunk, commitment: Commitment, c: Content): Rows
    requires 0 < c.length
  {
    match Judge(trunk, commitment, c)
    case None => rows
    case Some(row) => rows[c.digest := row]
  }

  /** The cached tables after a content was offered. */
  function TablesWith(p: Scheme<ContentKey>, iblts: Tables<ContentKey>, trunk: Trunk, commitment: Commitment,
                      c: Content): Tables<ContentKey>
    requires 0 < c.length
  {
    if Judge(trunk, commitment, c).Some? then WithInserted(p, iblts, c.digest) else iblts
  }

  /** Listed rows are dropped, but none if all fit the limit. */
  ghost predicate Drops(rows: Rows, limit: nat, keys: seq<ContentKey>) {
    Enumerates(keys, AllEntries(keys)) && AllEntries(keys) <= rows.Keys && (SumLength(rows) <= limit ==> keys == [])
  }

  /**
   The rows are those of the longest prefix of the order whose lengths add up to at most the limit: with one more row
   of the order they would exceed it.
   */
  ghost predicate KeepsHeaviest(rows: Rows, order: seq<ContentKey>, limit: nat, kept: Rows) {
    && SumLength(kept) <= limit
    && exists cut: nat ::
         && cut <= |order| && kept.Keys == Entries(order, cut)
         && (forall id :: id in kept ==> id in rows && kept[id] == rows[id])
         && (cut < |order| ==> order[cut] in rows && SumLength(kept) + rows[order[cut]].content.length > limit)
  }

  lemma TruncationKeepsHeaviest(rows: Rows, order: seq<ContentKey>, limit: nat, cut: nat, kept: Rows)
    requires ByWeight(rows, order) && LongestFitting(rows, order, limit, cut) && kept.Keys == Entries(order, cut)
    requires forall id :: id in kept ==> id in rows && kept[id] == rows[id]
    ensures KeepsHeaviest(rows, order, limit, kept)
  {
    TotalIsSum(rows, order, cut, kept);
    if cut < |order| {
      EnumerationPrefix(order, rows.Keys, cut);
    }
  }

  lemma NothingTrimmed(p: Scheme<ContentKey>, rows: Rows, iblts: Tables<ContentKey>)
    ensures rows - AllEntries([]) == rows && WithDeleted(p, iblts, []) == iblts
  {
  }

  lemma TruncationDrops(rows: Rows, order: seq<ContentKey>, limit: nat, cut: nat, keys: seq<ContentKey>)
    requires ByWeight(rows, order) && LongestFitting(rows, order, limit, cut) && keys == order[cut..]
    requires Enumerates(keys, rows.Keys - Entries(order, cut))
    ensures Drops(rows, limit, keys)
  {
    if SumLength(rows) <= limit {
      NothingDropped(rows, order, limit, cut);
      assert keys == [];
    }
  }

  lemma TakenIsOnAd(p: Scheme<ContentKey>, trunk: Trunk, commitment: Commitment, limit: nat, shelf: Shelf,
                    was: Rows, c: Content, keys: seq<ContentKey>, kept: Rows, n: Node, n': Node)
    requires 0 < c.length && (Judge(trunk, commitment, c).Some? ==> Readable(shelf, c)) &&
             Drops(RowsWith(was, trunk, commitment, c), limit, keys)
    requires kept == RowsWith(was, trunk, commitment, c) - AllEntries(keys) && n.rows == ContentsOf(was)
    requires n' == n.(rows := ContentsOf(kept),
                   iblts := WithDeleted(p, TablesWith(p, n.iblts, trunk, commitment, c), keys))
    ensures Exchange.OnAd(RealmOf(p, trunk, commitment, limit, shelf), n, c, n', Exchange.NoPost())
  {
    var r, stored := RealmOf(p, trunk, commitment, limit, shelf), RowsWith(was, trunk, commitment, c);
    AddedAs(p, trunk, commitment, limit, shelf, was, c, n);
    var n1 := Exchange.Added(r, n, c);
    SameLength(stored, AsRows(ContentsOf(stored)));
    DroppedContents(stored, keys);
    assert Exchange.Truncates(r, n1, keys, n');
  }

  lemma AddedAs(p: Scheme<ContentKey>, trunk: Trunk, commitment: Commitment, limit: nat, shelf: Shelf, was: Rows,
                c: Content, n: Node)
    requires 0 < c.length && n.rows == ContentsOf(was)
    ensures Exchange.Added(RealmOf(p, trunk, commitment, limit, shelf), n, c) ==
            n.(rows := ContentsOf(RowsWith(was, trunk, commitment, c)),
            iblts := TablesWith(p, n.iblts, trunk, commitment, c))
  {
    StoredContents(n.rows, was, trunk, commitment, c);
  }

  lemma DroppedContents(rows: Rows, keys: seq<ContentKey>)
    ensures ContentsOf(rows - AllEntries(keys)) == ContentsOf(rows) - AllEntries(keys)
  {
  }

  lemma StoredContents(contents: map<ContentKey, Content>, was: Rows, trunk: Trunk, commitment: Commitment, c: Content)
    requires 0 < c.length && contents == ContentsOf(was)
    ensures ContentsOf(RowsWith(was, trunk, commitment, c)) ==
            if Judge(trunk, commitment, c).Some? then contents[c.digest := c] else contents
  {
  }

  lemma SameLength(a: Rows, b: Rows)
    requires a.Keys == b.Keys && forall id :: id in a ==> a[id].content.length == b[id].content.length
    ensures SumLength(a) == SumLength(b)
  {
    SumLengthSubset(a, b);
    SumLengthSubset(b, a);
  }
}
