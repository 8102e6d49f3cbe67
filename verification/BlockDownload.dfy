/**
 The two queues that carry blocks from the network to the store in chain order, across lost peers, answers out
 of sequence and reorganisations.
 */
module BlockDownload {
  import opened Wrappers

  type Hash = nat
  type PeerId = nat

  datatype BlockRef = BlockRef(hash: Hash, height: nat)

  /** A header that was taken back. */
  datatype Unwound = Unwound(hash: Hash, prev: Hash, time: nat)

  /**
   The answer of the header database to one header: it is stored, and with it come the headers taken back and the
   headers that became part of the trunk, if there are any. A header on a side branch is stored without either.
   */
  datatype Added =
    | Stored(ref: BlockRef, time: nat, unwinds: Option<seq<Unwound>>, forwards: Option<seq<Hash>>)
    | Known
    | Rejected

  /**
   The blocks the store has processed and not taken back, the blocks asked for, the blocks to be asked
   for, and the last block the store has recorded as processed.
   */
  datatype Queues = Queues(done: seq<BlockRef>, asked: seq<BlockRef>, wanted: seq<BlockRef>, processed: Option<Hash>)

  /** All blocks in the order in which they reach the store. */
  function Pipeline(q: Queues): seq<BlockRef> {
    q.done + q.asked + q.wanted
  }

  /* ---------- the steps as functions ---------- */

  const BATCH := 1000

  function Least(a: nat, b: nat): nat {
    if a < b then a else b
  }

  /** The download peer is lost. */
  function Lost(q: Queues): Queues {
    q.(asked := [], wanted := q.asked + q.wanted)
  }

  function AskedMore(q: Queues): Queues {
    var k := Least(BATCH, |q.wanted|);
    q.(asked := q.asked + q.wanted[..k], wanted := q.wanted[k..])
  }

  /** The hashes of all blocks asked for. */
  function Request(q: Queues): Option<seq<Hash>> {
    if q.asked == [] then None else Some(seq(|q.asked|, i requires 0 <= i < |q.asked| => q.asked[i].hash))
  }

  /** The block expected next arrives; any other is dropped. */
  function Arrived(q: Queues, hash: Hash): Queues {
    if q.asked != [] && q.asked[0].hash == hash
    then q.(done := q.done + [q.asked[0]], asked := q.asked[1..], processed := Some(hash))
    else q
  }

  /** One header is taken back: the last wanted block is forgotten, and the store undoes the block if it has it. */
  function TakenBack(q: Queues, u: Unwound): Queues {
    Queues(
      if q.done != [] && q.done[|q.done| - 1].hash == u.hash then q.done[..|q.done| - 1] else q.done,
      q.asked,
      if q.wanted == [] then [] else q.wanted[..|q.wanted| - 1],
      Some(u.prev))
  }

  /** The first i of a list of headers are taken back, as far as they are later than the birth. */
  function TakenBackAll(q: Queues, us: seq<Unwound>, birth: nat, i: nat): Queues
    requires i <= |us|
  {
    if i == 0 then q
    else
      var r := TakenBackAll(q, us, birth, i - 1);
      if us[i - 1].time > birth then TakenBack(r, us[i - 1]) else r
  }

  /** The new headers among the first i answers that are later than the birth. */
  function Recent(results: seq<Added>, birth: nat, i: nat): seq<BlockRef>
    requires i <= |results|
  {
    if i == 0 then []
    else if results[i - 1].Stored? && results[i - 1].time > birth
    then Recent(results, birth, i - 1) + [results[i - 1].ref]
    else Recent(results, birth, i - 1)
  }

  predicate Reorganises(r: Added) {
    r.Stored? && r.unwinds.Some?
  }

  /** How many answers are read before the store is told: up to the first that reorganises the chain. */
  function BatchEnd(results: seq<Added>): (n: nat)
    ensures n <= |results| && (results != [] ==> 0 < n)
    ensures forall j :: 0 <= j < n - 1 ==> !Reorganises(results[j])
    ensures n < |results| ==> 0 < n && Reorganises(results[n - 1])
  {
    if results == [] then 0
    else if Reorganises(results[0]) then 1
    else 1 + BatchEnd(results[1..])
  }

  function UnwindsOf(results: seq<Added>, n: nat): seq<Unwound>
    requires n <= |results|
  {
    if 0 < n && Reorganises(results[n - 1]) then results[n - 1].unwinds.value else []
  }

  /** One batch of answers: first what was taken back, then what is new. */
  function AfterBatch(q: Queues, results: seq<Added>, birth: nat, n: nat): Queues
    requires n <= |results|
  {
    var us := UnwindsOf(results, n);
    var r := TakenBackAll(q, us, birth, |us|);
    r.(wanted := r.wanted + Recent(results, birth, n))
  }

  function AfterHeaders(q: Queues, results: seq<Added>, birth: nat): Queues
    decreases |results|
  {
    if results == [] then q
    else
      var n := BatchEnd(results);
      AfterHeaders(AfterBatch(q, results, birth, n), results[n..], birth)
  }

  /* ---------- the download ---------- */

  class BlockDownload {
    var wanted: seq<BlockRef>
    var asked: seq<BlockRef>
    var peer: Option<PeerId>
    const birth: nat
    ghost var done: seq<BlockRef>
    ghost var processed: Option<Hash>

    ghost function Now(): Queues
      reads this
    {
      Queues(done, asked, wanted, processed)
    }

    /** Blocks are asked for only while there is a download peer that owes them. */
    ghost predicate Valid()
      reads this
    {
      peer.None? ==> asked == []
    }

    constructor (wanted: seq<BlockRef>, birth: nat, ghost processed: Option<Hash>)
      ensures Valid() && Now() == Queues([], [], wanted, processed) && peer == None && this.birth == birth
    {
      this.wanted, asked, peer, this.birth, done, this.processed := wanted, [], None, birth, [], processed;
    }

    /** A peer that serves blocks becomes the download peer if there is none; a download peer is never replaced. */
    method Connected(pid: PeerId, servesBlocks: bool)
      requires Valid()
      modifies this`peer
      ensures Valid() && (servesBlocks ==> peer.Some?) && (old(peer).Some? ==> peer == old(peer))
      ensures old(peer).None? && peer.Some? ==> peer.value == pid && servesBlocks && asked == []
    {
      if servesBlocks && peer.None? {
        peer := Some(pid);
      }
    }

    /** If the download peer is lost, what it was asked for is wanted again, in its old place. */
    method Disconnected(pid: PeerId)
      requires Valid()
      modifies this
      ensures Valid()
      ensures if old(peer) == Some(pid) then peer == None && Now() == Lost(old(Now()))
              else peer == old(peer) && Now() == old(Now())
    {
      if peer == Some(pid) {
        peer := None;
        while asked != []
          invariant asked <= old(asked) && wanted == old(asked)[|asked|..] + old(wanted)
          invariant done == old(done) && processed == old(processed) && peer == None
          decreases |asked|
        {
          var last := asked[|asked| - 1];
          asked, wanted := asked[..|asked| - 1], [last] + wanted;
        }
      }
    }

    /** Asks for up to a batch of blocks, unless the peer still owes blocks. */
    method AskBlocks(busy: bool) returns (request: Option<seq<Hash>>)
      requires Valid() && peer.Some?
      modifies this`asked, this`wanted
      ensures Valid()
      ensures Now() == if busy then old(Now()) else AskedMore(old(Now()))
      ensures request == if busy then None else Request(Now())
    {
      if busy {
        return None;
      }
      var entries := 0;
      while wanted != [] && entries < BATCH
        invariant 0 <= entries <= BATCH && entries <= |old(wanted)|
        invariant asked == old(asked) + old(wanted)[..entries] && wanted == old(wanted)[entries..]
        decreases BATCH - entries
      {
        asked, wanted := asked + [wanted[0]], wanted[1..];
        entries := entries + 1;
      }
      if asked == [] {
        return None;
      }
      request := Some(seq(|asked|, i requires 0 <= i < |asked| reads this => asked[i].hash));
      assert request.value == Request(Now()).value;
    }

    /** A block arrives. It goes to the store if it comes from the download peer and is next in sequence. */
    method Block(hash: Hash, pid: PeerId)
      requires Valid()
      modifies this
      ensures Valid() && peer == old(peer)
      ensures Now() == if old(peer) == Some(pid) then Arrived(old(Now()), hash) else old(Now())
    {
      if peer == Some(pid) && asked != [] && asked[0].hash == hash {
        done := done + [asked[0]];
        asked := asked[1..];
        processed := Some(hash);
      }
    }

    /**
     After any incoming message: its sender becomes the download peer if there is none, and the download peer is
     asked.
     */
    method AfterIncoming(pid: PeerId, busy: bool) returns (request: Option<seq<Hash>>)
      requires Valid()
      modifies this
      ensures Valid() && peer == if old(peer).None? then Some(pid) else old(peer)
      ensures Now() == if peer == Some(pid) && !busy then AskedMore(old(Now())) else old(Now())
      ensures request == if peer == Some(pid) && !busy then Request(Now()) else None
      ensures old(peer).None? && !busy ==> asked == old(wanted)[..Least(BATCH, |old(wanted)|)]
    {
      request := None;
      if peer.None? {
        peer := Some(pid);
      }
      if peer == Some(pid) {
        request := AskBlocks(busy);
      }
    }

    /** Tells the store what was taken back. */
    method Disconnect(us: seq<Unwound>)
      modifies this`wanted, this`done, this`processed
      ensures Now() == TakenBackAll(old(Now()), us, birth, |us|)
    {
      for i := 0 to |us|
        invariant Now() == TakenBackAll(old(Now()), us, birth, i)
      {
        if us[i].time > birth {
          ghost var q := Now();
          wanted := if wanted == [] then [] else wanted[..|wanted| - 1];
          done, processed := TakenBack(q, us[i]).done, Some(us[i].prev);
        }
      }
    }

    /** Handles the answers of the header database to a message of headers. */
    method Headers(results: seq<Added>)
      requires Valid()
      modifies this
      ensures Valid() && Now() == AfterHeaders(old(Now()), results, birth) && peer == old(peer)
    {
      var queue := results;
      while queue != []
        invariant Valid() && AfterHeaders(Now(), queue, birth) == AfterHeaders(old(Now()), results, birth) &&
                  peer == old(peer)
        decreases |queue|
      {
        ghost var batch, q := queue, Now();
        var connected, disconnected, n := ReadBatch(queue);
        queue := queue[n..];
        Disconnect(disconnected);
        wanted := wanted + connected;
        assert Now() == AfterBatch(q, batch, birth, n);
      }
    }

    /** Reads answers up to the first that reorganises the chain. */
    method ReadBatch(results: seq<Added>) returns (connected: seq<BlockRef>, disconnected: seq<Unwound>, n: nat)
      ensures n == BatchEnd(results) && connected == Recent(results, birth, n) && disconnected == UnwindsOf(results, n)
    {
      connected, disconnected, n := [], [], 0;
      while n < |results|
        invariant n <= |results| && n <= BatchEnd(results)
        invariant connected == Recent(results, birth, n) && disconnected == []
        invariant n == 0 || !Reorganises(results[n - 1])
      {
        var r := results[n];
        n := n + 1;
        match r {
          case Stored(ref, time, unwinds, forwards) =>
            if time > birth {
              connected := connected + [ref];
            }
            if unwinds.Some? {
              disconnected := unwinds.value;
              return;
            }
          case Known =>
          case Rejected =>
        }
      }
    }
  }
}
