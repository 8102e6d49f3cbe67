/**
 The rows of the store against a moving chain. The header database changes its trunk first and the
 store is told afterwards, notice by notice, while other threads may add content in between. In every run that
 reports each change, once the notices are delivered every row is funded on the trunk and
 would be accepted again.
 */
module ChainRuns {
  import opened Wrappers
  import opened Keys
  import opened ContentDb
  import opened ContentStore

  /** What the store is told: a header was taken back, or one was connected at a height. */
  datatype Notice = Unwind(block: BlockHash) | Connect(height: nat)

  datatype Chain = Chain(trunk: Trunk, pending: seq<Notice>, rows: Rows)

  /** The parts of acceptance that do not change with the chain. A block hash determines the merkle root. */
  datatype Rules = Rules(commitment: Commitment, rootOf: BlockHash -> nat)

  ghost predicate TrunkOk(trunk: Trunk, rules: Rules) {
    && (forall i :: 0 <= i < |trunk| ==> trunk[i].merkleRoot == rules.rootOf(trunk[i].hash))
    && NoRepeats(trunk)
  }

  /** On a trunk without repetitions the height of a block is where it stands. */
  lemma {:induction false} HeightIsPosition(trunk: Trunk, i: nat)
    requires i < |trunk| && forall j :: i < j < |trunk| ==> trunk[j].hash != trunk[i].hash
    ensures HeightOf(trunk, trunk[i].hash) == Some(i)
  {
    if i < |trunk| - 1 {
      HeightIsPosition(trunk[..|trunk| - 1], i);
    }
  }

  ghost predicate OnTrunk(trunk: Trunk, r: Row) {
    r.height < |trunk| && trunk[r.height].hash == r.block
  }

  ghost predicate Alive(trunk: Trunk, r: Row) {
    r.height + r.content.term >= TipHeight(trunk)
  }

  /** The row is what its content is stored as, wherever its block stands. */
  ghost predicate Proven(rules: Rules, r: Row) {
    && 0 < r.content.length && r.block == r.content.funding.block
    && rules.rootOf(r.block) == r.content.funding.merkleRoot
    && AsUnsigned(r.content.funding.version) >= 2
    && var o := FindOutput(r.content.funding.outputs,
                           rules.commitment(r.content.funder, r.content.digest, r.content.term));
    o.Some? && r.weight == (o.value.value / r.content.length) % 0x1_0000_0000
  }

  ghost predicate Expires(pending: seq<Notice>, r: Row) {
    exists i :: 0 <= i < |pending| && pending[i].Connect? && Expired(r, pending[i].height)
  }

  ghost predicate Leaves(pending: seq<Notice>, r: Row) {
    exists i :: 0 <= i < |pending| && pending[i] == Unwind(r.block)
  }

  /** A row is sound, or a notice that removes it is on its way. */
  ghost predicate RowOk(c: Chain, rules: Rules, id: ContentKey, r: Row) {
    && r.content.digest == id && Proven(rules, r)
    && (OnTrunk(c.trunk, r) || Leaves(c.pending, r))
    && (Alive(c.trunk, r) || Expires(c.pending, r))
  }

  ghost predicate Inv(c: Chain, rules: Rules) {
    && TrunkOk(c.trunk, rules)
    && forall id :: id in c.rows ==> RowOk(c, rules, id, c.rows[id])
  }

  /* ---------- steps ---------- */

  datatype Event =
    | Move(trunk: Trunk, notices: seq<Notice>)
    | Deliver
    | AddContent(content: Content)
    | Drop(keys: set<ContentKey>)

  /** Every header taken back is unwound, and a higher tip is connected. */
  ghost predicate Reports(was: Trunk, now: Trunk, notices: seq<Notice>) {
    && (forall i :: 0 <= i < |was| && !(i < |now| && now[i].hash == was[i].hash) ==>
                      exists j :: 0 <= j < |notices| && notices[j] == Unwind(was[i].hash))
    && (TipHeight(now) > TipHeight(was) ==>
          exists j :: 0 <= j < |notices| && notices[j] == Connect(TipHeight(now)))
  }

  ghost predicate Step(rules: Rules, a: Chain, e: Event, b: Chain) {
    match e
    case Move(trunk, notices) =>
      a.pending == [] && TrunkOk(trunk, rules) && Reports(a.trunk, trunk, notices) && b == Chain(trunk, notices, a.rows)
    case Deliver =>
      && a.pending != []
      && b == Chain(a.trunk, a.pending[1..], (match a.pending[0]
                                              case Unwind(block) => a.rows - ConfirmedKeys(a.rows, block)
                                              case Connect(height) => a.rows - ExpiredKeys(a.rows, height)))
    case AddContent(c) =>
      && 0 < c.length
      && b == (match Judge(a.trunk, rules.commitment, c)
               case None => a
               case Some(row) => Chain(a.trunk, a.pending, a.rows[c.digest := row]))
    case Drop(keys) =>
      b == Chain(a.trunk, a.pending, a.rows - keys)
  }

  /* ---------- every step keeps the invariant ---------- */

  lemma MoveKeeps(rules: Rules, a: Chain, trunk: Trunk, notices: seq<Notice>, id: ContentKey)
    requires Inv(a, rules) && Step(rules, a, Move(trunk, notices), Chain(trunk, notices, a.rows)) && id in a.rows
    ensures RowOk(Chain(trunk, notices, a.rows), rules, id, a.rows[id])
  {
  }

  lemma DeliverKeeps(rules: Rules, a: Chain, b: Chain, id: ContentKey)
    requires Inv(a, rules) && Step(rules, a, Deliver, b) && id in b.rows
    ensures RowOk(b, rules, id, b.rows[id])
  {
  }

  lemma AcceptedIsOk(rules: Rules, a: Chain, c: Content)
    requires TrunkOk(a.trunk, rules) && 0 < c.length && Judge(a.trunk, rules.commitment, c).Some?
    ensures RowOk(a, rules, c.digest, Judge(a.trunk, rules.commitment, c).value)
  {
  }

  lemma StepKeeps(rules: Rules, a: Chain, e: Event, b: Chain)
    requires Inv(a, rules) && Step(rules, a, e, b)
    ensures Inv(b, rules)
  {
    forall id | id in b.rows ensures RowOk(b, rules, id, b.rows[id]) {
      match e {
        case Move(trunk, notices) => MoveKeeps(rules, a, trunk, notices, id);
        case Deliver => DeliverKeeps(rules, a, b, id);
        case AddContent(c) =>
          if Judge(a.trunk, rules.commitment, c).Some? {
            AcceptedIsOk(rules, a, c);
          }
          assert id != c.digest ==> RowOk(a, rules, id, a.rows[id]);
        case Drop(keys) => assert RowOk(a, rules, id, a.rows[id]);
      }
    }
  }

  /* ---------- runs ---------- */

  ghost predicate Run(rules: Rules, states: seq<Chain>, h: seq<Event>) {
    && |states| == |h| + 1 && Inv(states[0], rules)
    && forall i :: 0 <= i < |h| ==> Step(rules, states[i], h[i], states[i + 1])
  }

  lemma {:induction false} RunKeeps(rules: Rules, states: seq<Chain>, h: seq<Event>, i: nat)
    requires Run(rules, states, h) && i <= |h|
    ensures Inv(states[i], rules)
  {
    if i > 0 {
      RunKeeps(rules, states, h, i - 1);
      StepKeeps(rules, states[i - 1], h[i - 1], states[i]);
    }
  }

  /**
   Whenever no notice is on its way, every row is funded by the trunk block at its recorded height, its term has not
   ended below the tip, and a node with this trunk would store exactly this row for its content.
   */
  lemma RowsAreSound(rules: Rules, states: seq<Chain>, h: seq<Event>, i: nat, id: ContentKey)
    requires Run(rules, states, h) && i <= |h| && states[i].pending == [] && id in states[i].rows
    ensures var c, r := states[i], states[i].rows[id];
            && r.content.digest == id && 0 < r.content.length
            && OnTrunk(c.trunk, r) && Alive(c.trunk, r)
            && c.trunk[r.height].hash == r.block && r.height + r.content.term >= |c.trunk| - 1
            && Judge(c.trunk, rules.commitment, r.content) == Some(r)
  {
    RunKeeps(rules, states, h, i);
    var c, r := states[i], states[i].rows[id];
    assert RowOk(c, rules, id, r);
    HeightIsPosition(c.trunk, r.height);
  }

  /** In every run, right after a header was connected at a height no row is left whose term ends there or before. */
  lemma ConnectedDropsExpired(rules: Rules, states: seq<Chain>, h: seq<Event>, i: nat, height: nat)
    requires Run(rules, states, h) && i < |h| && h[i].Deliver? && states[i].pending != []
    requires states[i].pending[0] == Connect(height)
    ensures forall id :: id in states[i + 1].rows <==>
                         id in states[i].rows && states[i].rows[id].height + states[i].rows[id].content.term > height
  {
    assert Step(rules, states[i], h[i], states[i + 1]);
  }

  /** And right after a header was taken back no row is left that its block funds. */
  lemma UnwoundDropsFunded(rules: Rules, states: seq<Chain>, h: seq<Event>, i: nat, block: BlockHash)
    requires Run(rules, states, h) && i < |h| && h[i].Deliver? && states[i].pending != []
    requires states[i].pending[0] == Unwind(block)
    ensures forall id :: id in states[i + 1].rows <==> id in states[i].rows && states[i].rows[id].block != block
  {
    assert Step(rules, states[i], h[i], states[i + 1]);
  }
}
