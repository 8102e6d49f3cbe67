/**
 The idea of the exchange of two nodes with the same tip: polls, tables that stand for sets of keys, requests and
 contents, for any key and content type, any rule of acceptance and any decoder of tables. Messages in flight arrive
 in any order. The nodes of the system send cached tables instead of sets; the module Exchange has them as they are,
 and the module Refinement says when they follow this protocol.
 */
module SyncProtocol {
  import opened Wrappers

  /**
   What does not change during an exchange: which contents are accepted and under which key, which rows
   fit the storage limit, and the keys that a table of `theirs` does not give away to a node holding `mine`.
   */
  datatype World<!K, !C> = World(
    keyOf: C -> K,
    accepts: C -> bool,
    fits: map<K, C> -> bool,
    hidden: (nat, set<K>, set<K>) -> set<K>)

  /**
   A node: its rows, and whether a poll of its own is unanswered. The last two fields are a
   record of the run: whether it ever sent its table, and the keys that received tables did not give away.
   */
  datatype Node<K, C> = Node(rows: map<K, C>, asked: bool, sent: bool, missed: set<K>)

  datatype TableOf<K> = TableOf(size: nat, keys: set<K>)

  /** The messages on their way to a node. */
  datatype Wire<!K, !C> = Wire(polls: nat, tables: multiset<TableOf<K>>, gets: multiset<set<K>>, ads: multiset<C>)

  function Nothing<K, C>(): Wire<K, C> {
    Wire(0, multiset{}, multiset{}, multiset{})
  }

  function Both<K, C>(a: Wire<K, C>, b: Wire<K, C>): Wire<K, C> {
    Wire(a.polls + b.polls, a.tables + b.tables, a.gets + b.gets, a.ads + b.ads)
  }

  datatype Message<K, C> = Poll | Table(table: TableOf<K>) | Get(ids: set<K>) | Ad(content: C)

  /* ---------- handlers ---------- */

  /** The keys a table gives away to a node. */
  ghost function Wanted<K, C>(w: World<K, C>, t: TableOf<K>, mine: set<K>): set<K> {
    (t.keys - mine) - w.hidden(t.size, t.keys, mine)
  }

  /** A poll answers an own poll, and then a table may be sent; otherwise it is answered by a poll. */
  ghost predicate OnPoll<K, C>(n: Node<K, C>, n': Node<K, C>, out: Wire<K, C>) {
    if n.asked then
      || (n' == n.(asked := false) && out == Nothing())
      || (n' == n.(asked := false, sent := true) &&
          exists size: nat :: 0 < size && out == Nothing<K, C>().(tables := multiset{TableOf(size, n.rows.Keys)}))
    else
      n' == n.(asked := true) && out == Nothing<K, C>().(polls := 1)
  }

  /** The keys of a table that are given away are requested. */
  ghost predicate OnTable<K, C>(w: World<K, C>, n: Node<K, C>, t: TableOf<K>, n': Node<K, C>, out: Wire<K, C>) {
    var wanted := Wanted(w, t, n.rows.Keys);
    && n' == n.(missed := n.missed + ((t.keys - n.rows.Keys) - wanted))
    && out == if wanted == {} then Nothing() else Nothing<K, C>().(gets := multiset{wanted})
  }

  ghost function ContentsOf<K, C>(rows: map<K, C>, ids: set<K>): set<C> {
    set id | id in ids && id in rows :: rows[id]
  }

  /** Requested rows are sent. A request for a missing row stops the node, so there is no step for it. */
  ghost predicate OnGet<K, C>(n: Node<K, C>, ids: set<K>, n': Node<K, C>, out: Wire<K, C>) {
    ids <= n.rows.Keys && n' == n && out == Nothing<K, C>().(ads := multiset(ContentsOf(n.rows, ids)))
  }

  /** Sending the requested rows one by one sends each of them once. */
  lemma {:induction false} AnswerContents<K(!new), C(!new)>(keyOf: C -> K, rows: map<K, C>, ids: seq<K>,
                                                            contents: seq<C>, i: nat)
    requires Enumerates(ids, AllEntries(ids)) && |contents| == |ids| && i <= |ids|
    requires forall id :: id in rows ==> keyOf(rows[id]) == id
    requires forall j :: 0 <= j < |ids| ==> ids[j] in rows && contents[j] == rows[ids[j]]
    ensures multiset(contents[..i]) == multiset(ContentsOf(rows, Entries(ids, i)))
  {
    if i > 0 {
      AnswerContents(keyOf, rows, ids, contents, i - 1);
      EnumerationPrefix(ids, AllEntries(ids), i - 1);
      assert contents[..i] == contents[..i - 1] + [contents[i - 1]];
      OneMoreContent(keyOf, rows, Entries(ids, i - 1), ids[i - 1]);
    }
  }

  lemma OneMoreContent<K(!new), C(!new)>(keyOf: C -> K, rows: map<K, C>, ids: set<K>, id: K)
    requires id in rows && id !in ids && forall k :: k in rows ==> keyOf(rows[k]) == k
    ensures multiset(ContentsOf(rows, ids + {id})) == multiset(ContentsOf(rows, ids)) + multiset{rows[id]}
  {
  }

  function Stored<K, C>(w: World<K, C>, rows: map<K, C>, c: C): map<K, C> {
    if w.accepts(c) then rows[w.keyOf(c) := c] else rows
  }

  /** Accepted content is stored; truncation may drop rows, but none if all fit. */
  ghost predicate OnAd<K, C>(w: World<K, C>, n: Node<K, C>, c: C, n': Node<K, C>, out: Wire<K, C>) {
    var stored := Stored(w, n.rows, c);
    && out == Nothing() && n' == n.(rows := n'.rows)
    && n'.rows.Keys <= stored.Keys && (forall id :: id in n'.rows ==> n'.rows[id] == stored[id])
    && (w.fits(stored) ==> n'.rows == stored)
  }

  /** A message is taken from the wire, leaving the rest. */
  ghost predicate Takes<K, C>(wire: Wire<K, C>, m: Message<K, C>, rest: Wire<K, C>) {
    match m
    case Poll => wire.polls > 0 && rest == wire.(polls := wire.polls - 1)
    case Table(t) => t in wire.tables && rest == wire.(tables := wire.tables - multiset{t})
    case Get(ids) => ids in wire.gets && rest == wire.(gets := wire.gets - multiset{ids})
    case Ad(c) => c in wire.ads && rest == wire.(ads := wire.ads - multiset{c})
  }

  ghost predicate Handles<K, C>(w: World<K, C>, n: Node<K, C>, m: Message<K, C>, n': Node<K, C>, out: Wire<K, C>) {
    match m
    case Poll => OnPoll(n, n', out)
    case Table(t) => OnTable(w, n, t, n', out)
    case Get(ids) => OnGet(n, ids, n', out)
    case Ad(c) => OnAd(w, n, c, n', out)
  }

  /* ---------- steps of the pair ---------- */

  datatype Pair<!K, !C> = Pair(left: Node<K, C>, right: Node<K, C>, toLeft: Wire<K, C>, toRight: Wire<K, C>)

  /** The pair seen from the other side. */
  function Swap<K, C>(s: Pair<K, C>): Pair<K, C> {
    Pair(s.right, s.left, s.toRight, s.toLeft)
  }

  /** The left node receives message m and sends `out`. */
  ghost predicate Receives<K, C>(w: World<K, C>, s: Pair<K, C>, m: Message<K, C>, rest: Wire<K, C>, out: Wire<K, C>,
                                 s': Pair<K, C>) {
    && Takes(s.toLeft, m, rest)
    && Handles(w, s.left, m, s'.left, out)
    && s' == Pair(s'.left, s.right, rest, Both(s.toRight, out))
  }

  ghost predicate LeftReceives<K(!new), C(!new)>(w: World<K, C>, s: Pair<K, C>, s': Pair<K, C>) {
    exists m: Message<K, C>, rest: Wire<K, C>, out: Wire<K, C> :: Receives(w, s, m, rest, out, s')
  }

  /** One of the nodes receives a message. */
  ghost predicate Delivers<K(!new), C(!new)>(w: World<K, C>, s: Pair<K, C>, s': Pair<K, C>) {
    LeftReceives(w, s, s') || LeftReceives(w, Swap(s), Swap(s'))
  }

  /** The left node polls, on a new connection or by its timer. */
  ghost predicate LeftPolls<K, C>(s: Pair<K, C>, s': Pair<K, C>) {
    s' == s.(left := s.left.(asked := true), toRight := s.toRight.(polls := s.toRight.polls + 1))
  }

  ghost predicate Step<K(!new), C(!new)>(w: World<K, C>, s: Pair<K, C>, s': Pair<K, C>) {
    Delivers(w, s, s') || LeftPolls(s, s') || LeftPolls(Swap(s), Swap(s'))
  }
}
