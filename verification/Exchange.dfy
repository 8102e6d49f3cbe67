/**
 The exchange of two nodes as the system has it: nodes keep cached tables beside their rows, the tables on the wire
 are bucket sequences taken from these caches, and requests are what the iterator lists. The keys and contents, the
 rule of acceptance, the limit and the way a row is read back are parameters. The handlers of Updater are the handlers
 here.
 */
module Exchange {
  import opened Wrappers
  import opened Algebra
  import opened Listing
  import opened Caches

  /**
   What does not change during an exchange. `readable` contents can be stored, and `reread` is what a stored content
   reads back as.
   */
  datatype Realm<!K, !C> = Realm(
    p: Scheme<K>,
    keyOf: C -> K,
    accepts: C -> bool,
    fits: map<K, C> -> bool,
    readable: C -> bool,
    reread: C -> C)

  /**
   A node with its rows, its cached tables and whether a poll of its own is unanswered. `sent` records the sizes of
   the tables it sent.
   */
  datatype Holder<!K, !C> = Holder(rows: map<K, C>, iblts: Tables<K>, asked: bool, sent: set<nat>)

  /** A table on the wire. The keys its sender held are recorded beside it; no handler looks at them. */
  datatype Sent<!K> = Sent(table: Table<K>, keys: set<K>)

  /** The messages on their way to a node. */
  datatype Post<!K, !C> = Post(polls: nat, tables: seq<Sent<K>>, gets: seq<seq<K>>, ads: multiset<C>)

  function NoPost<K, C>(): Post<K, C> {
    Post(0, [], [], multiset{})
  }

  function Join<K, C>(a: Post<K, C>, b: Post<K, C>): Post<K, C> {
    Post(a.polls + b.polls, a.tables + b.tables, a.gets + b.gets, a.ads + b.ads)
  }

  /* ---------- the size of a table ---------- */

  const MINIMUM_IBLT_SIZE: nat := 100
  const MAXIMUM_IBLT_SIZE: nat := 100 * 65536

  function TimesFour(size: nat, j: nat): nat {
    if j == 0 then size else 4 * TimesFour(size, j - 1)
  }

  /** The sizes a node uses: the ladder from the minimum to the maximum in steps of four. */
  ghost predicate IsTableSize(size: nat) {
    0 < size && exists j: nat :: j <= 8 && size == TimesFour(MINIMUM_IBLT_SIZE, j)
  }

  /* ---------- handlers ---------- */

  /**
   A poll answers an own poll, and then the cached table of some size may be sent; otherwise it is answered by a
   poll.
   */
  ghost predicate OnPoll<K(!new), C(!new)>(r: Realm<K, C>, n: Holder<K, C>, n': Holder<K, C>, out: Post<K, C>) {
    if n.asked then
      || (n' == n.(asked := false) && out == NoPost())
      || (exists size: nat :: SendsTable(r, n, size, n', out))
    else
      n' == n.(asked := true) && out == NoPost<K, C>().(polls := 1)
  }

  ghost predicate SendsTable<K, C>(r: Realm<K, C>, n: Holder<K, C>, size: nat, n': Holder<K, C>, out: Post<K, C>) {
    var iblts := Looked(r.p, n.iblts, n.rows.Keys, size);
    && IsTableSize(size) && size in iblts
    && n' == n.(asked := false, iblts := iblts, sent := n.sent + {size})
    && out == NoPost<K, C>().(tables := [Sent(iblts[size], n.rows.Keys)])
  }

  /** The keys that are listed as inserted among the first i entries, in their order. */
  function RequestOf<K>(entries: seq<Entry<K>>, i: nat): seq<K>
    requires i <= |entries|
  {
    if i == 0 then []
    else if entries[i - 1].Inserted? then RequestOf(entries, i - 1) + [entries[i - 1].key]
    else RequestOf(entries, i - 1)
  }

  /** The own table of the same size is subtracted, and what the iterator lists as inserted is requested. */
  ghost predicate OnTable<K(!new), C(!new)>(r: Realm<K, C>, n: Holder<K, C>, t: Table<K>, n': Holder<K, C>,
                                            out: Post<K, C>) {
    exists entries: seq<Entry<K>>, clean: bool :: Decodes(r, n, t, entries, clean, n', out)
  }

  ghost predicate Decodes<K, C>(r: Realm<K, C>, n: Holder<K, C>, t: Table<K>, entries: seq<Entry<K>>, clean: bool,
                                n': Holder<K, C>, out: Post<K, C>)
  {
    var iblts := Looked(r.p, n.iblts, n.rows.Keys, |t|);
    && 0 < |t| && |t| in iblts && |iblts[|t|]| == |t|
    && Lists(r.p, Subtracted(r.p, t, iblts[|t|]), entries, clean)
    && n' == n.(iblts := iblts)
    && var request := RequestOf(entries, |entries|);
    out == if request == [] then NoPost() else NoPost<K, C>().(gets := [request])
  }

  /** The rows of a request as they read back. */
  function Answers<K, C>(reread: C -> C, rows: map<K, C>, ids: seq<K>): seq<C>
    requires forall i :: 0 <= i < |ids| ==> ids[i] in rows
  {
    seq(|ids|, i requires 0 <= i < |ids| => reread(rows[ids[i]]))
  }

  /** Requested rows are sent. A request for a missing row stops the node, so there is no step for it. */
  ghost predicate OnGet<K(!new), C(!new)>(r: Realm<K, C>, n: Holder<K, C>, ids: seq<K>, n': Holder<K, C>,
                                          out: Post<K, C>) {
    && (forall i :: 0 <= i < |ids| ==> ids[i] in n.rows)
    && n' == n && out == NoPost<K, C>().(ads := multiset(Answers(r.reread, n.rows, ids)))
  }

  /** An accepted content is stored and taken into every cached table, whether it was held before or not. */
  function Added<K, C>(r: Realm<K, C>, n: Holder<K, C>, c: C): Holder<K, C> {
    if r.accepts(c) then n.(rows := n.rows[r.keyOf(c) := c], iblts := WithInserted(r.p, n.iblts, r.keyOf(c))) else n
  }

  ghost function Dropped<K, C>(r: Realm<K, C>, n: Holder<K, C>, keys: seq<K>): Holder<K, C> {
    n.(rows := n.rows - AllEntries(keys), iblts := WithDeleted(r.p, n.iblts, keys))
  }

  /**
   After that truncation may drop rows, but none if all fit. An accepted content that cannot be read stops the node, so
   there is no step for it.
   */
  ghost predicate OnAd<K(!new), C(!new)>(r: Realm<K, C>, n: Holder<K, C>, c: C, n': Holder<K, C>, out: Post<K, C>) {
    && out == NoPost() && (r.accepts(c) ==> r.readable(c))
    && exists keys: seq<K> :: Truncates(r, Added(r, n, c), keys, n')
  }

  ghost predicate Truncates<K, C>(r: Realm<K, C>, n: Holder<K, C>, keys: seq<K>, n': Holder<K, C>) {
    && Enumerates(keys, AllEntries(keys)) && AllEntries(keys) <= n.rows.Keys && (r.fits(n.rows) ==> keys == [])
    && n' == Dropped(r, n, keys)
  }

  /* ---------- steps of the pair ---------- */

  /** The next message to arrive, by its place on the wire. */
  datatype Arrival<C> = Poll | Table(i: nat) | Get(i: nat) | Ad(content: C)

  function Without<T>(s: seq<T>, i: nat): seq<T>
    requires i < |s|
  {
    s[..i] + s[i + 1..]
  }

  /** A message is taken from the wire and handled. */
  ghost predicate Handles<K(!new), C(!new)>(r: Realm<K, C>, n: Holder<K, C>, post: Post<K, C>, m: Arrival<C>,
                                            n': Holder<K, C>, rest: Post<K, C>, out: Post<K, C>)
  {
    match m
    case Poll => post.polls > 0 && rest == post.(polls := post.polls - 1) && OnPoll(r, n, n', out)
    case Table(i) =>
      i < |post.tables| && rest == post.(tables := Without(post.tables, i)) &&
      OnTable(r, n, post.tables[i].table, n', out)
    case Get(i) => i < |post.gets| && rest == post.(gets := Without(post.gets, i)) && OnGet(r, n, post.gets[i], n', out)
    case Ad(c) => c in post.ads && rest == post.(ads := post.ads - multiset{c}) && OnAd(r, n, c, n', out)
  }

  datatype Duo<!K, !C> = Duo(left: Holder<K, C>, right: Holder<K, C>, toLeft: Post<K, C>, toRight: Post<K, C>)

  /** The pair seen from the other side. */
  function Flip<K, C>(s: Duo<K, C>): Duo<K, C> {
    Duo(s.right, s.left, s.toRight, s.toLeft)
  }

  /** Message m arrives at the left node, which sends `out`. */
  ghost predicate Receives<K(!new), C(!new)>(r: Realm<K, C>, s: Duo<K, C>, m: Arrival<C>, out: Post<K, C>,
                                             s': Duo<K, C>) {
    && Handles(r, s.left, s.toLeft, m, s'.left, s'.toLeft, out)
    && s'.right == s.right && s'.toRight == Join(s.toRight, out)
  }

  ghost predicate LeftReceives<K(!new), C(!new)>(r: Realm<K, C>, s: Duo<K, C>, s': Duo<K, C>) {
    exists m: Arrival<C>, out: Post<K, C> :: Receives(r, s, m, out, s')
  }

  /** One of the nodes receives a message. */
  ghost predicate Delivers<K(!new), C(!new)>(r: Realm<K, C>, s: Duo<K, C>, s': Duo<K, C>) {
    LeftReceives(r, s, s') || LeftReceives(r, Flip(s), Flip(s'))
  }

  /** The left node polls, on a new connection or by its timer. */
  ghost predicate LeftPolls<K, C>(s: Duo<K, C>, s': Duo<K, C>) {
    s' == s.(left := s.left.(asked := true), toRight := s.toRight.(polls := s.toRight.polls + 1))
  }

  ghost predicate Step<K(!new), C(!new)>(r: Realm<K, C>, s: Duo<K, C>, s': Duo<K, C>) {
    Delivers(r, s, s') || LeftPolls(s, s') || LeftPolls(Flip(s), Flip(s'))
  }

  /** The nodes hold rows a and b with exact cached tables, and nothing has been sent. */
  ghost predicate Begins<K, C>(r: Realm<K, C>, a: map<K, C>, b: map<K, C>, s: Duo<K, C>) {
    && s.left == Holder(a, s.left.iblts, false, {}) && Exact(r.p, s.left.iblts, a.Keys)
    && s.right == Holder(b, s.right.iblts, false, {}) && Exact(r.p, s.right.iblts, b.Keys)
    && s.toLeft == NoPost() && s.toRight == NoPost()
  }

  ghost predicate Path<K(!new), C(!new)>(r: Realm<K, C>, states: seq<Duo<K, C>>) {
    states != [] && forall i :: 0 <= i < |states| - 1 ==> Step(r, states[i], states[i + 1])
  }

  ghost predicate Run<K(!new), C(!new)>(r: Realm<K, C>, a: map<K, C>, b: map<K, C>, states: seq<Duo<K, C>>) {
    Path(r, states) && Begins(r, a, b, states[0])
  }

  /* ---------- every exchange comes to rest ---------- */

  /** The messages in flight by kind, and the nodes without an unanswered poll. */
  datatype Load = Load(polls: nat, unasked: nat, tables: nat, gets: nat, ads: nat)

  function PostLoad<K, C>(post: Post<K, C>, n: Holder<K, C>): Load {
    Load(post.polls, if n.asked then 0 else 1, |post.tables|, |post.gets|, |post.ads|)
  }

  function Add(a: Load, b: Load): Load {
    Load(a.polls + b.polls, a.unasked + b.unasked, a.tables + b.tables, a.gets + b.gets, a.ads + b.ads)
  }

  function LoadOf<K, C>(s: Duo<K, C>): Load {
    Add(PostLoad(s.toLeft, s.left), PostLoad(s.toRight, s.right))
  }

  /** The lexicographic order on polls, clear flags, tables, requests and contents. */
  predicate Lighter(a: Load, b: Load) {
    if a.polls != b.polls then a.polls < b.polls
    else if a.unasked != b.unasked then a.unasked < b.unasked
    else if a.tables != b.tables then a.tables < b.tables
    else if a.gets != b.gets then a.gets < b.gets
    else a.ads < b.ads
  }

  lemma {:induction false} LoadsDoNotFallForever(loads: nat -> Load, i: nat) returns (j: nat)
    ensures i <= j && !Lighter(loads(j + 1), loads(j))
    decreases loads(i).polls, loads(i).unasked, loads(i).tables, loads(i).gets, loads(i).ads
  {
    if Lighter(loads(i + 1), loads(i)) {
      j := LoadsDoNotFallForever(loads, i + 1);
    } else {
      j := i;
    }
  }

  lemma PollSends<K(!new), C(!new)>(r: Realm<K, C>, n: Holder<K, C>, n': Holder<K, C>, out: Post<K, C>)
    requires OnPoll(r, n, n', out)
    ensures n'.asked == !n.asked && out.polls == if n.asked then 0 else 1
  {
  }

  lemma TableSends<K(!new), C(!new)>(r: Realm<K, C>, n: Holder<K, C>, t: Table<K>, n': Holder<K, C>, out: Post<K, C>)
    requires OnTable(r, n, t, n', out)
    ensures n'.asked == n.asked && out.polls == 0 && out.tables == []
  {
  }

  lemma AdSends<K(!new), C(!new)>(r: Realm<K, C>, n: Holder<K, C>, c: C, n': Holder<K, C>, out: Post<K, C>)
    requires OnAd(r, n, c, n', out)
    ensures n'.asked == n.asked && out == NoPost()
  {
  }

  /** What a handler sends comes later in the order than what it received, or closes an open flag. */
  lemma HandlingLightens<K(!new), C(!new)>(r: Realm<K, C>, n: Holder<K, C>, post: Post<K, C>, m: Arrival<C>,
                                           n': Holder<K, C>, rest: Post<K, C>, out: Post<K, C>)
    requires Handles(r, n, post, m, n', rest, out)
    ensures var a, b := PostLoad(post, n), PostLoad(rest, n');
            match m
            case Poll =>
              && b.polls == a.polls - 1
              && (if n.asked then out.polls == 0 else out.polls == 1 && b.unasked < a.unasked)
            case Table(i) => b == a.(tables := a.tables - 1) && out.polls == 0 && out.tables == []
            case Get(i) => b == a.(gets := a.gets - 1) && out.polls == 0 && out.tables == [] && out.gets == []
            case Ad(c) => b == a.(ads := a.ads - 1) && out == NoPost()
  {
    match m {
      case Poll =>
        PollSends(r, n, n', out);
      case Table(i) =>
        TableSends(r, n, post.tables[i].table, n', out);
      case Get(i) =>
      case Ad(c) =>
        AdSends(r, n, c, n', out);
    }
  }

  lemma ReceivingLightens<K(!new), C(!new)>(r: Realm<K, C>, s: Duo<K, C>, m: Arrival<C>, out: Post<K, C>, s': Duo<K, C>)
    requires Receives(r, s, m, out, s')
    ensures Lighter(LoadOf(s'), LoadOf(s))
  {
    HandlingLightens(r, s.left, s.toLeft, m, s'.left, s'.toLeft, out);
    assert |s'.toRight.ads| == |s.toRight.ads| + |out.ads|;
  }

  lemma DeliveryLightens<K(!new), C(!new)>(r: Realm<K, C>, s: Duo<K, C>, s': Duo<K, C>)
    requires Delivers(r, s, s')
    ensures Lighter(LoadOf(s'), LoadOf(s))
  {
    if LeftReceives(r, s, s') {
      var m: Arrival<C>, out: Post<K, C> :| Receives(r, s, m, out, s');
      ReceivingLightens(r, s, m, out, s');
    } else {
      var m: Arrival<C>, out: Post<K, C> :| Receives(r, Flip(s), m, out, Flip(s'));
      ReceivingLightens(r, Flip(s), m, out, Flip(s'));
    }
  }

  /** Between polls by timer or connection no exchange goes on for ever, whatever the cached tables are worth. */
  lemma ExchangeRests<K(!new), C(!new)>(r: Realm<K, C>, run: nat -> Duo<K, C>, i: nat) returns (j: nat)
    ensures i <= j && !Delivers(r, run(j), run(j + 1))
  {
    j := LoadsDoNotFallForever((k: nat) => LoadOf(run(k)), i);
    if Delivers(r, run(j), run(j + 1)) {
      DeliveryLightens(r, run(j), run(j + 1));
    }
  }
}
