/**
 What overlapping exchanges can do. A content that arrives three times leaves a table from which a peer reads a key of
 its own as missing; it asks for a row that the node does not hold, and the request stops the node.
 */
module Overlap {
  import opened Wrappers
  import opened Keys
  import opened Algebra
  import opened Peeling
  import opened Listing
  import opened Difference
  import opened Caches
  import opened Exchange
  import opened Refinement
  import opened Simulation
  import StaleTables

  /** Every bucket of y is one of x, and x has another one. */
  ghost predicate Inside<K>(p: Scheme<K>, m: nat, x: K, y: K) {
    && x != y && (forall n: nat :: n < m && Touches(p, m, y, n) ==> Touches(p, m, x, n))
    && exists n: nat :: n < m && Touches(p, m, x, n) && !Touches(p, m, y, n)
  }

  /* ---------- tables of two keys ---------- */

  /** What a bucket holds of x with even and y with odd multiplicity. */
  lemma EvenAndOdd<K(!new)>(p: Scheme<K>, m: nat, x: K, y: K, net: Net<K>, n: nat)
    requires Lawful(p) && n < m && x != y && net.Keys == {x, y} && !Odd(net[x])
    ensures var b := Encode(p, m, net)[n];
            && b.count == (if Touches(p, m, x, n) then net[x] else 0) + (if Touches(p, m, y, n) then net[y] else 0)
            && (Touches(p, m, y, n) && Odd(net[y]) ==> b.keysum == y && b.hashsum == KeyHash(p, y))
  {
    SumPick(p, m, {x, y}, net, n, x);
    assert {x, y} - {x} == {y};
    SumPick(p, m, {y}, net, n, y);
    assert {y} - {y} == {};
    var share := Share(p, m, y, net[y], n);
    PlusEmpty(p, share);
    assert Commutes(p.kind.ops, p.kind.ops.zero, share.keysum) && Cancels(p.kind.ops, share.keysum);
    assert Commutes(p.words, p.words.zero, share.hashsum) && Cancels(p.words, share.hashsum);
  }

  /** The table of x counted three times less the table of x and y. */
  lemma StaleDifference<K(!new)>(p: Scheme<K>, m: nat, x: K, y: K)
    requires Lawful(p) && x != y
    ensures Subtracted(p, Encode(p, m, WithSurplus({x}, map[x := 2])), TableOf(p, m, {x, y})) ==
            Encode(p, m, map[x := 2, y := -1])
  {
    var cached := WithSurplus({x}, map[x := 2]);
    SubtractedEncodes(p, m, cached, Indicator({x, y}));
    EncodeCongruent(p, m, NetMinus(cached, Indicator({x, y})), map[x := 2, y := -1]);
  }

  /* ---------- the iterator lists y as inserted ---------- */

  /** A queue of buckets that show no key lists nothing. */
  lemma {:induction false} StaleQueue<K>(p: Scheme<K>, w: Work<K>)
    requires InRange(w) && forall i :: 0 <= i < |w.queue| ==> w.t[w.queue[i]].count == 0
    ensures Seek(p, w).entry.None?
    decreases |w.queue|
  {
    if w.queue != [] {
      StaleQueue(p, PopOnce(p, w).work);
    }
  }

  lemma {:induction false} NothingPure<K>(p: Scheme<K>, t: seq<Bucket<K>>, key: K, n: nat)
    requires n <= |t| && forall i: nat :: i < n && Touches(p, |t|, key, i) ==> !LooksPure(p, t[i])
    ensures PureOf(p, t, key, n) == []
  {
    if n > 0 {
      NothingPure(p, t, key, n - 1);
    }
  }

  /** The first bucket in the queue is one of y and shows y once inserted. */
  lemma ShowsInserted<K(!new)>(p: Scheme<K>, m: nat, x: K, y: K)
    requires Usable(p) && 0 < m && Inside(p, m, x, y)
    ensures var w := Start(p, Encode(p, m, map[x := 2, y := -1]));
            && w.queue != [] && w.t[w.queue[0]].keysum == y && w.t[w.queue[0]].count == 1
            && forall i :: 0 <= i < |w.queue| ==> w.queue[i] < m && Touches(p, m, y, w.queue[i])
  {
    var net := map[x := 2, y := -1];
    var t := Encode(p, m, net);
    PureUpToComplete(p, t, m);
    var n := Place(p, m, y, 0);
    assert Hashed(p, m, y)[0] == n;
    EvenAndOdd(p, m, x, y, net, n);
    assert n in Start(p, t).queue;
    forall i: nat | i < m && LooksPure(p, t[i]) ensures Touches(p, m, y, i) && t[i].keysum == y && t[i].count == 1 {
      EvenAndOdd(p, m, x, y, net, i);
    }
    assert Start(p, t).queue[0] in Start(p, t).queue;
  }

  /** With y taken out as if it had been inserted, no bucket of y counts anything. */
  lemma AfterY<K(!new)>(p: Scheme<K>, m: nat, x: K, y: K, n: nat)
    requires Lawful(p) && n < m && Inside(p, m, x, y) && Touches(p, m, y, n)
    ensures Toggled(p, Encode(p, m, map[x := 2, y := -1]), y, -1)[n].count == 0
  {
    ToggledEncodes(p, m, map[x := 2, y := -1], y, -1);
    assert Bump(map[x := 2, y := -1], y, -1) == map[x := 2, y := -2];
    EvenAndOdd(p, m, x, y, map[x := 2, y := -2], n);
  }

  lemma ListsY<K(!new)>(p: Scheme<K>, m: nat, x: K, y: K) returns (clean: bool)
    requires Usable(p) && 0 < m && Inside(p, m, x, y)
    ensures Lists(p, Encode(p, m, map[x := 2, y := -1]), [Inserted(y)], clean)
  {
    var t := Encode(p, m, map[x := 2, y := -1]);
    var w := Start(p, t);
    ShowsInserted(p, m, x, y);
    var rest := Work(t, w.queue[1..]);
    var u := Toggled(p, t, y, -1);
    forall n: nat | n < m && Touches(p, m, y, n) ensures u[n].count == 0 {
      AfterY(p, m, x, y, n);
    }
    NothingPure(p, u, y, m);
    StaleQueue(p, Work(u, w.queue[1..]));
    FirstListed(p, t, w, y, Work(u, w.queue[1..]));
    clean := AllCountsZero(u);
  }

  lemma FirstListed<K>(p: Scheme<K>, t: seq<Bucket<K>>, w: Work<K>, key: K, after: Work<K>)
    requires w == Start(p, t) && w.queue != [] && w.t[w.queue[0]].keysum == key && w.t[w.queue[0]].count == 1
    requires InRange(Work(t, w.queue[1..])) && after == Taken(p, Work(t, w.queue[1..]), key, 1) &&
             Seek(p, after).entry.None?
    ensures Lists(p, t, [Inserted(key)], AllCountsZero(after.t))
  {
    assert Seek(p, w).entry == Some(Inserted(key)) && Seek(p, w).work == after;
    assert Listed(p, t, 1) == Progress(after, [Inserted(key)], 1);
  }

  /* ---------- ways through an exchange ---------- */

  ghost predicate Leads<K(!new), C(!new)>(r: Realm<K, C>, s: Duo<K, C>, t: Duo<K, C>, states: seq<Duo<K, C>>) {
    Path(r, states) && states[0] == s && states[|states| - 1] == t
  }

  ghost predicate Reaches<K(!new), C(!new)>(r: Realm<K, C>, s: Duo<K, C>, t: Duo<K, C>) {
    exists states: seq<Duo<K, C>> :: Leads(r, s, t, states)
  }

  lemma ByStep<K(!new), C(!new)>(r: Realm<K, C>, s: Duo<K, C>, t: Duo<K, C>)
    requires Step(r, s, t)
    ensures Reaches(r, s, t)
  {
    assert Leads(r, s, t, [s, t]);
  }

  lemma ThenReaches<K(!new), C(!new)>(r: Realm<K, C>, s: Duo<K, C>, t: Duo<K, C>, u: Duo<K, C>)
    requires Reaches(r, s, t) && Reaches(r, t, u)
    ensures Reaches(r, s, u)
  {
    var a: seq<Duo<K, C>> :| Leads(r, s, t, a);
    var b: seq<Duo<K, C>> :| Leads(r, t, u, b);
    var states := a + b[1..];
    forall i | 0 <= i < |states| - 1 ensures Step(r, states[i], states[i + 1]) {
      if i < |a| - 1 {
        assert Step(r, a[i], a[i + 1]);
      } else {
        assert Step(r, b[i - (|a| - 1)], b[i - (|a| - 1) + 1]);
      }
    }
    assert Leads(r, s, u, states);
  }

  lemma ReachesFlips<K(!new), C(!new)>(r: Realm<K, C>, s: Duo<K, C>, t: Duo<K, C>)
    requires Reaches(r, Flip(s), Flip(t))
    ensures Reaches(r, s, t)
  {
    var a: seq<Duo<K, C>> :| Leads(r, Flip(s), Flip(t), a);
    StaleTables.PathFlips(r, a);
    assert Flip(Flip(s)) == s && Flip(Flip(t)) == t;
    assert Leads(r, s, t, StaleTables.Flipped(a));
  }

  lemma Joins<K, C>(post: Post<K, C>, t: Sent<K>, request: seq<K>, ads: multiset<C>)
    ensures Join(post, NoPost()) == post
    ensures Join(post, NoPost<K, C>().(tables := [t])) == post.(tables := post.tables + [t])
    ensures Join(post, NoPost<K, C>().(gets := [request])) == post.(gets := post.gets + [request])
    ensures Join(post, NoPost<K, C>().(ads := ads)) == post.(ads := post.ads + ads)
  {
  }

  /** The pair after the right node has sent its cached table of a size. */
  ghost function TableSent<K, C>(s: Duo<K, C>, size: nat): Duo<K, C>
    requires size in s.right.iblts
  {
    s.(right := s.right.(sent := s.right.sent + {size}),
    toLeft := s.toLeft.(tables := s.toLeft.tables + [Sent(s.right.iblts[size], s.right.rows.Keys)]))
  }

  /** Both nodes poll, the right node answers with its table and the left one with nothing. */
  lemma TableRound<K(!new), C(!new)>(r: Realm<K, C>, s: Duo<K, C>, size: nat)
    requires IsTableSize(size) && size in s.right.iblts
    requires !s.left.asked && !s.right.asked && s.toLeft.polls == 0 && s.toRight.polls == 0
    ensures Reaches(r, s, TableSent(s, size))
  {
    var s1 := s.(right := s.right.(asked := true), toLeft := s.toLeft.(polls := 1));
    var s2 := s1.(left := s1.left.(asked := true), toRight := s1.toRight.(polls := 1));
    var s3 := TableSent(s2, size).(right := TableSent(s, size).right, toRight := s.toRight);
    var s4 := TableSent(s, size);
    assert LeftPolls(Flip(s), Flip(s1)) && LeftPolls(s1, s2);
    RightAnswers(r, s2, s3, size);
    LeftStaysSilent(r, s3, s4);
    ByStep(r, s, s1);
    ByStep(r, s1, s2);
    ByStep(r, s2, s3);
    ByStep(r, s3, s4);
    ThenReaches(r, s, s1, s2);
    ThenReaches(r, s, s2, s3);
    ThenReaches(r, s, s3, s4);
  }

  lemma RightAnswers<K(!new), C(!new)>(r: Realm<K, C>, s: Duo<K, C>, s': Duo<K, C>, size: nat)
    requires IsTableSize(size) && size in s.right.iblts && s.right.asked && s.toRight.polls > 0
    requires s' == s.(right := s.right.(asked := false, sent := s.right.sent + {size}),
                   toRight := s.toRight.(polls := s.toRight.polls - 1),
                   toLeft := s.toLeft.(tables := s.toLeft.tables + [Sent(s.right.iblts[size], s.right.rows.Keys)]))
    ensures Step(r, s, s')
  {
    var t := Sent(s.right.iblts[size], s.right.rows.Keys);
    var out := NoPost<K, C>().(tables := [t]);
    Joins(s.toLeft, t, [], multiset{});
    assert SendsTable(r, s.right, size, s'.right, out);
    assert Receives(r, Flip(s), Poll, out, Flip(s'));
    assert LeftReceives(r, Flip(s), Flip(s'));
  }

  lemma LeftStaysSilent<K(!new), C(!new)>(r: Realm<K, C>, s: Duo<K, C>, s': Duo<K, C>)
    requires s.left.asked && s.toLeft.polls > 0
    requires s' == s.(left := s.left.(asked := false), toLeft := s.toLeft.(polls := s.toLeft.polls - 1))
    ensures Step(r, s, s')
  {
    Joins(s.toRight, Sent([], {}), [], multiset{});
    assert Receives(r, s, Poll, NoPost(), s');
    assert LeftReceives(r, s, s');
  }

  /* ---------- the exchange that stops a node ---------- */

  /** The left node starts without rows and the right one with x and y, in a setting that is fair. */
  ghost predicate Cast<K(!new), C(!new)>(r: Realm<K, C>, m: nat, x: K, y: K, b: map<K, C>) {
    Fair(r, map[], b) && b.Keys == {x, y} && IsTableSize(m) && Inside(r.p, m, x, y)
  }

  function Copies<T>(n: nat, v: T): seq<T> {
    seq(n, _ => v)
  }

  lemma CopiesStep<T>(n: nat, v: T)
    ensures Copies(n, v) + [v] == Copies(n + 1, v) && Without(Copies(n + 1, v), 0) == Copies(n, v) && Copies(0, v) == []
  {
  }

  /** The table of no keys after x was inserted k times. */
  ghost function Counted<K>(p: Scheme<K>, m: nat, x: K, k: nat): Table<K> {
    if k == 0 then TableOf(p, m, {}) else Toggled(p, Counted(p, m, x, k - 1), x, 1)
  }

  ghost function RightNode<K, C>(r: Realm<K, C>, m: nat, b: map<K, C>, sent: set<nat>): Holder<K, C> {
    Holder(b, map[m := TableOf(r.p, m, b.Keys)], false, sent)
  }

  /** The left node after the row of x has arrived k times. */
  ghost function LeftNode<K, C>(r: Realm<K, C>, m: nat, x: K, b: map<K, C>, k: nat): Holder<K, C>
    requires x in b
  {
    Holder(if k == 0 then map[] else map[x := b[x]], map[m := Counted(r.p, m, x, k)], false, {})
  }

  /** The left node, with k tables, the given contents, and g requests on their way. */
  ghost function Stage<K, C>(r: Realm<K, C>, m: nat, b: map<K, C>, left: Holder<K, C>, sent: set<nat>, k: nat,
                             ads: multiset<C>,
                             q: seq<K>, g: nat): Duo<K, C>
  {
    Duo(left, RightNode(r, m, b, sent), Post(0, Copies(k, Sent(TableOf(r.p, m, b.Keys), b.Keys)), [], ads),
        Post(0, [], Copies(g, q), multiset{}))
  }

  lemma SendsAnother<K(!new), C(!new)>(r: Realm<K, C>, m: nat, x: K, b: map<K, C>, sent: set<nat>, k: nat, q: seq<K>)
    requires IsTableSize(m) && x in b
    ensures Reaches(r, Stage(r, m, b, LeftNode(r, m, x, b, 0), sent, k, multiset{}, q, 0),
                    Stage(r, m, b, LeftNode(r, m, x, b, 0), sent + {m}, k + 1, multiset{}, q, 0))
  {
    var s := Stage(r, m, b, LeftNode(r, m, x, b, 0), sent, k, multiset{}, q, 0);
    TableRound(r, s, m);
    CopiesStep(k, Sent(TableOf(r.p, m, b.Keys), b.Keys));
  }

  /** The first request: it names x and y. */
  lemma FirstRequest<K(!new), C(!new)>(r: Realm<K, C>, m: nat, x: K, y: K, b: map<K, C>)
    returns (entries: seq<Entry<K>>, clean: bool)
    requires Cast(r, m, x, y, b)
    ensures Lists(r.p, Subtracted(r.p, TableOf(r.p, m, b.Keys), TableOf(r.p, m, {})), entries, clean)
    ensures Enumerates(RequestOf(entries, |entries|), {x, y})
  {
    SameSidePure(r.p, m, x, y);
    entries, clean := RequestsBoth(r.p, m, x, y);
  }

  lemma RequestsBoth<K(!new)>(p: Scheme<K>, m: nat, x: K, y: K) returns (entries: seq<Entry<K>>, clean: bool)
    requires Usable(p) && 0 < m && Inside(p, m, x, y) && NoFalsePurity(p, m, Diff({}, {x, y}))
    ensures Lists(p, Subtracted(p, TableOf(p, m, {x, y}), TableOf(p, m, {})), entries, clean)
    ensures Enumerates(RequestOf(entries, |entries|), {x, y})
  {
    var t := Subtracted(p, TableOf(p, m, {x, y}), TableOf(p, m, {}));
    TablesSubtract(p, m, {x, y}, {});
    PurityTurns(p, m, {}, {x, y});
    entries, clean := ListingEnds(p, t, Diff({x, y}, {}));
    RequestIsExact(p, t, {x, y}, {}, entries, clean);
    NoCore(p, m, x, y);
    assert Diff({x, y}, {}).Keys == {x, y} && {x, y} - {} == {x, y};
  }

  lemma NoCore<K(!new)>(p: Scheme<K>, m: nat, x: K, y: K)
    requires Usable(p) && 0 < m && Inside(p, m, x, y)
    ensures Core(p, m, {x, y}) == {}
  {
    forall c | c <= {x, y} && IsCore(p, m, c) ensures c == {} {
      CoreIsEmpty(p, m, x, y, c);
    }
  }

  lemma CoreIsEmpty<K(!new)>(p: Scheme<K>, m: nat, x: K, y: K, c: set<K>)
    requires Usable(p) && 0 < m && Inside(p, m, x, y) && c <= {x, y} && IsCore(p, m, c)
    ensures c == {}
  {
    var n: nat :| n < m && Touches(p, m, x, n) && !Touches(p, m, y, n);
    if x in c {
      assert Members(p, m, c, n) == {x};
      assert Sole(p, m, c, n, x);
    } else if y in c {
      var k := Place(p, m, y, 0);
      assert Hashed(p, m, y)[0] == k;
      assert Members(p, m, c, k) == {y};
      assert Sole(p, m, c, k, y);
    }
  }

  lemma AsksAgain<K(!new), C(!new)>(r: Realm<K, C>, m: nat, x: K, b: map<K, C>, entries: seq<Entry<K>>, clean: bool,
                                    k: nat, g: nat)
    requires IsTableSize(m) && x in b
    requires Lists(r.p, Subtracted(r.p, TableOf(r.p, m, b.Keys), TableOf(r.p, m, {})), entries, clean)
    requires RequestOf(entries, |entries|) != []
    ensures var left, q := LeftNode(r, m, x, b, 0), RequestOf(entries, |entries|);
            Reaches(r, Stage(r, m, b, left, {m}, k + 1, multiset{}, q, g),
                    Stage(r, m, b, left, {m}, k, multiset{}, q, g + 1))
  {
    var left, q, t := LeftNode(r, m, x, b, 0), RequestOf(entries, |entries|), Sent(TableOf(r.p, m, b.Keys), b.Keys);
    var s := Stage(r, m, b, left, {m}, k + 1, multiset{}, q, g);
    var s' := Stage(r, m, b, left, {m}, k, multiset{}, q, g + 1);
    var out := NoPost<K, C>().(gets := [q]);
    CopiesStep(k, t);
    CopiesStep(g, q);
    Joins(s.toRight, t, q, multiset{});
    DecodesAlike(r, m, x, b, entries, clean, left, out);
    TableArrives(r, s, out, s');
  }

  lemma TableArrives<K(!new), C(!new)>(r: Realm<K, C>, s: Duo<K, C>, out: Post<K, C>, s': Duo<K, C>)
    requires s.toLeft.tables != [] && OnTable(r, s.left, s.toLeft.tables[0].table, s'.left, out)
    requires s' == Duo(s'.left, s.right, s.toLeft.(tables := Without(s.toLeft.tables, 0)), Join(s.toRight, out))
    ensures Reaches(r, s, s')
  {
    assert Receives(r, s, Table(0), out, s');
    assert LeftReceives(r, s, s');
    ByStep(r, s, s');
  }

  lemma DecodesAlike<K(!new), C(!new)>(r: Realm<K, C>, m: nat, x: K, b: map<K, C>, entries: seq<Entry<K>>, clean: bool,
                                       left: Holder<K, C>, out: Post<K, C>)
    requires 0 < m && x in b && left == LeftNode(r, m, x, b, 0)
    requires Lists(r.p, Subtracted(r.p, TableOf(r.p, m, b.Keys), TableOf(r.p, m, {})), entries, clean)
    requires RequestOf(entries, |entries|) != [] && out == NoPost<K, C>().(gets := [RequestOf(entries, |entries|)])
    ensures OnTable(r, left, TableOf(r.p, m, b.Keys), left, out)
  {
    assert Decodes(r, left, TableOf(r.p, m, b.Keys), entries, clean, left, out);
  }

  lemma AnswersAgain<K(!new), C(!new)>(r: Realm<K, C>, m: nat, x: K, y: K, b: map<K, C>, q: seq<K>, ads: multiset<C>,
                                       g: nat)
    requires Cast(r, m, x, y, b) && Enumerates(q, {x, y})
    ensures var left := LeftNode(r, m, x, b, 0);
            Reaches(r, Stage(r, m, b, left, {m}, 0, ads, q, g + 1),
                    Stage(r, m, b, left, {m}, 0, ads + multiset{b[x], b[y]}, q, g))
  {
    var left := LeftNode(r, m, x, b, 0);
    var s := Stage(r, m, b, left, {m}, 0, ads, q, g + 1);
    var s' := Stage(r, m, b, left, {m}, 0, ads + multiset{b[x], b[y]}, q, g);
    TwoAnswers(r, x, y, b, q);
    var out := NoPost<K, C>().(ads := multiset{b[x], b[y]});
    CopiesStep(g, q);
    Joins(s.toLeft, Sent([], {}), q, out.ads);
    assert OnGet(r, s.right, q, s'.right, out);
    assert Receives(r, Flip(s), Get(0), out, Flip(s'));
    assert LeftReceives(r, Flip(s), Flip(s'));
    ByStep(r, s, s');
  }

  lemma TwoAnswers<K(!new), C(!new)>(r: Realm<K, C>, x: K, y: K, b: map<K, C>, q: seq<K>)
    requires x != y && b.Keys == {x, y} && ReadsBack(r, b) && Enumerates(q, {x, y})
    ensures forall i :: 0 <= i < |q| ==> q[i] in b
    ensures multiset(Answers(r.reread, b, q)) == multiset{b[x], b[y]}
  {
    assert |q| == 2;
    EntriesHold(q, 2, 0);
    EntriesHold(q, 2, 1);
    EnumerationPrefix(q, {x, y}, 1);
    assert Entries(q, 1) == Entries(q, 0) + {q[0]} == {q[0]};
    var answers := Answers(r.reread, b, q);
    assert answers == [b[q[0]], b[q[1]]];
  }

  lemma ArrivesAgain<K(!new), C(!new)>(r: Realm<K, C>, m: nat, x: K, y: K, b: map<K, C>, q: seq<K>, ads: multiset<C>,
                                       k: nat)
    requires Cast(r, m, x, y, b) && b[x] in ads
    ensures Reaches(r, Stage(r, m, b, LeftNode(r, m, x, b, k), {m}, 0, ads, q, 0),
                    Stage(r, m, b, LeftNode(r, m, x, b, k + 1), {m}, 0, ads - multiset{b[x]}, q, 0))
  {
    var n, n' := LeftNode(r, m, x, b, k), LeftNode(r, m, x, b, k + 1);
    var s := Stage(r, m, b, n, {m}, 0, ads, q, 0);
    var s' := Stage(r, m, b, n', {m}, 0, ads - multiset{b[x]}, q, 0);
    assert r.accepts(b[x]) && r.readable(b[x]) && r.keyOf(b[x]) == x;
    assert Added(r, n, b[x]).iblts == n'.iblts && Added(r, n, b[x]).rows == n'.rows;
    assert Dropped(r, n', []) == n';
    assert Truncates(r, Added(r, n, b[x]), [], n');
    Joins(s.toRight, Sent([], {}), q, multiset{});
    assert Receives(r, s, Ad(b[x]), NoPost(), s');
    assert LeftReceives(r, s, s');
    ByStep(r, s, s');
  }

  lemma CountedIsSurplus<K(!new)>(p: Scheme<K>, m: nat, x: K)
    requires Lawful(p)
    ensures Counted(p, m, x, 3) == Encode(p, m, WithSurplus({x}, map[x := 2]))
  {
    var none: Net<K> := map[];
    ToggledEncodes(p, m, Indicator({}), x, 1);
    ToggledEncodes(p, m, Bump(Indicator({}), x, 1), x, 1);
    ToggledEncodes(p, m, Bump(Bump(Indicator({}), x, 1), x, 1), x, 1);
    assert Counted(p, m, x, 3) == Toggled(p, Counted(p, m, x, 2), x, 1);
    assert Counted(p, m, x, 2) == Toggled(p, Counted(p, m, x, 1), x, 1);
    assert Counted(p, m, x, 1) == Toggled(p, TableOf(p, m, {}), x, 1);
    EncodeCongruent(p, m, Bump(Bump(Bump(Indicator({}), x, 1), x, 1), x, 1), WithSurplus({x}, map[x := 2]));
  }

  /** The right node reads its own y as missing and asks for it. */
  lemma AsksForOwn<K(!new), C(!new)>(r: Realm<K, C>, m: nat, x: K, y: K, b: map<K, C>, s: Duo<K, C>, s': Duo<K, C>)
    requires Cast(r, m, x, y, b) && s.right == RightNode(r, m, b, s.right.sent)
    requires s.toRight.tables == [Sent(Counted(r.p, m, x, 3), {x})] && s.toLeft.gets == []
    requires s' == s.(toRight := s.toRight.(tables := []), toLeft := s.toLeft.(gets := [[y]]))
    ensures Reaches(r, s, s')
  {
    var t := Counted(r.p, m, x, 3);
    CountedIsSurplus(r.p, m, x);
    StaleDifference(r.p, m, x, y);
    var clean := ListsY(r.p, m, x, y);
    var out := NoPost<K, C>().(gets := [[y]]);
    assert RequestOf([Inserted(y)], 1) == [y];
    assert Decodes(r, s.right, t, [Inserted(y)], clean, s.right, out);
    Joins(s.toLeft, Sent([], {}), [y], multiset{});
    assert Without(s.toRight.tables, 0) == [];
    TableArrives(r, Flip(s), out, Flip(s'));
    ReachesFlips(r, s, s');
  }

  /**
   Three tables of the right node are decoded before any content arrives: the same two rows are requested three
   times.
   */
  lemma ThreeRequests<K(!new), C(!new)>(r: Realm<K, C>, m: nat, x: K, y: K, b: map<K, C>) returns (q: seq<K>)
    requires Cast(r, m, x, y, b)
    ensures Enumerates(q, {x, y})
    ensures var left := LeftNode(r, m, x, b, 0);
            Reaches(r, Stage(r, m, b, left, {}, 0, multiset{}, q, 0), Stage(r, m, b, left, {m}, 0, multiset{}, q, 3))
  {
    var entries, clean := FirstRequest(r, m, x, y, b);
    q := RequestOf(entries, |entries|);
    var left := LeftNode(r, m, x, b, 0);
    var s0 := Stage(r, m, b, left, {}, 0, multiset{}, q, 0);
    assert {} + {m} == {m} && {m} + {m} == {m};
    SendsAnother(r, m, x, b, {}, 0, q);
    SendsAnother(r, m, x, b, {m}, 1, q);
    SendsAnother(r, m, x, b, {m}, 2, q);
    ThenReaches(r, s0, Stage(r, m, b, left, {m}, 1, multiset{}, q, 0), Stage(r, m, b, left, {m}, 2, multiset{}, q, 0));
    ThenReaches(r, s0, Stage(r, m, b, left, {m}, 2, multiset{}, q, 0), Stage(r, m, b, left, {m}, 3, multiset{}, q, 0));
    AsksAgain(r, m, x, b, entries, clean, 2, 0);
    AsksAgain(r, m, x, b, entries, clean, 1, 1);
    AsksAgain(r, m, x, b, entries, clean, 0, 2);
    ThenReaches(r, s0, Stage(r, m, b, left, {m}, 3, multiset{}, q, 0), Stage(r, m, b, left, {m}, 2, multiset{}, q, 1));
    ThenReaches(r, s0, Stage(r, m, b, left, {m}, 2, multiset{}, q, 1), Stage(r, m, b, left, {m}, 1, multiset{}, q, 2));
    ThenReaches(r, s0, Stage(r, m, b, left, {m}, 1, multiset{}, q, 2), Stage(r, m, b, left, {m}, 0, multiset{}, q, 3));
  }

  /** The answers: the row of x arrives three times. */
  lemma ThreeArrivals<K(!new), C(!new)>(r: Realm<K, C>, m: nat, x: K, y: K, b: map<K, C>, q: seq<K>)
    returns (ads: multiset<C>)
    requires Cast(r, m, x, y, b) && Enumerates(q, {x, y})
    ensures Reaches(r, Stage(r, m, b, LeftNode(r, m, x, b, 0), {m}, 0, multiset{}, q, 3),
                    Stage(r, m, b, LeftNode(r, m, x, b, 3), {m}, 0, ads, q, 0))
  {
    var left, two := LeftNode(r, m, x, b, 0), multiset{b[x], b[y]};
    var s0 := Stage(r, m, b, left, {m}, 0, multiset{}, q, 3);
    AnswersAgain(r, m, x, y, b, q, multiset{}, 2);
    AnswersAgain(r, m, x, y, b, q, two, 1);
    AnswersAgain(r, m, x, y, b, q, two + two, 0);
    assert multiset{} + two == two;
    ThenReaches(r, s0, Stage(r, m, b, left, {m}, 0, two, q, 2), Stage(r, m, b, left, {m}, 0, two + two, q, 1));
    ads := two + two + two;
    ThenReaches(r, s0, Stage(r, m, b, left, {m}, 0, two + two, q, 1), Stage(r, m, b, left, {m}, 0, ads, q, 0));
    assert ads[b[x]] >= 3;
    var a1, a2, a3 := ads - multiset{b[x]}, ads - multiset{b[x]} - multiset{b[x]},
                      ads - multiset{b[x]} - multiset{b[x]} - multiset{b[x]};
    ArrivesAgain(r, m, x, y, b, q, ads, 0);
    ArrivesAgain(r, m, x, y, b, q, a1, 1);
    ArrivesAgain(r, m, x, y, b, q, a2, 2);
    ThenReaches(r, s0, Stage(r, m, b, left, {m}, 0, ads, q, 0),
                Stage(r, m, b, LeftNode(r, m, x, b, 1), {m}, 0, a1, q, 0));
    ThenReaches(r, s0, Stage(r, m, b, LeftNode(r, m, x, b, 1), {m}, 0, a1, q, 0),
                Stage(r, m, b, LeftNode(r, m, x, b, 2), {m}, 0, a2, q, 0));
    ThenReaches(r, s0, Stage(r, m, b, LeftNode(r, m, x, b, 2), {m}, 0, a2, q, 0),
                Stage(r, m, b, LeftNode(r, m, x, b, 3), {m}, 0, a3, q, 0));
    ads := a3;
  }

  /** Then the left node sends its table, and is asked for y. */
  lemma StaleTableSent<K(!new), C(!new)>(r: Realm<K, C>, m: nat, x: K, y: K, b: map<K, C>, q: seq<K>, ads: multiset<C>)
    returns (s: Duo<K, C>)
    requires Cast(r, m, x, y, b)
    ensures Reaches(r, Stage(r, m, b, LeftNode(r, m, x, b, 3), {m}, 0, ads, q, 0), s)
    ensures s.toLeft.gets == [[y]] && s.left.rows.Keys == {x}
  {
    var s0 := Stage(r, m, b, LeftNode(r, m, x, b, 3), {m}, 0, ads, q, 0);
    var s1 := Flip(TableSent(Flip(s0), m));
    TableRound(r, Flip(s0), m);
    assert Flip(s1) == TableSent(Flip(s0), m);
    ReachesFlips(r, s0, s1);
    s := s1.(toRight := s1.toRight.(tables := []), toLeft := s1.toLeft.(gets := [[y]]));
    assert s0.left.rows.Keys == {x} && s0.left.iblts[m] == Counted(r.p, m, x, 3);
    assert s1.toRight.tables == [] + [Sent(Counted(r.p, m, x, 3), {x})];
    AsksForOwn(r, m, x, y, b, s1, s);
    ThenReaches(r, s0, s1, s);
  }

  /**
   In a fair setting in which every bucket of y is one of x and x has another, an exchange with overlapping tables
   leads to a request for y at a node that does not hold y, which stops it. So without the condition that no content
   arrives again, requests do fail.
   */
  lemma OverlapStopsNode<K(!new), C(!new)>(r: Realm<K, C>, m: nat, x: K, y: K, b: map<K, C>)
    returns (states: seq<Duo<K, C>>)
    requires Cast(r, m, x, y, b)
    ensures Run(r, map[], b, states)
    ensures var s := states[|states| - 1]; s.toLeft.gets == [[y]] && y !in s.left.rows
  {
    var q := ThreeRequests(r, m, x, y, b);
    var ads := ThreeArrivals(r, m, x, y, b, q);
    var s := StaleTableSent(r, m, x, y, b, q, ads);
    var s0 := Stage(r, m, b, LeftNode(r, m, x, b, 0), {}, 0, multiset{}, q, 0);
    ThenReaches(r, s0, Stage(r, m, b, LeftNode(r, m, x, b, 0), {m}, 0, multiset{}, q, 3),
                Stage(r, m, b, LeftNode(r, m, x, b, 3), {m}, 0, ads, q, 0));
    ThenReaches(r, s0, Stage(r, m, b, LeftNode(r, m, x, b, 3), {m}, 0, ads, q, 0), s);
    states :| Leads(r, s0, s, states);
    BeginsThere(r, m, x, b, q);
  }

  lemma BeginsThere<K(!new), C(!new)>(r: Realm<K, C>, m: nat, x: K, b: map<K, C>, q: seq<K>)
    requires 0 < m && x in b
    ensures Begins(r, map[], b, Stage(r, m, b, LeftNode(r, m, x, b, 0), {}, 0, multiset{}, q, 0))
  {
    var none: map<K, C> := map[];
    assert none.Keys == {};
  }

  /* ---------- there are such nodes ---------- */

  /** Two keys on the same side are never taken for one. */
  lemma SameSidePure<K(!new)>(p: Scheme<K>, m: nat, x: K, y: K)
    requires Lawful(p) && x != y
    ensures NoFalsePurity(p, m, Diff({}, {x, y}))
  {
    var net := Diff({}, {x, y});
    forall s: set<K>, n: nat | s <= net.Keys && n < m && LooksPure(p, Sum(p, m, s, net, n))
      ensures exists key :: Sole(p, m, s, n, key)
    {
      PureIsSole(p, m, x, y, net, s, n);
    }
  }

  lemma PureIsSole<K(!new)>(p: Scheme<K>, m: nat, x: K, y: K, net: Net<K>, s: set<K>, n: nat)
    requires Lawful(p) && n < m && x != y && net == Diff({}, {x, y}) && s <= {x, y} &&
             LooksPure(p, Sum(p, m, s, net, n))
    ensures exists key :: Sole(p, m, s, n, key)
  {
    var here := Members(p, m, s, n);
    if x in here && y in here {
      assert s == {x, y} && s - {x} == {y} && {y} - {y} == {};
      SumPick(p, m, s, net, n, x);
      SumPick(p, m, {y}, net, n, y);
    } else if here == {} {
      EmptyBucket(p, m, net, s, n);
    } else {
      var key :| key in here;
      assert here == {key};
      assert Sole(p, m, s, n, key);
    }
  }

  /** A hash under which x has the buckets 0 and 1 and y the bucket 0 alone. */
  ghost function TwoBuckets<K>(ops: XorOps<K>, x: K): Scheme<K> {
    Standard(KeyKind(ops, (key: K, k0: Word, k1: Word) => if key == x && k0 == Word(1) then Word(1) else Word(0)),
             Word(0), Word(0), [(Word(0), Word(0)), (Word(1), Word(0))])
  }

  lemma TwoBucketsInside<K(!new)>(ops: XorOps<K>, x: K, y: K)
    requires XorLaws(ops) && x != y
    ensures Usable(TwoBuckets(ops, x)) && Inside(TwoBuckets(ops, x), 100, x, y)
  {
    var p := TwoBuckets(ops, x);
    StandardIsUsable(p.kind, Word(0), Word(0), p.ks);
    assert Modulo(Word(0), 100) == 0 && Modulo(Word(1), 100) == 1;
    assert Hashed(p, 100, x)[0] == 0 && Hashed(p, 100, x)[1] == 1;
    assert Hashed(p, 100, y) == [0, 0];
    assert Touches(p, 100, x, 1) && !Touches(p, 100, y, 1);
  }
}
