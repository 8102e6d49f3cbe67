/**
 What a lookup table encodes. A bucket adds up, for every key hashed to it, the key and
 its hash by exclusive or and its signed multiplicity by ordinary addition. The
 encoding of a net multiplicity is defined without any order of insertion, and
 insertion, deletion and subtraction are shown to act on it linearly.
 */
module Algebra {
  import opened Keys

  /** The parameters shared by all tables that can be subtracted from each other. */
  datatype Scheme<!K> = Scheme(kind: KeyKind<K>, words: XorOps<Word>, slot: (Word, nat) -> nat,
                               k0: Word, k1: Word, ks: seq<(Word, Word)>)

  datatype Bucket<K> = Bucket(keysum: K, hashsum: Word, count: int)

  /** A signed multiplicity; keys outside the map have multiplicity zero. */
  type Net<!K> = map<K, int>

  const K_MAX := 6

  /** A scheme a table can be created with: the key laws hold and there are one to K_MAX hash functions. */
  ghost predicate Usable<K(!new)>(p: Scheme<K>) {
    Lawful(p) && 0 < |p.ks| <= K_MAX
  }

  ghost predicate Lawful<K(!new)>(p: Scheme<K>) {
    XorLaws(p.kind.ops) && XorLaws(p.words) && forall h: Word, m: nat :: 0 < m ==> p.slot(h, m) < m
  }

  /** The scheme the system uses: plain words, and a bucket is the hash modulo the size of the table. */
  function Standard<K>(kind: KeyKind<K>, k0: Word, k1: Word, ks: seq<(Word, Word)>): Scheme<K> {
    Scheme(kind, WORDS, Modulo, k0, k1, ks)
  }

  function Modulo(h: Word, m: nat): nat {
    if m == 0 then 0 else (h.bits as nat) % m
  }

  lemma StandardIsUsable<K(!new)>(kind: KeyKind<K>, k0: Word, k1: Word, ks: seq<(Word, Word)>)
    requires XorLaws(kind.ops) && 0 < |ks| <= K_MAX
    ensures Usable(Standard(kind, k0, k1, ks))
  {
    WordLaws();
    var p := Standard(kind, k0, k1, ks);
    forall h: Word, m: nat | 0 < m ensures p.slot(h, m) < m {
      assert p.slot(h, m) == Modulo(h, m);
    }
  }

  /** Both kinds of tables in the system, those of ads and those of addresses, are of this form. */
  lemma SystemSchemesAreUsable(sip: ByteHash, k0: Word, k1: Word, ks: seq<(Word, Word)>)
    requires 0 < |ks| <= K_MAX
    ensures Usable(Standard(ContentKind(sip), k0, k1, ks)) && Usable(Standard(AddressKind(sip), k0, k1, ks))
  {
    ContentKeyLaws();
    NetAddressLaws();
    StandardIsUsable(ContentKind(sip), k0, k1, ks);
    StandardIsUsable(AddressKind(sip), k0, k1, ks);
  }

  function KeyHash<K>(p: Scheme<K>, key: K): Word {
    p.kind.hash(key, p.k0, p.k1)
  }

  /** The bucket the i-th hash function sends a key to, in a table of m buckets. */
  function Place<K>(p: Scheme<K>, m: nat, key: K, i: nat): (n: nat)
    requires i < |p.ks|
  {
    p.slot(p.kind.hash(key, p.ks[i].0, p.ks[i].1), m)
  }

  function Hashed<K>(p: Scheme<K>, m: nat, key: K): (s: seq<nat>) {
    seq(|p.ks|, i requires 0 <= i < |p.ks| => Place(p, m, key, i))
  }

  predicate Touches<K>(p: Scheme<K>, m: nat, key: K, n: nat) {
    n in Hashed(p, m, key)
  }

  function Times<K>(net: Net<K>, key: K): int {
    if key in net then net[key] else 0
  }

  /* ---------- buckets form a commutative group ---------- */

  function Empty<K>(p: Scheme<K>): Bucket<K> {
    Bucket(p.kind.ops.zero, p.words.zero, 0)
  }

  function Plus<K>(p: Scheme<K>, a: Bucket<K>, b: Bucket<K>): Bucket<K> {
    Bucket(p.kind.ops.xor(a.keysum, b.keysum), p.words.xor(a.hashsum, b.hashsum), a.count + b.count)
  }

  function Minus<K>(p: Scheme<K>, a: Bucket<K>, b: Bucket<K>): Bucket<K> {
    Bucket(p.kind.ops.xor(a.keysum, b.keysum), p.words.xor(a.hashsum, b.hashsum), a.count - b.count)
  }

  lemma PlusAssociates<K(!new)>(p: Scheme<K>, a: Bucket<K>, b: Bucket<K>, c: Bucket<K>)
    requires Lawful(p)
    ensures Plus(p, Plus(p, a, b), c) == Plus(p, a, Plus(p, b, c))
  {
    assert Associates(p.kind.ops, a.keysum, b.keysum, c.keysum);
    assert Associates(p.words, a.hashsum, b.hashsum, c.hashsum);
  }

  lemma PlusCommutes<K(!new)>(p: Scheme<K>, a: Bucket<K>, b: Bucket<K>)
    requires Lawful(p)
    ensures Plus(p, a, b) == Plus(p, b, a)
  {
    assert Commutes(p.kind.ops, a.keysum, b.keysum);
    assert Commutes(p.words, a.hashsum, b.hashsum);
  }

  lemma PlusEmpty<K(!new)>(p: Scheme<K>, a: Bucket<K>)
    requires Lawful(p)
    ensures Plus(p, a, Empty(p)) == a == Plus(p, Empty(p), a)
  {
    assert Cancels(p.kind.ops, a.keysum);
    assert Cancels(p.words, a.hashsum);
    PlusCommutes(p, a, Empty(p));
  }

  lemma PlusSwap<K(!new)>(p: Scheme<K>, a: Bucket<K>, b: Bucket<K>, c: Bucket<K>)
    requires Lawful(p)
    ensures Plus(p, a, Plus(p, b, c)) == Plus(p, b, Plus(p, a, c))
  {
    PlusAssociates(p, a, b, c);
    PlusCommutes(p, a, b);
    PlusAssociates(p, b, a, c);
  }

  /** Taking away one of two summands leaves the other. */
  lemma MinusUndoesPlus<K(!new)>(p: Scheme<K>, a: Bucket<K>, b: Bucket<K>)
    requires Lawful(p)
    ensures Minus(p, Plus(p, a, b), a) == b
  {
    assert Commutes(p.kind.ops, a.keysum, b.keysum);
    assert Commutes(p.words, a.hashsum, b.hashsum);
    assert Associates(p.kind.ops, b.keysum, a.keysum, a.keysum);
    assert Associates(p.words, b.hashsum, a.hashsum, a.hashsum);
    assert Cancels(p.kind.ops, a.keysum) && Cancels(p.words, a.hashsum);
    assert Cancels(p.kind.ops, b.keysum) && Cancels(p.words, b.hashsum);
  }

  lemma Regroup<T(!new)>(ops: XorOps<T>, x: T, y: T, z: T, w: T)
    requires XorLaws(ops)
    ensures ops.xor(ops.xor(x, y), ops.xor(z, w)) == ops.xor(ops.xor(x, z), ops.xor(y, w))
  {
    assert Associates(ops, ops.xor(x, y), z, w);
    assert Associates(ops, x, y, z);
    assert Commutes(ops, y, z);
    assert Associates(ops, x, z, y);
    assert Associates(ops, ops.xor(x, z), y, w);
  }

  /** Subtraction works summand by summand. */
  lemma MinusOfPlus<K(!new)>(p: Scheme<K>, a: Bucket<K>, b: Bucket<K>, c: Bucket<K>, d: Bucket<K>)
    requires Lawful(p)
    ensures Minus(p, Plus(p, a, b), Plus(p, c, d)) == Plus(p, Minus(p, a, c), Minus(p, b, d))
  {
    Regroup(p.words, a.hashsum, b.hashsum, c.hashsum, d.hashsum);
    Regroup(p.kind.ops, a.keysum, b.keysum, c.keysum, d.keysum);
  }

  /* ---------- the encoding ---------- */

  predicate Odd(c: int) {
    c % 2 == 1
  }

  /** What `c` insertions of one key (deletions where negative) leave in bucket n. */
  function Share<K>(p: Scheme<K>, m: nat, key: K, c: int, n: nat): Bucket<K>
    requires 0 < m
  {
    if !Touches(p, m, key, n) then Empty(p)
    else if Odd(c) then Bucket(key, KeyHash(p, key), c)
    else Bucket(p.kind.ops.zero, p.words.zero, c)
  }

  lemma OddOfSum(c: int, d: int)
    ensures Odd(c + d) == (Odd(c) != Odd(d)) == Odd(c - d)
  {
    var x, y := c / 2, d / 2;
    var i, j := c % 2, d % 2;
    assert c == 2 * x + i && d == 2 * y + j;
    assert c + d == 2 * (x + y) + (i + j);
    assert c - d == 2 * (x - y) + (i - j);
  }

  lemma SharesAdd<K(!new)>(p: Scheme<K>, m: nat, key: K, c: int, d: int, n: nat)
    requires 0 < m && Lawful(p)
    ensures Plus(p, Share(p, m, key, c, n), Share(p, m, key, d, n)) == Share(p, m, key, c + d, n)
    ensures Minus(p, Share(p, m, key, c, n), Share(p, m, key, d, n)) == Share(p, m, key, c - d, n)
  {
    OddOfSum(c, d);
    assert Cancels(p.kind.ops, key) && Cancels(p.words, KeyHash(p, key));
    assert Cancels(p.kind.ops, p.kind.ops.zero) && Cancels(p.words, p.words.zero);
    assert Commutes(p.kind.ops, key, p.kind.ops.zero) && Commutes(p.words, KeyHash(p, key), p.words.zero);
  }

  /** The sum of the shares of a set of keys in bucket n. The keys are taken in no particular order. */
  ghost function Sum<K>(p: Scheme<K>, m: nat, s: set<K>, net: Net<K>, n: nat): Bucket<K>
    requires 0 < m
  {
    if s == {} then Empty(p)
    else
      var key :| key in s;
      Plus(p, Share(p, m, key, Times(net, key), n), Sum(p, m, s - {key}, net, n))
  }

  /** Any key of the set can be taken out of the sum first. */
  lemma {:induction false} SumPick<K(!new)>(p: Scheme<K>, m: nat, s: set<K>, net: Net<K>, n: nat, key: K)
    requires 0 < m && Lawful(p) && key in s
    ensures Sum(p, m, s, net, n) == Plus(p, Share(p, m, key, Times(net, key), n), Sum(p, m, s - {key}, net, n))
    decreases s
  {
    var first :| first in s
                 && Sum(p, m, s, net, n) ==
                    Plus(p, Share(p, m, first, Times(net, first), n), Sum(p, m, s - {first}, net, n));
    if first != key {
      SumPick(p, m, s - {first}, net, n, key);
      SumPick(p, m, s - {key}, net, n, first);
      assert s - {first} - {key} == s - {key} - {first};
      PlusSwap(p, Share(p, m, first, Times(net, first), n), Share(p, m, key, Times(net, key), n),
               Sum(p, m, s - {key} - {first}, net, n));
    }
  }

  lemma {:induction false} SumCongruent<K(!new)>(p: Scheme<K>, m: nat, s: set<K>, a: Net<K>, b: Net<K>, n: nat)
    requires 0 < m && Lawful(p)
    requires forall key :: key in s ==> Times(a, key) == Times(b, key)
    ensures Sum(p, m, s, a, n) == Sum(p, m, s, b, n)
    decreases s
  {
    if s != {} {
      var key :| key in s;
      SumPick(p, m, s, a, n, key);
      SumPick(p, m, s, b, n, key);
      SumCongruent(p, m, s - {key}, a, b, n);
    }
  }

  /** Keys that leave nothing in bucket n do not matter to it. */
  lemma {:induction false} SumIgnores<K(!new)>(p: Scheme<K>, m: nat, s: set<K>, t: set<K>, net: Net<K>, n: nat)
    requires 0 < m && Lawful(p) && t <= s
    requires forall key :: key in s - t ==> Share(p, m, key, Times(net, key), n) == Empty(p)
    ensures Sum(p, m, s, net, n) == Sum(p, m, t, net, n)
    decreases s - t
  {
    if key :| key in s - t {
      SumPick(p, m, s, net, n, key);
      PlusEmpty(p, Sum(p, m, s - {key}, net, n));
      SumIgnores(p, m, s - {key}, t, net, n);
    } else {
      assert forall key :: key in s && key !in t ==> key in s - t;
      assert s == t;
    }
  }

  lemma {:induction false} SumOfDifference<K(!new)>(p: Scheme<K>, m: nat, s: set<K>, a: Net<K>, b: Net<K>, c: Net<K>,
                                                    n: nat)
    requires 0 < m && Lawful(p)
    requires forall key :: key in s ==> Times(c, key) == Times(a, key) - Times(b, key)
    ensures Minus(p, Sum(p, m, s, a, n), Sum(p, m, s, b, n)) == Sum(p, m, s, c, n)
    decreases s
  {
    if s == {} {
      PlusEmpty(p, Empty(p));
    } else {
      var key :| key in s;
      SumPick(p, m, s, a, n, key);
      SumPick(p, m, s, b, n, key);
      SumPick(p, m, s, c, n, key);
      SumOfDifference(p, m, s - {key}, a, b, c, n);
      SharesAdd(p, m, key, Times(a, key), Times(b, key), n);
      MinusOfPlus(p, Share(p, m, key, Times(a, key), n), Sum(p, m, s - {key}, a, n),
                  Share(p, m, key, Times(b, key), n), Sum(p, m, s - {key}, b, n));
    }
  }

  /** The table of m buckets that encodes the keys of `s` with their multiplicities in `net`. */
  ghost function EncodeOn<K>(p: Scheme<K>, m: nat, s: set<K>, net: Net<K>): (t: seq<Bucket<K>>)
    ensures |t| == m
  {
    seq(m, n requires 0 <= n < m => Sum(p, m, s, net, n))
  }

  /** The table of m buckets that encodes a net multiplicity. */
  ghost function Encode<K>(p: Scheme<K>, m: nat, net: Net<K>): seq<Bucket<K>> {
    EncodeOn(p, m, net.Keys, net)
  }

  ghost predicate SameNet<K(!new)>(a: Net<K>, b: Net<K>) {
    forall key :: Times(a, key) == Times(b, key)
  }

  /** Only the multiplicities matter, not the set they are listed on. */
  lemma EncodeOnSuperset<K(!new)>(p: Scheme<K>, m: nat, s: set<K>, net: Net<K>)
    requires Lawful(p) && net.Keys <= s
    ensures EncodeOn(p, m, s, net) == Encode(p, m, net)
  {
    forall n | 0 <= n < m ensures EncodeOn(p, m, s, net)[n] == Encode(p, m, net)[n] {
      SumIgnores(p, m, s, net.Keys, net, n);
    }
  }

  lemma EncodeCongruent<K(!new)>(p: Scheme<K>, m: nat, a: Net<K>, b: Net<K>)
    requires Lawful(p) && SameNet(a, b)
    ensures Encode(p, m, a) == Encode(p, m, b)
  {
    var s := a.Keys + b.Keys;
    EncodeOnSuperset(p, m, s, a);
    EncodeOnSuperset(p, m, s, b);
    forall n | 0 <= n < m ensures EncodeOn(p, m, s, a)[n] == EncodeOn(p, m, s, b)[n] {
      SumCongruent(p, m, s, a, b, n);
    }
  }

  /* ---------- the operations as functions of tables ---------- */

  /** One bucket with a key added c times. */
  function ToggledOnce<K>(p: Scheme<K>, b: Bucket<K>, key: K, c: int): Bucket<K> {
    Bucket(p.kind.ops.xor(b.keysum, key), p.words.xor(b.hashsum, KeyHash(p, key)), b.count + c)
  }

  /** Key added `c` times, where c is 1 for an insertion and -1 for a deletion. */
  function Toggled<K>(p: Scheme<K>, t: seq<Bucket<K>>, key: K, c: int): (r: seq<Bucket<K>>)
    ensures |r| == |t|
  {
    seq(|t|, n requires 0 <= n < |t| =>
      if Touches(p, |t|, key, n) then ToggledOnce(p, t[n], key, c) else t[n])
  }

  function Subtracted<K>(p: Scheme<K>, a: seq<Bucket<K>>, b: seq<Bucket<K>>): (r: seq<Bucket<K>>)
    requires |a| == |b|
    ensures |r| == |a|
  {
    seq(|a|, n requires 0 <= n < |a| => Minus(p, a[n], b[n]))
  }

  function NewTable<K>(p: Scheme<K>, m: nat): (r: seq<Bucket<K>>)
    ensures |r| == m
  {
    seq(m, _ => Empty(p))
  }

  function Bump<K>(net: Net<K>, key: K, c: int): Net<K> {
    net[key := Times(net, key) + c]
  }

  function NetMinus<K>(a: Net<K>, b: Net<K>): Net<K> {
    map key | key in a.Keys + b.Keys :: Times(a, key) - Times(b, key)
  }

  /** Inserting (c = 1) or deleting (c = -1) a key changes its multiplicity by c and nothing else. */
  lemma ToggledEncodes<K(!new)>(p: Scheme<K>, m: nat, net: Net<K>, key: K, c: int)
    requires Lawful(p) && Odd(c)
    ensures Toggled(p, Encode(p, m, net), key, c) == Encode(p, m, Bump(net, key, c))
  {
    var s := net.Keys + {key};
    var bumped := Bump(net, key, c);
    EncodeOnSuperset(p, m, s, net);
    assert bumped.Keys == s;
    forall n | 0 <= n < m
      ensures Toggled(p, EncodeOn(p, m, s, net), key, c)[n] == EncodeOn(p, m, s, bumped)[n]
    {
      ToggledBucket(p, m, s, net, bumped, key, c, n);
    }
  }

  lemma ToggledBucket<K(!new)>(p: Scheme<K>, m: nat, s: set<K>, net: Net<K>, bumped: Net<K>, key: K, c: int, n: nat)
    requires n < m && Lawful(p) && Odd(c) && key in s
    requires bumped == Bump(net, key, c)
    ensures Sum(p, m, s, bumped, n) == Toggled(p, EncodeOn(p, m, s, net), key, c)[n]
  {
    SumBumped(p, m, s, net, bumped, key, c, n);
    PlusEmpty(p, Sum(p, m, s, net, n));
  }

  lemma SumBumped<K(!new)>(p: Scheme<K>, m: nat, s: set<K>, net: Net<K>, bumped: Net<K>, key: K, c: int, n: nat)
    requires n < m && Lawful(p) && key in s && bumped == Bump(net, key, c)
    ensures Sum(p, m, s, bumped, n) == Plus(p, Sum(p, m, s, net, n), Share(p, m, key, c, n))
  {
    SumPick(p, m, s, net, n, key);
    SumPick(p, m, s, bumped, n, key);
    SumCongruent(p, m, s - {key}, net, bumped, n);
    var was, share, rest := Share(p, m, key, Times(net, key), n), Share(p, m, key, c, n), Sum(p, m, s - {key}, net, n);
    SharesAdd(p, m, key, Times(net, key), c, n);
    PlusCommutes(p, was, share);
    PlusAssociates(p, share, was, rest);
    PlusCommutes(p, share, Plus(p, was, rest));
  }

  /** Subtracting tables subtracts the multiplicities they encode. */
  lemma SubtractedEncodes<K(!new)>(p: Scheme<K>, m: nat, a: Net<K>, b: Net<K>)
    requires Lawful(p)
    ensures Subtracted(p, Encode(p, m, a), Encode(p, m, b)) == Encode(p, m, NetMinus(a, b))
  {
    var c := NetMinus(a, b);
    var s := a.Keys + b.Keys;
    EncodeOnSuperset(p, m, s, a);
    EncodeOnSuperset(p, m, s, b);
    assert c.Keys == s;
    forall n | 0 <= n < m
      ensures Minus(p, EncodeOn(p, m, s, a)[n], EncodeOn(p, m, s, b)[n]) == EncodeOn(p, m, s, c)[n]
    {
      SumOfDifference(p, m, s, a, b, c, n);
    }
  }

  /* ---------- histories ---------- */

  datatype Action<K> = Insert(key: K) | Delete(key: K)

  function Sign<K>(a: Action<K>): int {
    if a.Insert? then 1 else -1
  }

  /** The table after a history of insertions and deletions on a new table. */
  function Replay<K>(p: Scheme<K>, m: nat, h: seq<Action<K>>): (t: seq<Bucket<K>>)
    ensures |t| == m
  {
    if h == [] then NewTable(p, m)
    else Toggled(p, Replay(p, m, h[..|h| - 1]), h[|h| - 1].key, Sign(h[|h| - 1]))
  }

  function NetOf<K>(h: seq<Action<K>>): Net<K> {
    if h == [] then map[] else Bump(NetOf(h[..|h| - 1]), h[|h| - 1].key, Sign(h[|h| - 1]))
  }

  /** A history leaves exactly the encoding of its net multiplicities. */
  lemma {:induction false} ReplayEncodesNet<K(!new)>(p: Scheme<K>, m: nat, h: seq<Action<K>>)
    requires Lawful(p)
    ensures Replay(p, m, h) == Encode(p, m, NetOf(h))
  {
    if h == [] {
      assert NetOf(h).Keys == {};
    } else {
      ReplayEncodesNet(p, m, h[..|h| - 1]);
      ToggledEncodes(p, m, NetOf(h[..|h| - 1]), h[|h| - 1].key, Sign(h[|h| - 1]));
    }
  }

  /** Histories with the same net multiplicities leave the same table, in whatever order they ran. */
  lemma OrderDoesNotMatter<K(!new)>(p: Scheme<K>, m: nat, g: seq<Action<K>>, h: seq<Action<K>>)
    requires Lawful(p) && SameNet(NetOf(g), NetOf(h))
    ensures Replay(p, m, g) == Replay(p, m, h)
  {
    ReplayEncodesNet(p, m, g);
    ReplayEncodesNet(p, m, h);
    EncodeCongruent(p, m, NetOf(g), NetOf(h));
  }

  /** On any table whatsoever a deletion undoes an insertion of the same key, and the other way round. */
  lemma ToggleUndoes<K(!new)>(p: Scheme<K>, t: seq<Bucket<K>>, key: K, c: int)
    requires Lawful(p)
    ensures Toggled(p, Toggled(p, t, key, c), key, -c) == t
  {
    forall n | 0 <= n < |t| ensures Toggled(p, Toggled(p, t, key, c), key, -c)[n] == t[n] {
      assert Associates(p.kind.ops, t[n].keysum, key, key);
      assert Associates(p.words, t[n].hashsum, KeyHash(p, key), KeyHash(p, key));
      assert Cancels(p.kind.ops, key) && Cancels(p.words, KeyHash(p, key));
      assert Cancels(p.kind.ops, t[n].keysum) && Cancels(p.words, t[n].hashsum);
    }
  }
}
