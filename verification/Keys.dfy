/** Exclusive or on 64 bit words. */
module Words {

  function XorBits(a: bv64, b: bv64): bv64 {
    a ^ b
  }

  lemma XorBitsLeft(a: bv64, b: bv64, c: bv64)
    ensures XorBits(XorBits(a, b), c) == a ^ b ^ c
  {
  }

  lemma XorBitsRight(a: bv64, b: bv64, c: bv64)
    ensures XorBits(a, XorBits(b, c)) == a ^ b ^ c
  {
  }

  lemma XorBitsAssociate(a: bv64, b: bv64, c: bv64)
    ensures XorBits(XorBits(a, b), c) == XorBits(a, XorBits(b, c))
  {
    XorBitsLeft(a, b, c);
    XorBitsRight(a, b, c);
  }

  lemma XorBitsCommute(a: bv64, b: bv64)
    ensures XorBits(a, b) == XorBits(b, a)
  {
  }

  lemma XorBitsCancel(a: bv64)
    ensures XorBits(a, a) == 0 && XorBits(a, 0) == a
  {
  }
}

/**
 The keys a lookup table can hold. Every key type comes with a zero value, an
 exclusive or and a keyed 64 bit hash. The laws of exclusive or are what
 the tables rely on, and they are proved here for both key types of the system.
 */
module Keys {
  import opened Words

  /** A type with a zero value and an exclusive or. */
  datatype XorOps<!T> = XorOps(zero: T, xor: (T, T) -> T)

  /** What a lookup table asks of its key type. The hash itself is foreign and stays arbitrary. */
  datatype KeyKind<!K> = KeyKind(ops: XorOps<K>, hash: (K, Word, Word) -> Word)

  ghost predicate Associates<T>(ops: XorOps<T>, a: T, b: T, c: T) {
    ops.xor(ops.xor(a, b), c) == ops.xor(a, ops.xor(b, c))
  }

  ghost predicate Commutes<T>(ops: XorOps<T>, a: T, b: T) {
    ops.xor(a, b) == ops.xor(b, a)
  }

  ghost predicate Cancels<T>(ops: XorOps<T>, a: T) {
    ops.xor(a, a) == ops.zero && ops.xor(a, ops.zero) == a
  }

  /** Exclusive or makes a commutative group in which every element is its own inverse. */
  ghost predicate XorLaws<T(!new)>(ops: XorOps<T>) {
    && (forall a, b, c :: Associates(ops, a, b, c))
    && (forall a, b :: Commutes(ops, a, b))
    && (forall a :: Cancels(ops, a))
  }

  /* ---------- the 64 bit hashes ---------- */

  datatype Word = Word(bits: bv64)

  function XorWord(a: Word, b: Word): Word {
    Word(XorBits(a.bits, b.bits))
  }

  const WORDS: XorOps<Word> := XorOps(Word(0), XorWord)

  lemma WordLaws()
    ensures XorLaws(WORDS)
  {
    forall a, b, c ensures Associates(WORDS, a, b, c) {
      XorBitsAssociate(a.bits, b.bits, c.bits);
    }
    forall a, b ensures Commutes(WORDS, a, b) {
      XorBitsCommute(a.bits, b.bits);
    }
    forall a ensures Cancels(WORDS, a) {
      XorBitsCancel(a.bits);
    }
  }

  /* ---------- the digest of an ad ---------- */

  const DIGEST_LEN := 32

  type Digest = s: seq<bv8> | |s| == DIGEST_LEN witness seq(DIGEST_LEN, _ => 0)

  datatype ContentKey = ContentKey(digest: Digest)

  function XorBytes(a: seq<bv8>, b: seq<bv8>): (r: seq<bv8>)
    requires |a| == |b|
  {
    seq(|a|, i requires 0 <= i < |a| => a[i] ^ b[i])
  }

  function XorContent(a: ContentKey, b: ContentKey): ContentKey {
    ContentKey(XorBytes(a.digest, b.digest))
  }

  /** The in-place exclusive or of one digest into another. */
  method XorAssignDigest(digest: array<bv8>, rhs: ContentKey)
    requires digest.Length == DIGEST_LEN
    modifies digest
    ensures forall i :: 0 <= i < DIGEST_LEN ==> digest[i] == old(digest[i]) ^ rhs.digest[i]
    ensures ContentKey(digest[..]) == XorContent(ContentKey(old(digest[..])), rhs)
  {
    for i := 0 to DIGEST_LEN
      invariant forall j :: 0 <= j < i ==> digest[j] == old(digest[j]) ^ rhs.digest[j]
      invariant forall j :: i <= j < DIGEST_LEN ==> digest[j] == old(digest[j])
    {
      digest[i] := digest[i] ^ rhs.digest[i];
    }
    assert digest[..] == XorBytes(old(digest[..]), rhs.digest);
  }

  const CONTENT_KEYS: XorOps<ContentKey> := XorOps(ContentKey(seq(DIGEST_LEN, _ => 0)), XorContent)

  /** A keyed hash over bytes, such as SipHash. */
  type ByteHash = (Word, Word, seq<bv8>) -> Word

  function ContentKind(sip: ByteHash): KeyKind<ContentKey> {
    KeyKind(CONTENT_KEYS,
            (key: ContentKey, k0: Word, k1: Word) => sip(k0, k1, key.digest))
  }

  lemma ContentKeyLaws()
    ensures XorLaws(CONTENT_KEYS)
  {
    var ops := CONTENT_KEYS;
    forall a, b, c ensures Associates(ops, a, b, c) {
      assert ops.xor(ops.xor(a, b), c).digest == ops.xor(a, ops.xor(b, c)).digest;
    }
    forall a, b ensures Commutes(ops, a, b) {
      assert ops.xor(a, b).digest == ops.xor(b, a).digest;
    }
    forall a ensures Cancels(ops, a) {
      assert ops.xor(a, a).digest == ops.zero.digest;
      assert ops.xor(a, ops.zero).digest == a.digest;
    }
  }

  /* ---------- the address of a peer ---------- */

  const SEGMENTS := 8

  type Segments = s: seq<bv16> | |s| == SEGMENTS witness seq(SEGMENTS, _ => 0)

  datatype NetAddress = NetAddress(address: Segments, port: bv16)

  function XorAddress(a: NetAddress, b: NetAddress): NetAddress {
    NetAddress(seq(SEGMENTS, i requires 0 <= i < SEGMENTS => a.address[i] ^ b.address[i]), a.port ^ b.port)
  }

  const ADDRESSES: XorOps<NetAddress> := XorOps(NetAddress(seq(SEGMENTS, _ => 0), 0), XorAddress)

  function Low(w: bv16): bv8 {
    (w & 0xff) as bv8
  }

  function High(w: bv16): bv8 {
    (w >> 8) as bv8
  }

  lemma WordOfBytes(w: bv16)
    ensures (High(w) as bv16 << 8) | (Low(w) as bv16) == w
  {
  }

  /** The low byte of each word comes first. */
  function AddressBytes(words: seq<bv16>): seq<bv8> {
    if words == [] then [] else [Low(words[0]), High(words[0])] + AddressBytes(words[1..])
  }

  lemma {:induction false} AddressBytesAt(words: seq<bv16>, i: nat)
    requires i < |words|
    ensures |AddressBytes(words)| == 2 * |words|
    ensures AddressBytes(words)[2 * i] == Low(words[i]) && AddressBytes(words)[2 * i + 1] == High(words[i])
  {
    if i > 0 {
      AddressBytesAt(words[1..], i - 1);
    } else if |words| > 1 {
      AddressBytesAt(words[1..], 0);
    }
  }

  /** The bytes are those of the words in turn, so the words can be read off them. */
  lemma AddressBytesAre(words: seq<bv16>, i: nat)
    requires i < |words|
    ensures |AddressBytes(words)| == 2 * |words|
    ensures (AddressBytes(words)[2 * i + 1] as bv16 << 8) | (AddressBytes(words)[2 * i] as bv16) == words[i]
  {
    AddressBytesAt(words, i);
    WordOfBytes(words[i]);
  }

  function AddressKind(sip: ByteHash): KeyKind<NetAddress> {
    KeyKind(ADDRESSES,
            (key: NetAddress, k0: Word, k1: Word) => sip(k0, k1, AddressBytes(key.address + [key.port])))
  }

  lemma NetAddressLaws()
    ensures XorLaws(ADDRESSES)
  {
    var ops := ADDRESSES;
    forall a, b, c ensures Associates(ops, a, b, c) {
      assert ops.xor(ops.xor(a, b), c).address == ops.xor(a, ops.xor(b, c)).address;
    }
    forall a, b ensures Commutes(ops, a, b) {
      assert ops.xor(a, b).address == ops.xor(b, a).address;
    }
    forall a ensures Cancels(ops, a) {
      assert ops.xor(a, a).address == ops.zero.address;
      assert ops.xor(a, ops.zero).address == a.address;
    }
  }
}
