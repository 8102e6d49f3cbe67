/**
 The space-saving storage of a text: UTF-8 or UTF-16, whichever is shorter, compressed if that is shorter still.
 */
module TextCodec {
  import opened Wrappers
  import opened Unicode

  const UTF_16: byte := 1
  const COMPRESSED: byte := 2

  /** Compression that can be undone. */
  datatype Compression = Compression(compress: seq<byte> -> seq<byte>, decompress: seq<byte> -> Option<seq<byte>>)

  ghost predicate Inverts(z: Compression) {
    forall data: seq<byte> :: z.decompress(z.compress(data)) == Some(data)
  }

  datatype Failure = NoFlag | BadCompression | BadUtf8 | BadUtf16
  datatype Decoded = Text(text: seq<scalar>) | Bad(failure: Failure)

  function Joined(low: byte, high: byte): unit {
    var x: int := high;
    low + 0x100 * x
  }

  /** Units as bytes, the low byte first. */
  function Little(u: seq<unit>): (b: seq<byte>)
    ensures |b| == 2 * |u|
  {
    if u == [] then [] else Little(u[..|u| - 1]) + [u[|u| - 1] % 0x100, u[|u| - 1] / 0x100]
  }

  /** The units that the first 2 * n bytes hold. */
  function Units(b: seq<byte>, n: nat): (u: seq<unit>)
    requires 2 * n <= |b|
    ensures |u| == n
  {
    if n == 0 then [] else Units(b, n - 1) + [Joined(b[2 * n - 2], b[2 * n - 1])]
  }

  lemma {:induction false} LittleReads(u: seq<unit>, n: nat)
    requires n <= |u|
    ensures Units(Little(u), n) == u[..n]
  {
    if n > 0 {
      LittleReads(u, n - 1);
      LittleAt(u, n - 1);
      assert u[..n] == u[..n - 1] + [u[n - 1]];
    }
  }

  lemma {:induction false} LittleAt(u: seq<unit>, i: nat)
    requires i < |u|
    ensures Little(u)[2 * i] == u[i] % 0x100 && Little(u)[2 * i + 1] == u[i] / 0x100
  {
    if i < |u| - 1 {
      LittleAt(u[..|u| - 1], i);
    }
  }

  /* ---------- writing ---------- */

  /** The shorter of the two encodings and its flag; UTF-16 if they are of the same length. */
  function Shorter(utf8: seq<byte>, utf16: seq<unit>): (byte, seq<byte>) {
    if |utf8| < 2 * |utf16| then (0, utf8) else (UTF_16, Little(utf16))
  }

  function Packed(z: Compression, flag: byte, data: seq<byte>): seq<byte>
    requires flag <= UTF_16
  {
    if |z.compress(data)| < |data| then [flag + COMPRESSED] + z.compress(data) else [flag] + data
  }

  function Encoded(z: Compression, s: seq<scalar>): seq<byte> {
    var (flag, data) := Shorter(Utf8(s), Utf16(s));
    Packed(z, flag, data)
  }

  method New(z: Compression, s: seq<scalar>) returns (encoded: seq<byte>)
    ensures encoded == Encoded(z, s)
  {
    var flag: byte := 0;
    var utf16: seq<byte>, units := [], Utf16(s);
    for i := 0 to |units|
      invariant utf16 == Little(units[..i])
    {
      assert units[..i + 1][..i] == units[..i];
      utf16 := utf16 + [units[i] % 0x100, units[i] / 0x100];
    }
    assert units[..|units|] == units;
    var data := Utf8(s);
    if |data| >= |utf16| {
      flag := flag + UTF_16;
      data := utf16;
    }
    var compressed := z.compress(data);
    if |compressed| < |data| {
      flag := flag + COMPRESSED;
      data := compressed;
    }
    encoded := [flag] + data;
  }

  /* ---------- reading ---------- */

  /** The text that uncompressed data hold. */
  function Meant(wide: bool, data: seq<byte>): Decoded {
    if wide then
      (match FromUtf16(Units(data, |data| / 2)) case Some(s) => Text(s) case None => Bad(BadUtf16))
    else
      (match FromUtf8(data) case Some(s) => Text(s) case None => Bad(BadUtf8))
  }

  function Read(z: Compression, encoded: seq<byte>): Decoded {
    if encoded == [] then Bad(NoFlag)
    else
      var wide, data := encoded[0] % 2 == UTF_16, encoded[1..];
      if encoded[0] / COMPRESSED % 2 == 1 then
        (match z.decompress(data) case Some(plain) => Meant(wide, plain) case None => Bad(BadCompression))
      else Meant(wide, data)
  }

  /** Reads a text. A last byte that is half a unit is passed over; without a flag the program stops. */
  method AsString(z: Compression, encoded: seq<byte>) returns (r: Decoded)
    ensures r == Read(z, encoded)
  {
    if encoded == [] {
      return Bad(NoFlag);
    }
    var data := encoded[1..];
    if encoded[0] / COMPRESSED % 2 == 1 {
      var unpacked := z.decompress(data);
      if unpacked.None? {
        return Bad(BadCompression);
      }
      data := unpacked.value;
    }
    if encoded[0] % 2 == UTF_16 {
      var units: seq<unit>, n := [], 0;
      while 2 * n + 2 <= |data|
        invariant 0 <= 2 * n <= |data| && units == Units(data, n)
      {
        n := n + 1;
        units := units + [Joined(data[2 * n - 2], data[2 * n - 1])];
      }
      var s := FromUtf16(units);
      r := if s.Some? then Text(s.value) else Bad(BadUtf16);
    } else {
      var s := FromUtf8(data);
      r := if s.Some? then Text(s.value) else Bad(BadUtf8);
    }
  }

  /* ---------- both ways ---------- */

  /** The shorter encoding means what both encodings mean. */
  lemma ShorterMeans(utf8: seq<byte>, utf16: seq<unit>, s: seq<scalar>)
    requires FromUtf8(utf8) == Some(s) && FromUtf16(utf16) == Some(s)
    ensures var (flag, data) := Shorter(utf8, utf16); Meant(flag == UTF_16, data) == Text(s)
    ensures |Shorter(utf8, utf16).1| <= |utf8| && |Shorter(utf8, utf16).1| <= 2 * |utf16|
  {
    LittleMeans(utf16);
  }

  lemma LittleMeans(u: seq<unit>)
    ensures Units(Little(u), |Little(u)| / 2) == u
  {
    LittleReads(u, |u|);
    assert u[..|u|] == u;
  }

  /** Packing keeps the meaning and never adds more than the flag. */
  lemma PackedMeans(z: Compression, flag: byte, data: seq<byte>)
    requires Inverts(z) && flag <= UTF_16
    ensures Read(z, Packed(z, flag, data)) == Meant(flag == UTF_16, data)
    ensures |Packed(z, flag, data)| <= 1 + |data|
  {
    var e := Packed(z, flag, data);
    if |z.compress(data)| < |data| {
      assert e[1..] == z.compress(data) && e[0] == flag + COMPRESSED;
    } else {
      assert e[1..] == data && e[0] == flag;
    }
  }

  /**
   Every text is read back as it was written, and takes at most one byte more than the shorter of its two encodings.
   */
  lemma TextRoundTrip(z: Compression, s: seq<scalar>)
    requires Inverts(z)
    ensures Read(z, Encoded(z, s)) == Text(s)
    ensures |Encoded(z, s)| <= 1 + |Utf8(s)| && |Encoded(z, s)| <= 1 + 2 * |Utf16(s)|
  {
    Utf8RoundTrip(s);
    Utf16RoundTrip(s);
    ShorterMeans(Utf8(s), Utf16(s), s);
    var (flag, data) := Shorter(Utf8(s), Utf16(s));
    PackedMeans(z, flag, data);
  }

  /**
   The first byte is 1 if UTF-16 is not longer than UTF-8, and 2 more if compression is shorter still. The rest is
   what these two bits say.
   */
  lemma EncodedExactly(z: Compression, s: seq<scalar>)
    ensures var wide := 2 * |Utf16(s)| <= |Utf8(s)|;
            var data := if wide then Little(Utf16(s)) else Utf8(s);
            var packed := |z.compress(data)| < |data|;
            && Encoded(z, s) != [] && Encoded(z, s)[0] == (if wide then 1 else 0) + (if packed then 2 else 0)
            && Encoded(z, s)[1..] == (if packed then z.compress(data) else data)
            && |Encoded(z, s)| <= 1 + |data| && |Encoded(z, s)| <= 1 + |z.compress(data)|
  {
    var (flag, data) := Shorter(Utf8(s), Utf16(s));
    assert ([flag] + data)[1..] == data;
    assert ([flag + COMPRESSED] + z.compress(data))[1..] == z.compress(data);
  }

  /** Different texts are stored differently. */
  lemma EncodingIsInjective(z: Compression, s: seq<scalar>, t: seq<scalar>)
    requires Inverts(z) && Encoded(z, s) == Encoded(z, t)
    ensures s == t
  {
    TextRoundTrip(z, s);
    TextRoundTrip(z, t);
  }

  /** An ASCII text is stored as UTF-8, one of characters that need three bytes as UTF-16. */
  lemma {:induction false} ChoiceByScript(s: seq<scalar>)
    requires s != []
    ensures (forall i :: 0 <= i < |s| ==> s[i] < 0x80) ==> Shorter(Utf8(s), Utf16(s)) == (0, s)
    ensures (forall i :: 0 <= i < |s| ==> 0x800 <= s[i] < 0x1_0000) ==>
              Shorter(Utf8(s), Utf16(s)) == (UTF_16, Little(s))
  {
    if forall i :: 0 <= i < |s| ==> s[i] < 0x80 {
      Narrow(s);
    }
    if forall i :: 0 <= i < |s| ==> 0x800 <= s[i] < 0x1_0000 {
      Wide(s);
    }
  }

  lemma {:induction false} Narrow(s: seq<scalar>)
    requires forall i :: 0 <= i < |s| ==> s[i] < 0x80
    ensures Utf8(s) == s && Utf16(s) == s
  {
    if s != [] {
      Narrow(s[1..]);
    }
  }

  lemma {:induction false} Wide(s: seq<scalar>)
    requires forall i :: 0 <= i < |s| ==> 0x800 <= s[i] < 0x1_0000
    ensures Utf16(s) == s && |Utf8(s)| == 3 * |s|
  {
    if s != [] {
      Wide(s[1..]);
    }
  }
}
