/**
 UTF-8 (section 3 of RFC 3629) and UTF-16 (section 2 of RFC 2781), with strict decoders.
 */
module Unicode {
  import opened Wrappers

  type byte = x: int | 0 <= x < 0x100
  type unit = x: int | 0 <= x < 0x1_0000

  predicate IsScalar(x: int) {
    0 <= x < 0xD800 || 0xE000 <= x < 0x11_0000
  }

  type scalar = x: int | 0 <= x < 0xD800 || 0xE000 <= x < 0x11_0000

  function Byte(x: int): byte
    requires 0 <= x < 0x100
  {
    x
  }

  function Unit(x: int): unit
    requires 0 <= x < 0x1_0000
  {
    x
  }

  /* ---------- UTF-8 ---------- */

  /** The lowest six bits of a number, as a byte that continues a character. */
  function Tail(x: int): (b: byte)
    ensures Continues(b)
  {
    0x80 + x % 0x40
  }

  predicate Continues(b: byte) {
    0x80 <= b < 0xC0
  }

  function High(x: int): int {
    x / 0x40
  }

  function Utf8One(c: scalar): (b: seq<byte>)
    ensures 1 <= |b| <= 4
  {
    if c < 0x80 then [Byte(c)]
    else if c < 0x800 then [Byte(0xC0 + High(c)), Tail(c)]
    else if c < 0x1_0000 then [Byte(0xE0 + High(High(c))), Tail(High(c)), Tail(c)]
    else [Byte(0xF0 + High(High(High(c)))), Tail(High(High(c))), Tail(High(c)), Tail(c)]
  }

  function Utf8(s: seq<scalar>): seq<byte> {
    if s == [] then [] else Utf8One(s[0]) + Utf8(s[1..])
  }

  /** How many bytes the first byte announces; 0 for a byte that cannot be first. */
  function Announced(b: byte): (n: nat)
    ensures n <= 4
  {
    if b < 0x80 then 1
    else if b < 0xC0 then 0
    else if b < 0xE0 then 2
    else if b < 0xF0 then 3
    else if b < 0xF8 then 4
    else 0
  }

  /** Six more bits. */
  function Join(high: int, b: int): int {
    high * 0x40 + (b - 0x80)
  }

  /** The character c written in n elements, if it is one and could not be written shorter. */
  function Checked(c: int, least: int, n: nat): (r: Option<(scalar, nat)>)
    ensures r.Some? ==> r.value.0 == c && r.value.1 == n
  {
    if c < least || !IsScalar(c) then None else Some((c, n))
  }

  /** The first character and the number of its bytes. */
  function FirstOfUtf8(b: seq<byte>): (r: Option<(scalar, nat)>)
    requires b != []
    ensures r.Some? ==> 1 <= r.value.1 <= |b|
  {
    var n, lead: int := Announced(b[0]), b[0];
    if n == 0 || n > |b| then None
    else if n == 1 then Checked(lead, 0, 1)
    else if !Continues(b[1]) then None
    else if n == 2 then Checked(Join(lead - 0xC0, b[1]), 0x80, 2)
    else if !Continues(b[2]) then None
    else if n == 3 then Checked(Join(Join(lead - 0xE0, b[1]), b[2]), 0x800, 3)
    else if !Continues(b[3]) then None
    else Checked(Join(Join(Join(lead - 0xF0, b[1]), b[2]), b[3]), 0x1_0000, 4)
  }

  function FromUtf8(b: seq<byte>): Option<seq<scalar>>
    decreases |b|
  {
    if b == [] then Some([])
    else
      var first := FirstOfUtf8(b);
      if first.None? then None
      else
        var rest := FromUtf8(b[first.value.1..]);
        if rest.None? then None else Some([first.value.0] + rest.value)
  }

  lemma JoinUndoes(x: int)
    ensures Join(High(x), Tail(x)) == x
  {
  }

  lemma UndoJoin(high: int, b: byte)
    requires Continues(b)
    ensures High(Join(high, b)) == high && Tail(Join(high, b)) == b
  {
  }

  lemma FirstReads(c: scalar, rest: seq<byte>)
    ensures FirstOfUtf8(Utf8One(c) + rest) == Some((c, |Utf8One(c)|))
  {
    var one := Utf8One(c);
    var b := one + rest;
    assert forall i :: 0 <= i < |one| ==> b[i] == one[i];
    JoinUndoes(c);
    JoinUndoes(High(c));
    JoinUndoes(High(High(c)));
  }

  lemma FirstWrites(b: seq<byte>)
    requires b != [] && FirstOfUtf8(b).Some?
    ensures Utf8One(FirstOfUtf8(b).value.0) == b[..FirstOfUtf8(b).value.1]
  {
    var n, lead: int := FirstOfUtf8(b).value.1, b[0];
    if n == 2 {
      UndoJoin(lead - 0xC0, b[1]);
    } else if n == 3 {
      UndoJoin(lead - 0xE0, b[1]);
      UndoJoin(Join(lead - 0xE0, b[1]), b[2]);
    } else if n == 4 {
      UndoJoin(lead - 0xF0, b[1]);
      UndoJoin(Join(lead - 0xF0, b[1]), b[2]);
      UndoJoin(Join(Join(lead - 0xF0, b[1]), b[2]), b[3]);
    }
  }

  lemma {:induction false} Utf8RoundTrip(s: seq<scalar>)
    ensures FromUtf8(Utf8(s)) == Some(s)
  {
    if s != [] {
      var one, rest := Utf8One(s[0]), Utf8(s[1..]);
      FirstReads(s[0], rest);
      Utf8RoundTrip(s[1..]);
      assert (one + rest)[|one|..] == rest;
      assert s == [s[0]] + s[1..];
    }
  }

  lemma Utf8Prepends(c: scalar, s: seq<scalar>)
    ensures Utf8([c] + s) == Utf8One(c) + Utf8(s)
  {
  }

  /** Only the encoding of a string decodes to it. */
  lemma {:induction false} Utf8IsStrict(b: seq<byte>)
    requires FromUtf8(b).Some?
    ensures Utf8(FromUtf8(b).value) == b
    decreases |b|
  {
    if b != [] {
      var (c, n) := FirstOfUtf8(b).value;
      FirstWrites(b);
      Utf8IsStrict(b[n..]);
      Utf8Prepends(c, FromUtf8(b[n..]).value);
      assert b == b[..n] + b[n..];
    }
  }

  /** Bytes decode to a string if and only if they are its encoding. */
  lemma Utf8Exact(b: seq<byte>, s: seq<scalar>)
    ensures FromUtf8(b) == Some(s) <==> b == Utf8(s)
  {
    Utf8RoundTrip(s);
    if FromUtf8(b).Some? {
      Utf8IsStrict(b);
    }
  }

  /* ---------- UTF-16 ---------- */

  function Utf16One(c: scalar): (u: seq<unit>)
    ensures 1 <= |u| <= 2
  {
    if c < 0x1_0000 then [Unit(c)]
    else [Unit(0xD800 + (c - 0x1_0000) / 0x400), Unit(0xDC00 + (c - 0x1_0000) % 0x400)]
  }

  function Utf16(s: seq<scalar>): seq<unit> {
    if s == [] then [] else Utf16One(s[0]) + Utf16(s[1..])
  }

  function Paired(high: int, low: int): int {
    0x1_0000 + (high - 0xD800) * 0x400 + (low - 0xDC00)
  }

  function FirstOfUtf16(u: seq<unit>): (r: Option<(scalar, nat)>)
    requires u != []
    ensures r.Some? ==> 1 <= r.value.1 <= |u|
  {
    if IsScalar(u[0]) then Checked(u[0], 0, 1)
    else if u[0] < 0xDC00 && |u| > 1 && 0xDC00 <= u[1] < 0xE000 then Checked(Paired(u[0], u[1]), 0x1_0000, 2)
    else None
  }

  function FromUtf16(u: seq<unit>): Option<seq<scalar>>
    decreases |u|
  {
    if u == [] then Some([])
    else
      var first := FirstOfUtf16(u);
      if first.None? then None
      else
        var rest := FromUtf16(u[first.value.1..]);
        if rest.None? then None else Some([first.value.0] + rest.value)
  }

  lemma FirstPairReads(c: scalar, rest: seq<unit>)
    ensures FirstOfUtf16(Utf16One(c) + rest) == Some((c, |Utf16One(c)|))
  {
  }

  lemma FirstPairWrites(u: seq<unit>)
    requires u != [] && FirstOfUtf16(u).Some?
    ensures Utf16One(FirstOfUtf16(u).value.0) == u[..FirstOfUtf16(u).value.1]
  {
  }

  lemma {:induction false} Utf16RoundTrip(s: seq<scalar>)
    ensures FromUtf16(Utf16(s)) == Some(s)
  {
    if s != [] {
      var one, rest := Utf16One(s[0]), Utf16(s[1..]);
      FirstPairReads(s[0], rest);
      Utf16RoundTrip(s[1..]);
      assert (one + rest)[|one|..] == rest;
      assert s == [s[0]] + s[1..];
    }
  }

  /** Only the encoding of a string decodes to it. */
  lemma {:induction false} Utf16IsStrict(u: seq<unit>)
    requires FromUtf16(u).Some?
    ensures Utf16(FromUtf16(u).value) == u
    decreases |u|
  {
    if u != [] {
      var n := FirstOfUtf16(u).value.1;
      FirstPairWrites(u);
      Utf16IsStrict(u[n..]);
      var s := FromUtf16(u).value;
      assert s[1..] == FromUtf16(u[n..]).value;
      assert u == u[..n] + u[n..];
    }
  }

  /** Units decode to a string if and only if they are its encoding. */
  lemma Utf16Exact(u: seq<unit>, s: seq<scalar>)
    ensures FromUtf16(u) == Some(s) <==> u == Utf16(s)
  {
    Utf16RoundTrip(s);
    if FromUtf16(u).Some? {
      Utf16IsStrict(u);
    }
  }

  /* ---------- the examples of the standards ---------- */

  lemma MixedText()
    ensures Utf8([0x41, 0x2262, 0x391, 0x2E]) == [0x41, 0xE2, 0x89, 0xA2, 0xCE, 0x91, 0x2E]
  {
    var a: seq<scalar> := [0x41, 0x2262, 0x391, 0x2E];
    assert a[1..] == [0x2262, 0x391, 0x2E] && a[1..][1..] == [0x391, 0x2E] && a[1..][1..][1..] == [0x2E];
    assert Utf8One(0x2262) == [0xE2, 0x89, 0xA2] && Utf8One(0x391) == [0xCE, 0x91];
    assert Utf8([0x2E]) == [0x2E] && Utf8([0x391, 0x2E]) == [0xCE, 0x91, 0x2E];
  }

  lemma KoreanText()
    ensures Utf8([0xD55C, 0xAD6D, 0xC5B4]) == [0xED, 0x95, 0x9C, 0xEA, 0xB5, 0xAD, 0xEC, 0x96, 0xB4]
  {
    var b: seq<scalar> := [0xD55C, 0xAD6D, 0xC5B4];
    assert b[1..] == [0xAD6D, 0xC5B4] && b[1..][1..] == [0xC5B4];
    assert Utf8([0xC5B4]) == [0xEC, 0x96, 0xB4];
  }

  /** Section 7 of RFC 3629. */
  lemma Utf8Examples()
    ensures Utf8([0x41, 0x2262, 0x391, 0x2E]) == [0x41, 0xE2, 0x89, 0xA2, 0xCE, 0x91, 0x2E]
    ensures Utf8([0xD55C, 0xAD6D, 0xC5B4]) == [0xED, 0x95, 0x9C, 0xEA, 0xB5, 0xAD, 0xEC, 0x96, 0xB4]
    ensures Utf8([0x233B4]) == [0xF0, 0xA3, 0x8E, 0xB4]
  {
    MixedText();
    KoreanText();
    assert Utf8([0x233B4]) == Utf8One(0x233B4);
  }

  /** Section 5 of RFC 2781: the character 0x12345. */
  lemma Utf16Example()
    ensures Utf16([0x12345]) == [0xD808, 0xDF45]
  {
  }
}
