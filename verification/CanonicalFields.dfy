/**
  Bytes of the canonical admin encoding: big-endian integers and UTF-8 text, each with
  the reader that recovers it from the front of a byte string.
 */
module CanonicalFields {
  import opened Common

  // ---- big-endian integers ----

  function Limit(width: nat): nat {
    if width == 0 then 1 else 256 * Limit(width - 1)
  }

  function BigEndian(n: nat, width: nat): (r: seq<Byte>)
    ensures |r| == width
  {
    if width == 0 then [] else BigEndian(n / 256, width - 1) + [n % 256]
  }

  function FromBigEndian(bytes: seq<Byte>): nat {
    if bytes == [] then 0 else 256 * FromBigEndian(bytes[..|bytes| - 1]) + bytes[|bytes| - 1]
  }

  /** `struct.pack` raises outside the range. */
  function Pack(n: int, width: nat): Option<seq<Byte>> {
    if 0 <= n < Limit(width) then Some(BigEndian(n, width)) else None
  }

  lemma {:induction false} BigEndianInverse(n: nat, width: nat)
    requires n < Limit(width)
    ensures FromBigEndian(BigEndian(n, width)) == n
  {
    if width > 0 {
      BigEndianInverse(n / 256, width - 1);
      var front := BigEndian(n / 256, width - 1);
      var all := BigEndian(n, width);
      assert all[..|all| - 1] == front;
    }
  }

  lemma Widths()
    ensures Limit(2) == 0x1_0000 && Limit(4) == 0x1_0000_0000 && Limit(8) == 0x1_0000_0000_0000_0000
  {
    assert Limit(1) == 256;
    assert Limit(3) == 256 * Limit(2);
    assert Limit(5) == 256 * Limit(4);
    assert Limit(6) == 256 * Limit(5);
    assert Limit(7) == 256 * Limit(6);
  }

  datatype Read<+T> = Got(value: T, rest: seq<Byte>) | Bad

  function ReadNumber(width: nat, bytes: seq<Byte>): Read<nat> {
    if |bytes| < width then Bad else Got(FromBigEndian(bytes[..width]), bytes[width..])
  }

  lemma SplitAt<T>(a: seq<T>, b: seq<T>)
    ensures (a + b)[..|a|] == a && (a + b)[|a|..] == b
  {
  }

  lemma NumberReadBack(n: int, width: nat, rest: seq<Byte>)
    requires Pack(n, width).Some?
    ensures ReadNumber(width, Pack(n, width).value + rest) == Got(n, rest)
  {
    BigEndianInverse(n, width);
    SplitAt(BigEndian(n, width), rest);
  }

  // ---- UTF-8 ----

  /** Code points that have an encoding: surrogates raise. */
  predicate Scalar(c: nat) {
    c < 0xD800 || 0xE000 <= c < 0x11_0000
  }

  function Utf8(c: nat): seq<Byte>
    requires Scalar(c)
  {
    if c < 0x80 then [c]
    else if c < 0x800 then [0xC0 + c / 64, 0x80 + c % 64]
    else if c < 0x1_0000 then [0xE0 + c / 4096, 0x80 + c / 64 % 64, 0x80 + c % 64]
    else [0xF0 + c / 262144, 0x80 + c / 4096 % 64, 0x80 + c / 64 % 64, 0x80 + c % 64]
  }

  function Utf8All(s: seq<nat>): seq<Byte>
    requires forall i :: 0 <= i < |s| ==> Scalar(s[i])
  {
    if s == [] then [] else Utf8(s[0]) + Utf8All(s[1..])
  }

  function Low6(b: Byte): nat {
    b % 64
  }

  function ReadScalar(bytes: seq<Byte>): (r: Read<nat>)
    ensures r.Got? ==> |r.rest| < |bytes|
  {
    if bytes == [] then Bad
    else if bytes[0] < 0x80 then Got(bytes[0], bytes[1..])
    else if bytes[0] < 0xE0 then
      if |bytes| < 2 || bytes[0] < 0xC0 then Bad
      else Got((bytes[0] - 0xC0) * 64 + Low6(bytes[1]), bytes[2..])
    else if bytes[0] < 0xF0 then
      if |bytes| < 3 then Bad
      else Got((bytes[0] - 0xE0) * 4096 + Low6(bytes[1]) * 64 + Low6(bytes[2]), bytes[3..])
    else if |bytes| < 4 then Bad
    else Got((bytes[0] - 0xF0) * 262144 + Low6(bytes[1]) * 4096 + Low6(bytes[2]) * 64 + Low6(bytes[3]), bytes[4..])
  }

  function ReadScalars(bytes: seq<Byte>): Option<seq<nat>>
    decreases |bytes|
  {
    if bytes == [] then Some([])
    else
      var first := ReadScalar(bytes);
      if first.Bad? then None
      else
        var more := ReadScalars(first.rest);
        if more.None? then None else Some([first.value] + more.value)
  }

  lemma Digits(c: nat)
    ensures c == c / 64 * 64 + c % 64
    ensures c == c / 4096 * 4096 + c / 64 % 64 * 64 + c % 64
    ensures c == c / 262144 * 262144 + c / 4096 % 64 * 4096 + c / 64 % 64 * 64 + c % 64
    ensures (0x80 + c % 64) % 64 == c % 64
  {
  }

  lemma ThreeBytes(c: nat)
    requires 0x800 <= c < 0x1_0000
    ensures (0xE0 + c / 4096) - 0xE0 == c / 4096 && 0xE0 <= 0xE0 + c / 4096 < 0xF0
    ensures (0xE0 + c / 4096 - 0xE0) * 4096 + (0x80 + c / 64 % 64) % 64 * 64 + (0x80 + c % 64) % 64 == c
  {
    Digits(c);
    Digits(c / 64);
  }

  lemma FourBytes(c: nat)
    requires 0x1_0000 <= c < 0x11_0000
    ensures (0xF0 + c / 262144 - 0xF0) * 262144 + (0x80 + c / 4096 % 64) % 64 * 4096
            + (0x80 + c / 64 % 64) % 64 * 64 + (0x80 + c % 64) % 64 == c
  {
    Digits(c);
    Digits(c / 64);
    Digits(c / 4096);
  }

  lemma ScalarReadBack(c: nat, rest: seq<Byte>)
    requires Scalar(c)
    ensures ReadScalar(Utf8(c) + rest) == Got(c, rest)
  {
    SplitAt(Utf8(c), rest);
    var ts := Utf8(c) + rest;
    assert forall i :: 0 <= i < |Utf8(c)| ==> ts[i] == Utf8(c)[i];
    if c < 0x800 {
      Digits(c);
    } else if c < 0x1_0000 {
      ThreeBytes(c);
    } else {
      FourBytes(c);
    }
  }

  lemma {:induction false} ScalarsReadBack(s: seq<nat>)
    requires forall i :: 0 <= i < |s| ==> Scalar(s[i])
    ensures ReadScalars(Utf8All(s)) == Some(s)
  {
    if s != [] {
      ScalarReadBack(s[0], Utf8All(s[1..]));
      ScalarsReadBack(s[1..]);
      assert [s[0]] + s[1..] == s;
      assert Utf8All(s) != [] by { assert Utf8(s[0]) != []; }
    }
  }
}
