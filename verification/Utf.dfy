/** Unicode scalar values, UTF-8 (section 3 of RFC 3629) and UTF-16 (section 2 of
    RFC 2781), as the string converters use them. */
module Utf {
  import opened Bytes

  type Scalar = x: int | 0 <= x < 0xD800 || 0xE000 <= x < 0x11_0000
  type CodeUnit = x: int | 0 <= x < 0x1_0000

  function EncodeScalar(c: Scalar): (r: seq<byte>)
    ensures 1 <= |r| <= 4
  {
    if c < 0x80 then [c]
    else if c < 0x800 then [0xC0 + c / 64, 0x80 + c % 64]
    else if c < 0x1_0000 then [0xE0 + c / 4096, 0x80 + c / 64 % 64, 0x80 + c % 64]
    else [0xF0 + c / 262144, 0x80 + c / 4096 % 64, 0x80 + c / 64 % 64, 0x80 + c % 64]
  }

  function Utf8(s: seq<Scalar>): seq<byte> {
    if s == [] then [] else EncodeScalar(s[0]) + Utf8(s[1..])
  }

  predicate Continues(b: byte) { 0x80 <= b < 0xC0 }

  /** The six low bits of a continuation byte. */
  function Payload(b: byte): (r: int)
    requires Continues(b)
    ensures 0 <= r < 64
  {
    b - 0x80
  }

  /** The scalar at the front of `b` and its width; `None` if the bytes are not UTF-8. */
  function DecodeScalar(b: seq<byte>): (r: Option<(Scalar, nat)>)
    ensures r.Some? ==> 1 <= r.value.1 <= |b|
  {
    if b == [] then None
    else
      var lead: int := b[0];
      if lead < 0x80 then Some((lead, 1))
      else if 0xC2 <= lead < 0xE0 && |b| >= 2 && Continues(b[1]) then
        Some(((lead - 0xC0) * 64 + Payload(b[1]), 2))
      else if 0xE0 <= lead < 0xF0 && |b| >= 3 && Continues(b[1]) && Continues(b[2]) then
        var c := (lead - 0xE0) * 4096 + Payload(b[1]) * 64 + Payload(b[2]);
        if c < 0x800 || 0xD800 <= c < 0xE000 then None else Some((c, 3))
      else if 0xF0 <= lead < 0xF5 && |b| >= 4 && Continues(b[1]) && Continues(b[2]) && Continues(b[3]) then
        var c := (lead - 0xF0) * 262144 + Payload(b[1]) * 4096 + Payload(b[2]) * 64 + Payload(b[3]);
        if c < 0x1_0000 || c >= 0x11_0000 then None else Some((c, 4))
      else None
  }

  function FromUtf8(b: seq<byte>): Option<seq<Scalar>>
    decreases |b|
  {
    if b == [] then Some([])
    else match DecodeScalar(b)
      case None => None
      case Some((c, n)) =>
        match FromUtf8(b[n..])
        case None => None
        case Some(s) => Some([c] + s)
  }

  /** How many bytes an ill-formed sequence at the front of `b` loses at once: its
      longest initial part that could still have begun a scalar, at least one byte. */
  function MaximalSubpart(b: seq<byte>): (n: nat)
    requires b != []
    ensures 1 <= n <= |b|
  {
    if |b| < 2 || !SecondAllowed(b[0], b[1]) then 1
    else if b[0] < 0xF0 || |b| < 3 || !Continues(b[2]) then 2
    else 3
  }

  predicate SecondAllowed(lead: byte, second: byte) {
    if lead == 0xE0 then 0xA0 <= second < 0xC0
    else if lead == 0xED then 0x80 <= second < 0xA0
    else if lead == 0xF0 then 0x90 <= second < 0xC0
    else if lead == 0xF4 then 0x80 <= second < 0x90
    else 0xE0 < lead < 0xF4 && Continues(second)
  }

  /** The decoders used on the reading side never fail: each ill-formed part becomes U+FFFD. */
  function Lossy(b: seq<byte>): seq<Scalar>
    decreases |b|
  {
    if b == [] then []
    else match DecodeScalar(b)
      case Some((c, n)) => [c] + Lossy(b[n..])
      case None => [0xFFFD] + Lossy(b[MaximalSubpart(b)..])
  }

  lemma {:induction false} LossyOnUtf8(s: seq<Scalar>)
    ensures Lossy(Utf8(s)) == s
  {
    if s != [] {
      var first, rest := EncodeScalar(s[0]), Utf8(s[1..]);
      DecodeEncoded(s[0], rest);
      assert (first + rest)[|first|..] == rest;
      LossyOnUtf8(s[1..]);
      assert [s[0]] + s[1..] == s;
    }
  }

  lemma DecodeThree(c: Scalar, b: seq<byte>)
    requires 0x800 <= c < 0x1_0000 && |b| >= 3
    requires b[0] == 0xE0 + c / 4096 && b[1] == 0x80 + c / 64 % 64 && b[2] == 0x80 + c % 64
    ensures DecodeScalar(b) == Some((c, 3))
  {
    assert c == c / 4096 * 4096 + c / 64 % 64 * 64 + c % 64;
  }

  lemma FourDigits(c: nat)
    ensures c == c / 262144 * 262144 + c / 4096 % 64 * 4096 + c / 64 % 64 * 64 + c % 64
  {
    assert c == c / 64 * 64 + c % 64;
    assert c / 64 == c / 4096 * 64 + c / 64 % 64;
    assert c / 4096 == c / 262144 * 64 + c / 4096 % 64;
  }

  lemma DecodeFour(c: Scalar, b: seq<byte>)
    requires 0x1_0000 <= c && |b| >= 4
    requires b[0] == 0xF0 + c / 262144 && b[1] == 0x80 + c / 4096 % 64
    requires b[2] == 0x80 + c / 64 % 64 && b[3] == 0x80 + c % 64
    ensures DecodeScalar(b) == Some((c, 4))
  {
    FourDigits(c);
  }

  lemma DecodeEncoded(c: Scalar, rest: seq<byte>)
    ensures DecodeScalar(EncodeScalar(c) + rest) == Some((c, |EncodeScalar(c)|))
  {
    var b := EncodeScalar(c) + rest;
    if 0x800 <= c < 0x1_0000 {
      DecodeThree(c, b);
    } else if 0x1_0000 <= c {
      DecodeFour(c, b);
    }
  }

  lemma {:induction false} Utf8RoundTrip(s: seq<Scalar>)
    ensures FromUtf8(Utf8(s)) == Some(s)
  {
    if s != [] {
      var first, rest := EncodeScalar(s[0]), Utf8(s[1..]);
      DecodeEncoded(s[0], rest);
      assert (first + rest)[|first|..] == rest;
      Utf8RoundTrip(s[1..]);
      assert [s[0]] + s[1..] == s;
    }
  }

  lemma TwoDigits(d: nat, e: nat, c: nat)
    requires e < 64 && c == d * 64 + e
    ensures c / 64 == d && c % 64 == e
  {
  }

  lemma ThreeDigits(d: nat, e: nat, f: nat, c: nat)
    requires e < 64 && f < 64 && c == d * 4096 + e * 64 + f
    ensures c / 4096 == d && c / 64 % 64 == e && c % 64 == f
  {
    TwoDigits(d * 64 + e, f, c);
    TwoDigits(d, e, d * 64 + e);
    assert c / 4096 == c / 64 / 64;
  }

  lemma FourDigitsOf(d: nat, e: nat, f: nat, g: nat, c: nat)
    requires e < 64 && f < 64 && g < 64 && c == d * 262144 + e * 4096 + f * 64 + g
    ensures c / 262144 == d && c / 4096 % 64 == e && c / 64 % 64 == f && c % 64 == g
  {
    ThreeDigits(d * 64 + e, f, g, c);
    TwoDigits(d, e, d * 64 + e);
    assert c / 262144 == c / 4096 / 64;
  }

  /** The bytes that are read as a scalar are the scalar's own: no longer form is accepted, and no
      surrogate. */
  lemma DecodeIsStrict(b: seq<byte>, c: Scalar, n: nat)
    requires DecodeScalar(b) == Some((c, n))
    ensures n <= |b| && b[..n] == EncodeScalar(c)
  {
    var lead: int := b[0];
    if lead < 0x80 {
      assert b[..1] == [lead];
    } else if lead < 0xE0 {
      TwoDigits(lead - 0xC0, Payload(b[1]), c);
    } else if lead < 0xF0 {
      ThreeDigits(lead - 0xE0, Payload(b[1]), Payload(b[2]), c);
    } else {
      FourDigitsOf(lead - 0xF0, Payload(b[1]), Payload(b[2]), Payload(b[3]), c);
    }
  }

  /** Strict decoding accepts exactly the encodings. */
  lemma {:induction false} FromUtf8Exactly(b: seq<byte>, s: seq<Scalar>)
    ensures FromUtf8(b) == Some(s) <==> b == Utf8(s)
    decreases |b|
  {
    if b == Utf8(s) {
      Utf8RoundTrip(s);
    }
    if FromUtf8(b) == Some(s) && b != [] {
      var (c, n) := DecodeScalar(b).value;
      var rest := FromUtf8(b[n..]).value;
      DecodeIsStrict(b, c, n);
      FromUtf8Exactly(b[n..], rest);
      assert s == [c] + rest && s[1..] == rest;
      assert b == b[..n] + b[n..];
    }
  }

  predicate High(u: CodeUnit) { 0xD800 <= u < 0xDC00 }
  predicate Low(u: CodeUnit) { 0xDC00 <= u < 0xE000 }

  /** The scalar beyond the basic plane that a surrogate pair stands for. */
  function Joined(high: CodeUnit, low: CodeUnit): (c: Scalar)
    requires High(high) && Low(low)
    ensures c >= 0x1_0000
  {
    var h: int, l: int := high, low;
    0x1_0000 + (h - 0xD800) * 1024 + (l - 0xDC00)
  }

  /** The scalars of a UTF-16 string; `None` on a lone surrogate. */
  function FromUtf16(u: seq<CodeUnit>): Option<seq<Scalar>> {
    if u == [] then Some([])
    else if !High(u[0]) && !Low(u[0]) then
      match FromUtf16(u[1..])
      case None => None
      case Some(s) => Some([u[0]] + s)
    else if High(u[0]) && |u| >= 2 && Low(u[1]) then
      match FromUtf16(u[2..])
      case None => None
      case Some(s) => Some([Joined(u[0], u[1])] + s)
    else None
  }

  function ToUtf16(s: seq<Scalar>): seq<CodeUnit> {
    if s == [] then []
    else if s[0] < 0x1_0000 then [s[0]] + ToUtf16(s[1..])
    else
      var x: int := (s[0] as int) - 0x1_0000;
      [0xD800 + x / 1024, 0xDC00 + x % 1024] + ToUtf16(s[1..])
  }

  /** A well-formed UTF-16 string is determined by its scalars. */
  lemma {:induction false} Utf16RoundTrip(u: seq<CodeUnit>)
    requires FromUtf16(u).Some?
    ensures ToUtf16(FromUtf16(u).value) == u
  {
    if u != [] {
      var s := FromUtf16(u).value;
      if !High(u[0]) && !Low(u[0]) {
        Utf16RoundTrip(u[1..]);
        assert s[1..] == FromUtf16(u[1..]).value;
        assert u == [u[0]] + u[1..];
      } else {
        Utf16RoundTrip(u[2..]);
        assert s[1..] == FromUtf16(u[2..]).value;
        assert u == [u[0], u[1]] + u[2..];
      }
    }
  }

  lemma {:induction false} Utf16Inverse(s: seq<Scalar>)
    ensures FromUtf16(ToUtf16(s)) == Some(s)
  {
    if s != [] {
      Utf16Inverse(s[1..]);
      var u := ToUtf16(s);
      assert s == [s[0]] + s[1..];
      if s[0] < 0x1_0000 {
        assert u[1..] == ToUtf16(s[1..]);
      } else {
        assert u[2..] == ToUtf16(s[1..]);
      }
    }
  }

  /** UTF-8 never needs more than three bytes per UTF-16 code unit. */
  lemma {:induction false} ThreeBytesPerUnit(u: seq<CodeUnit>)
    requires FromUtf16(u).Some?
    ensures |Utf8(FromUtf16(u).value)| <= 3 * |u|
  {
    if u != [] {
      var s := FromUtf16(u).value;
      if !High(u[0]) && !Low(u[0]) {
        ThreeBytesPerUnit(u[1..]);
        assert s[1..] == FromUtf16(u[1..]).value;
      } else {
        ThreeBytesPerUnit(u[2..]);
        assert s[1..] == FromUtf16(u[2..]).value;
      }
    }
  }

  /** Three bytes per code *point* would not be enough, and three per unit can be needed. */
  lemma ThreeBytesPerPointIsNotEnough()
    ensures |Utf8([0x1_0000])| == 4 && |ToUtf16([0x1_0000])| == 2
    ensures |Utf8([0xFFFF])| == 3 && |ToUtf16([0xFFFF])| == 1
  {
    assert Utf8([0x1_0000][1..]) == [] && Utf8([0xFFFF][1..]) == [];
    assert ToUtf16([0x1_0000][1..]) == [] && ToUtf16([0xFFFF][1..]) == [];
  }
}
