/**
 Base64url as the frontends decode it: `atob` behind three ways of normalising and
 padding, and once with neither.
 */
module Base64Url {
  import opened Wrappers

  type byte = x: int | 0 <= x < 256
  type sextet = x: int | 0 <= x < 64

  // ----- bytes and sextets -----

  /** Section 4 of RFC 4648 without padding: three bytes make four sextets. */
  function Sextets(bytes: seq<byte>): seq<sextet> {
    if bytes == [] then []
    else if |bytes| == 1 then [bytes[0] / 4, bytes[0] % 4 * 16]
    else if |bytes| == 2 then [bytes[0] / 4, bytes[0] % 4 * 16 + bytes[1] / 16, bytes[1] % 16 * 4]
    else [bytes[0] / 4, bytes[0] % 4 * 16 + bytes[1] / 16, bytes[1] % 16 * 4 + bytes[2] / 64, bytes[2] % 64]
         + Sextets(bytes[3..])
  }

  function FirstByte(a: int, b: int): int { a * 4 + b / 16 }

  function SecondByte(b: int, c: int): int { b % 16 * 16 + c / 4 }

  function ThirdByte(c: int, d: int): int { c % 4 * 64 + d }

  /** The bytes of whole octets; spare bits of the last sextet are dropped. */
  function Bytes(s: seq<sextet>): seq<byte> {
    if |s| < 2 then []
    else if |s| == 2 then [FirstByte(s[0], s[1])]
    else if |s| == 3 then [FirstByte(s[0], s[1]), SecondByte(s[1], s[2])]
    else [FirstByte(s[0], s[1]), SecondByte(s[1], s[2]), ThirdByte(s[2], s[3])] + Bytes(s[4..])
  }

  lemma {:induction false} ThreeBytes(x: byte, y: byte, z: byte)
    ensures FirstByte(x / 4, x % 4 * 16 + y / 16) == x
    ensures SecondByte(x % 4 * 16 + y / 16, y % 16 * 4 + z / 64) == y
    ensures ThirdByte(y % 16 * 4 + z / 64, z % 64) == z
  {
  }

  lemma {:induction false} BytesOfFour(a: sextet, b: sextet, c: sextet, d: sextet, rest: seq<sextet>)
    requires FirstByte(a, b) < 256 && SecondByte(b, c) < 256 && ThirdByte(c, d) < 256
    ensures Bytes([a, b, c, d] + rest) == [FirstByte(a, b), SecondByte(b, c), ThirdByte(c, d)] + Bytes(rest)
  {
    assert ([a, b, c, d] + rest)[4..] == rest;
  }

  lemma {:induction false} SextetsOfTriple(x: byte, y: byte, z: byte, rest: seq<byte>)
    ensures Sextets([x, y, z] + rest) == [x / 4, x % 4 * 16 + y / 16, y % 16 * 4 + z / 64, z % 64] + Sextets(rest)
  {
    assert ([x, y, z] + rest)[3..] == rest;
  }

  lemma {:induction false} SextetsNeverStray(bytes: seq<byte>)
    ensures |Sextets(bytes)| % 4 != 1
    decreases |bytes|
  {
    if |bytes| >= 3 {
      SextetsNeverStray(bytes[3..]);
      SextetsOfTriple(bytes[0], bytes[1], bytes[2], bytes[3..]);
      assert bytes == [bytes[0], bytes[1], bytes[2]] + bytes[3..];
    }
  }

  lemma {:induction false} BytesOfTriple(x: byte, y: byte, z: byte, rest: seq<byte>)
    requires Bytes(Sextets(rest)) == rest
    ensures Bytes(Sextets([x, y, z] + rest)) == [x, y, z] + rest
  {
    SextetsOfTriple(x, y, z, rest);
    ThreeBytes(x, y, z);
    BytesOfFour(x / 4, x % 4 * 16 + y / 16, y % 16 * 4 + z / 64, z % 64, Sextets(rest));
  }

  lemma {:induction false} BytesOfShort(bytes: seq<byte>)
    requires |bytes| < 3
    ensures Bytes(Sextets(bytes)) == bytes
  {
    if |bytes| == 2 {
      ThreeBytes(bytes[0], bytes[1], 0);
    } else if |bytes| == 1 {
      ThreeBytes(bytes[0], 0, 0);
    }
  }

  lemma {:induction false} BytesOfSextets(bytes: seq<byte>)
    ensures Bytes(Sextets(bytes)) == bytes
    decreases |bytes|
  {
    if |bytes| < 3 {
      BytesOfShort(bytes);
    } else {
      var x, y, z, rest := bytes[0], bytes[1], bytes[2], bytes[3..];
      BytesOfSextets(rest);
      BytesOfTriple(x, y, z, rest);
      assert [x, y, z] + rest == bytes;
    }
  }

  // ----- alphabets -----

  function Digit(v: sextet): char {
    if v < 26 then 'A' + v as char
    else if v < 52 then 'a' + (v - 26) as char
    else if v < 62 then '0' + (v - 52) as char
    else if v == 62 then '+' else '/'
  }

  function Value(c: char): Option<sextet> {
    if 'A' <= c <= 'Z' then Some((c - 'A') as int)
    else if 'a' <= c <= 'z' then Some((c - 'a') as int + 26)
    else if '0' <= c <= '9' then Some((c - '0') as int + 52)
    else if c == '+' then Some(62)
    else if c == '/' then Some(63)
    else None
  }

  /** Section 5 of RFC 4648: two digits are written differently. */
  function UrlDigit(v: sextet): char {
    if v == 62 then '-' else if v == 63 then '_' else Digit(v)
  }

  function NormalChar(c: char): char {
    if c == '-' then '+' else if c == '_' then '/' else c
  }

  lemma {:induction false} DigitFacts(v: sextet)
    ensures Value(Digit(v)) == Some(v) && NormalChar(UrlDigit(v)) == Digit(v)
    ensures Digit(v) != '=' && !IsSpace(Digit(v)) && Digit(v) != '-' && Digit(v) != '_'
    ensures UrlDigit(v) != '=' && !IsSpace(UrlDigit(v))
    ensures Value(UrlDigit(v)).None? <==> UrlDigit(v) == '-' || UrlDigit(v) == '_'
  {
  }

  /** Unpadded base64url, section 2 of RFC 7515. */
  function Encode(bytes: seq<byte>): (text: string)
    ensures |text| == |Sextets(bytes)|
    ensures forall i | 0 <= i < |text| :: text[i] == UrlDigit(Sextets(bytes)[i])
  {
    var sextets := Sextets(bytes);
    seq(|sextets|, i requires 0 <= i < |sextets| => UrlDigit(sextets[i]))
  }

  // ----- atob -----

  predicate IsSpace(c: char) { c == ' ' || c == '\t' || c == '\n' || c == '\r' || c == 12 as char }

  function WithoutSpace(s: string): string {
    if s == [] then [] else (if IsSpace(s[0]) then [] else [s[0]]) + WithoutSpace(s[1..])
  }

  /** At most two `=` are dropped, and only from a text of whole quadruples. */
  function WithoutPadding(s: string): string {
    if |s| % 4 != 0 || s == [] || s[|s| - 1] != '=' then s
    else if s[|s| - 2] == '=' then s[..|s| - 2]
    else s[..|s| - 1]
  }

  predicate AllDigits(s: string) { forall c <- s :: Value(c).Some? }

  function Values(s: string): (sextets: seq<sextet>)
    requires AllDigits(s)
    ensures |sextets| == |s|
    ensures forall i | 0 <= i < |s| :: Value(s[i]) == Some(sextets[i])
  {
    seq(|s|, i requires 0 <= i < |s| => Value(s[i]).value)
  }

  /** `atob`; None where it throws. */
  function Atob(s: string): Option<seq<byte>> {
    var digits := WithoutPadding(WithoutSpace(s));
    if |digits| % 4 == 1 || !AllDigits(digits) then None else Some(Bytes(Values(digits)))
  }

  // ----- the decoders -----

  function Normalise(s: string): (r: string)
    ensures |r| == |s| && forall i | 0 <= i < |s| :: r[i] == NormalChar(s[i])
  {
    seq(|s|, i requires 0 <= i < |s| => NormalChar(s[i]))
  }

  function Repeat(n: nat): (s: string)
    ensures |s| == n && forall c <- s :: c == '='
  {
    seq(n, _ => '=')
  }

  /** packages/api-client/src/jwt.ts: replace, then pad. */
  function PaddedByClient(s: string): string {
    var padded := Normalise(s);
    padded + Repeat(if |padded| % 4 == 0 then 0 else 4 - |padded| % 4)
  }

  /** apps/web/lib/auth-server.ts: replace, then pad by a remainder. */
  function PaddedByAuthServer(s: string): string {
    var normalized := Normalise(s);
    normalized + Repeat((4 - |normalized| % 4) % 4)
  }

  /** apps/web/lib/server-auth.ts: pad, then replace. */
  function PaddedByServerAuth(s: string): string {
    Normalise(s + (if |s| % 4 == 0 then "" else Repeat(4 - |s| % 4)))
  }

  /** The three give `atob` the same text, whatever the input. */
  lemma {:induction false} PaddingsAgree(s: string)
    ensures PaddedByClient(s) == PaddedByAuthServer(s) == PaddedByServerAuth(s)
  {
    var pad := if |s| % 4 == 0 then "" else Repeat(4 - |s| % 4);
    assert forall i | 0 <= i < |pad| :: pad[i] in pad;
    assert Normalise(s + pad) == Normalise(s) + pad;
  }

  /** It is a text of whole quadruples, of which at most three are padding. */
  lemma {:induction false} PaddedIsWhole(s: string)
    ensures |PaddedByClient(s)| % 4 == 0 && |s| <= |PaddedByClient(s)| <= |s| + 3
    ensures PaddedByClient(s)[..|s|] == Normalise(s)
    ensures forall c <- PaddedByClient(s)[|s|..] :: c == '='
  {
  }

  lemma {:induction false} SpaceInside(a: string, b: string)
    ensures WithoutSpace(a + b) == WithoutSpace(a) + WithoutSpace(b)
    decreases |a|
  {
    if a == [] {
      assert a + b == b;
    } else {
      assert (a + b)[1..] == a[1..] + b;
      SpaceInside(a[1..], b);
    }
  }

  lemma {:induction false} SpaceDropped(a: string, c: char, b: string)
    requires IsSpace(c)
    ensures WithoutSpace(a + [c] + b) == WithoutSpace(a + b)
  {
    SpaceInside(a + [c], b);
    SpaceInside(a, [c]);
    SpaceInside(a, b);
    assert [c][1..] == [];
    assert WithoutSpace([c]) == [];
    assert WithoutSpace(a) + [] == WithoutSpace(a);
  }

  /** White space in a text makes no difference. */
  lemma {:induction false} AtobIgnoresSpace(a: string, c: char, b: string)
    requires IsSpace(c)
    ensures Atob(a + [c] + b) == Atob(a + b)
  {
    var s, t := a + [c] + b, a + b;
    SpaceDropped(a, c, b);
    assert WithoutSpace(s) == WithoutSpace(t);
  }

  lemma {:induction false} NoSpaceToStrip(s: string)
    requires forall c <- s :: !IsSpace(c)
    ensures WithoutSpace(s) == s
    decreases |s|
  {
    if s != [] {
      NoSpaceToStrip(s[1..]);
    }
  }

  lemma {:induction false} PadsNothing(s: string)
    requires AllDigits(s)
    ensures WithoutPadding(s) == s
  {
    assert s != [] ==> s[|s| - 1] in s;
  }

  lemma {:induction false} PadsOne(s: string)
    requires AllDigits(s) && |s| % 4 == 3
    ensures WithoutPadding(s + Repeat(1)) == s
  {
    var t := s + Repeat(1);
    assert Repeat(1)[0] in Repeat(1);
    assert s[|s| - 1] in s && t[|t| - 2] == s[|s| - 1] && t[|t| - 1] == '=';
    assert t[..|t| - 1] == s;
  }

  lemma {:induction false} PadsTwo(s: string)
    requires AllDigits(s) && |s| % 4 == 2
    ensures WithoutPadding(s + Repeat(2)) == s
  {
    var t := s + Repeat(2);
    assert Repeat(2)[0] in Repeat(2) && Repeat(2)[1] in Repeat(2);
    assert t[|t| - 2] == '=' && t[|t| - 1] == '=';
    assert t[..|t| - 2] == s;
  }

  /** Padding a text of digits to whole quadruples is undone by `atob`. */
  lemma {:induction false} PaddingIsDropped(s: string, pad: nat)
    requires AllDigits(s) && |s| % 4 != 1 && pad == (4 - |s| % 4) % 4
    ensures WithoutPadding(s + Repeat(pad)) == s && WithoutPadding(s) == s
  {
    PadsNothing(s);
    if pad == 0 {
      assert s + Repeat(pad) == s;
    } else if pad == 1 {
      PadsOne(s);
    } else {
      PadsTwo(s);
    }
  }

  lemma {:induction false} AtobOfDigits(s: string, pad: nat)
    requires AllDigits(s) && |s| % 4 != 1 && pad == (4 - |s| % 4) % 4
    ensures Atob(s + Repeat(pad)) == Some(Bytes(Values(s))) && Atob(s) == Some(Bytes(Values(s)))
  {
    assert forall c <- Repeat(pad) :: !IsSpace(c);
    NoSpaceToStrip(s + Repeat(pad));
    NoSpaceToStrip(s);
    PaddingIsDropped(s, pad);
  }

  /** Digits with one over the last quadruple are no text. */
  lemma {:induction false} AtobRejectsStrays(s: string)
    requires AllDigits(s) && |s| % 4 == 1
    ensures Atob(s) == None
  {
    PadsNothing(s);
    NoSpaceToStrip(s);
  }

  lemma {:induction false} AtobOfSextets(s: string, bytes: seq<byte>, pad: nat)
    requires AllDigits(s) && Values(s) == Sextets(bytes) && pad == (4 - |s| % 4) % 4
    ensures Atob(s + Repeat(pad)) == Some(bytes) && Atob(s) == Some(bytes)
  {
    BytesOfSextets(bytes);
    SextetsNeverStray(bytes);
    AtobOfDigits(s, pad);
  }

  lemma {:induction false} NormalisedEncoding(bytes: seq<byte>)
    ensures AllDigits(Normalise(Encode(bytes))) && Values(Normalise(Encode(bytes))) == Sextets(bytes)
  {
    var s := Normalise(Encode(bytes));
    forall i | 0 <= i < |s|
      ensures Value(s[i]) == Some(Sextets(bytes)[i])
    {
      DigitFacts(Sextets(bytes)[i]);
    }
    forall c <- s
      ensures Value(c).Some?
    {
      var i :| 0 <= i < |s| && s[i] == c;
    }
  }

  /** Each of the three decoders inverts base64url on every byte string. */
  lemma {:induction false} DecodersInvertEncoding(bytes: seq<byte>)
    ensures Atob(PaddedByClient(Encode(bytes))) == Some(bytes)
    ensures Atob(PaddedByAuthServer(Encode(bytes))) == Some(bytes)
    ensures Atob(PaddedByServerAuth(Encode(bytes))) == Some(bytes)
  {
    var s := Normalise(Encode(bytes));
    NormalisedEncoding(bytes);
    AtobOfSextets(s, bytes, (4 - |s| % 4) % 4);
    PaddingsAgree(Encode(bytes));
  }

  lemma {:induction false} AtobThrows(s: string)
    requires forall c <- s :: !IsSpace(c) && c != '='
    requires '-' in s || '_' in s
    ensures Atob(s) == None
  {
    NoSpaceToStrip(s);
    assert s[|s| - 1] in s;
    assert Value('-').None? && Value('_').None?;
  }

  lemma {:induction false} AtobOfPlainEncoding(bytes: seq<byte>)
    requires '-' !in Encode(bytes) && '_' !in Encode(bytes)
    ensures Atob(Encode(bytes)) == Some(bytes)
  {
    var s := Encode(bytes);
    NormalisedEncoding(bytes);
    assert Normalise(s) == s by {
      assert forall i | 0 <= i < |s| :: s[i] in s;
    }
    AtobOfSextets(s, bytes, (4 - |s| % 4) % 4);
  }

  lemma {:induction false} UrlDigitsOnly(bytes: seq<byte>)
    ensures forall c <- Encode(bytes) :: !IsSpace(c) && c != '='
  {
    forall c <- Encode(bytes)
      ensures !IsSpace(c) && c != '='
    {
      var i :| 0 <= i < |Encode(bytes)| && Encode(bytes)[i] == c;
      DigitFacts(Sextets(bytes)[i]);
    }
  }

  /** The middleware gives the segment to `atob` as it is: it reads exactly the payloads
      in which base64 and base64url do not differ, and throws on the others. */
  lemma {:induction false} MiddlewareDecodesIff(bytes: seq<byte>)
    ensures Atob(Encode(bytes)) == Some(bytes) <==> '-' !in Encode(bytes) && '_' !in Encode(bytes)
    ensures '-' in Encode(bytes) || '_' in Encode(bytes) ==> Atob(Encode(bytes)) == None
  {
    var s := Encode(bytes);
    if '-' !in s && '_' !in s {
      AtobOfPlainEncoding(bytes);
    } else {
      UrlDigitsOnly(bytes);
      AtobThrows(s);
    }
  }
}
