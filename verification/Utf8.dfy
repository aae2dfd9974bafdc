/** UTF-8, section 3 of RFC 3629: its order, its inverse, and the line breaks in it. */
module Utf8 {
  import opened Wrappers

  type Byte = b: int | 0 <= b < 256

  function EncodeChar(c: char): (r: seq<Byte>)
    ensures 1 <= |r| <= 4
  {
    var n := c as int;
    if n < 0x80 then [n]
    else if n < 0x800 then [0xC0 + n / 64, 0x80 + n % 64]
    else if n < 0x1_0000 then [0xE0 + n / 4_096, 0x80 + n / 64 % 64, 0x80 + n % 64]
    else [0xF0 + n / 262_144, 0x80 + n / 4_096 % 64, 0x80 + n / 64 % 64, 0x80 + n % 64]
  }

  /** TextEncoder.encode. */
  function Encode(s: string): seq<Byte> {
    if s == "" then [] else EncodeChar(s[0]) + Encode(s[1..])
  }

  lemma {:induction false} EncodeConcat(s: string, t: string)
    ensures Encode(s + t) == Encode(s) + Encode(t)
  {
    if s == "" {
      assert s + t == t;
    } else {
      assert (s + t)[1..] == s[1..] + t;
      EncodeConcat(s[1..], t);
    }
  }

  /** -1, 0 or 1: by the first place where the sequences differ, a proper prefix being less. */
  function Compare(a: seq<int>, b: seq<int>): int {
    if a == [] && b == [] then 0
    else if a == [] then -1
    else if b == [] then 1
    else if a[0] != b[0] then if a[0] < b[0] then -1 else 1
    else Compare(a[1..], b[1..])
  }

  function CodePoints(s: string): (r: seq<int>)
    ensures |r| == |s|
  {
    if s == "" then [] else [s[0] as int] + CodePoints(s[1..])
  }

  /** Two sequences differ at place k, before either ends, and the first is less there. */
  predicate LessAt(a: seq<int>, b: seq<int>, k: nat) {
    k < |a| && k < |b| && a[..k] == b[..k] && a[k] < b[k]
  }

  lemma {:induction false} LessAtCompares(a: seq<int>, b: seq<int>, k: nat)
    requires LessAt(a, b, k)
    ensures Compare(a, b) == -1 && Compare(b, a) == 1
  {
    if k == 0 {
    } else {
      assert a[..k][0] == b[..k][0];
      assert a[1..][..k - 1] == a[..k][1..] && b[1..][..k - 1] == b[..k][1..];
      LessAtCompares(a[1..], b[1..], k - 1);
    }
  }

  /** The base-64 digits that the encodings of two to four bytes spread over their bytes. */
  lemma Spread(n: int)
    requires n >= 0
    ensures n == 64 * (n / 64) + n % 64
    ensures n / 64 == 64 * (n / 4_096) + n / 64 % 64
    ensures n / 4_096 == 64 * (n / 262_144) + n / 4_096 % 64
  {
    var q := n / 64;
    assert q / 64 == n / 4_096;
    var r := n / 4_096;
    assert r / 64 == n / 262_144;
  }

  lemma SmallerInSequence(c: char, d: char) returns (k: nat)
    requires c < d && |EncodeChar(c)| == |EncodeChar(d)|
    ensures LessAt(EncodeChar(c), EncodeChar(d), k)
  {
    var (m, n) := (c as int, d as int);
    Spread(m);
    Spread(n);
    if |EncodeChar(c)| == 4 {
      k := SmallerInFour(c, d);
      return;
    }
    var (a, b) := (EncodeChar(c), EncodeChar(d));
    k := if a[0] != b[0] then 0 else if a[1] != b[1] then 1 else 2;
    assert a[..k] == b[..k];
  }

  lemma SmallerInFour(c: char, d: char) returns (k: nat)
    requires c < d && |EncodeChar(c)| == |EncodeChar(d)| == 4
    ensures LessAt(EncodeChar(c), EncodeChar(d), k)
  {
    Spread(c as int);
    Spread(d as int);
    var (a, b) := (EncodeChar(c), EncodeChar(d));
    k := if a[0] != b[0] then 0 else if a[1] != b[1] then 1 else if a[2] != b[2] then 2 else 3;
    assert a[..k] == b[..k];
  }

  lemma ShorterIsSmaller(c: char, d: char)
    requires c < d && |EncodeChar(c)| != |EncodeChar(d)|
    ensures LessAt(EncodeChar(c), EncodeChar(d), 0)
  {
  }

  /** A smaller character has a smaller encoding, decided inside both. */
  lemma CharOrder(c: char, d: char) returns (k: nat)
    requires c < d
    ensures LessAt(EncodeChar(c), EncodeChar(d), k)
  {
    if |EncodeChar(c)| == |EncodeChar(d)| {
      k := SmallerInSequence(c, d);
    } else {
      k := 0;
      ShorterIsSmaller(c, d);
    }
  }

  lemma LessAtExtends(a: seq<int>, b: seq<int>, k: nat, x: seq<int>, y: seq<int>)
    requires LessAt(a, b, k)
    ensures LessAt(a + x, b + y, k)
  {
    assert (a + x)[..k] == a[..k] && (b + y)[..k] == b[..k];
  }

  lemma {:induction false} CompareStripped(p: seq<int>, a: seq<int>, b: seq<int>)
    ensures Compare(p + a, p + b) == Compare(a, b)
  {
    if p == [] {
      assert p + a == a && p + b == b;
    } else {
      assert (p + a)[1..] == p[1..] + a && (p + b)[1..] == p[1..] + b;
      CompareStripped(p[1..], a, b);
    }
  }

  /** Comparing encodings byte by byte is comparing the texts code point by code point. */
  lemma {:induction false} ByteOrderIsCodePointOrder(s: string, t: string)
    ensures Compare(Encode(s), Encode(t)) == Compare(CodePoints(s), CodePoints(t))
  {
    if s == "" || t == "" {
    } else {
      var (a, b) := (EncodeChar(s[0]), EncodeChar(t[0]));
      if s[0] == t[0] {
        CompareStripped(a, Encode(s[1..]), Encode(t[1..]));
        ByteOrderIsCodePointOrder(s[1..], t[1..]);
      } else if s[0] < t[0] {
        var k := CharOrder(s[0], t[0]);
        LessAtExtends(a, b, k, Encode(s[1..]), Encode(t[1..]));
        LessAtCompares(Encode(s), Encode(t), k);
      } else {
        var k := CharOrder(t[0], s[0]);
        LessAtExtends(b, a, k, Encode(t[1..]), Encode(s[1..]));
        LessAtCompares(Encode(t), Encode(s), k);
      }
    }
  }

  lemma {:induction false} CompareTotal(a: seq<int>, b: seq<int>)
    ensures Compare(a, b) in {-1, 0, 1} && Compare(b, a) == -Compare(a, b)
    ensures Compare(a, b) == 0 <==> a == b
  {
    if a == [] || b == [] {
    } else {
      CompareTotal(a[1..], b[1..]);
      assert a == [a[0]] + a[1..] && b == [b[0]] + b[1..];
    }
  }

  /** The dictionary order, as it is defined: a proper prefix, or less at the first difference. */
  ghost predicate Precedes(a: seq<int>, b: seq<int>) {
    (|a| < |b| && a == b[..|a|]) || exists k: nat :: LessAt(a, b, k)
  }

  lemma {:induction false} PrefixCompares(a: seq<int>, b: seq<int>)
    requires |a| < |b| && a == b[..|a|]
    ensures Compare(a, b) == -1
  {
    if a == [] {
    } else {
      assert a[0] == b[..|a|][0] && a[1..] == b[1..][..|a| - 1];
      PrefixCompares(a[1..], b[1..]);
    }
  }

  lemma {:induction false} LessPrecedes(a: seq<int>, b: seq<int>)
    requires Compare(a, b) == -1
    ensures Precedes(a, b)
  {
    if a == [] {
      assert b[..0] == [];
    } else if a[0] != b[0] {
      assert LessAt(a, b, 0);
    } else {
      LessPrecedes(a[1..], b[1..]);
      assert a == [a[0]] + a[1..] && b == [b[0]] + b[1..];
      if k: nat :| LessAt(a[1..], b[1..], k) {
        assert a[..k + 1] == [a[0]] + a[1..][..k] && b[..k + 1] == [b[0]] + b[1..][..k];
        assert LessAt(a, b, k + 1);
      } else {
        assert b[..|a|] == [b[0]] + b[1..][..|a| - 1];
      }
    }
  }

  /** The comparison decides the dictionary order. */
  lemma CompareIff(a: seq<int>, b: seq<int>)
    ensures Compare(a, b) == -1 <==> Precedes(a, b)
    ensures Compare(a, b) == 1 <==> Precedes(b, a)
    ensures Compare(a, b) == 0 <==> a == b
  {
    CompareTotal(a, b);
    OneWay(a, b);
    OneWay(b, a);
  }

  lemma OneWay(a: seq<int>, b: seq<int>)
    ensures Compare(a, b) == -1 <==> Precedes(a, b)
  {
    hide Compare;
    if Compare(a, b) == -1 {
      LessPrecedes(a, b);
    }
    if |a| < |b| && a == b[..|a|] {
      PrefixCompares(a, b);
    }
    if k: nat :| LessAt(a, b, k) {
      LessAtCompares(a, b, k);
    }
  }

  lemma {:induction false} CompareTransitive(a: seq<int>, b: seq<int>, c: seq<int>)
    requires Compare(a, b) <= 0 && Compare(b, c) <= 0
    ensures Compare(a, c) <= 0
  {
    if a == [] || b == [] || c == [] || a[0] != b[0] || b[0] != c[0] {
    } else {
      CompareTransitive(a[1..], b[1..], c[1..]);
    }
  }

  predicate Continues(bytes: seq<Byte>, k: nat) {
    k < |bytes| && 0x80 <= bytes[k] < 0xC0
  }

  /** The payload of a continuation byte. */
  function Payload(b: Byte): int { b as int - 0x80 }

  /** The first character of an encoding and how many bytes it takes; None when the bytes are not UTF-8. */
  function DecodeChar(bytes: seq<Byte>): Option<(char, nat)>
    requires bytes != []
  {
    var b: int := bytes[0];
    if b < 0x80 then Some((b as char, 1))
    else if 0xC0 <= b < 0xE0 && Continues(bytes, 1) then
      var n := (b - 0xC0) * 64 + Payload(bytes[1]);
      if 0x80 <= n then Some((n as char, 2)) else None
    else if 0xE0 <= b < 0xF0 && Continues(bytes, 1) && Continues(bytes, 2) then
      var n := (b - 0xE0) * 4_096 + Payload(bytes[1]) * 64 + Payload(bytes[2]);
      if 0x800 <= n && !(0xD800 <= n < 0xE000) then Some((n as char, 3)) else None
    else if 0xF0 <= b < 0xF8 && Continues(bytes, 1) && Continues(bytes, 2) && Continues(bytes, 3) then
      var n := (b - 0xF0) * 262_144 + Payload(bytes[1]) * 4_096 + Payload(bytes[2]) * 64 + Payload(bytes[3]);
      if 0x1_0000 <= n < 0x11_0000 then Some((n as char, 4)) else None
    else None
  }

  function Decode(bytes: seq<Byte>): Option<string> {
    if bytes == [] then Some("")
    else
      match DecodeChar(bytes)
      case None => None
      case Some((c, used)) =>
        if used > |bytes| || used == 0 then None
        else match Decode(bytes[used..]) case None => None case Some(rest) => Some([c] + rest)
  }

  lemma DecodeEncodedChar(c: char, rest: seq<Byte>)
    ensures DecodeChar(EncodeChar(c) + rest) == Some((c, |EncodeChar(c)|))
  {
    if |EncodeChar(c)| == 4 {
      DecodeEncodedFour(c, rest);
    } else {
      Spread(c as int);
    }
  }

  lemma DecodeEncodedFour(c: char, rest: seq<Byte>)
    requires |EncodeChar(c)| == 4
    ensures DecodeChar(EncodeChar(c) + rest) == Some((c, 4))
  {
    Spread(c as int);
  }

  /** Decoding inverts encoding. */
  lemma {:induction false} DecodeEncode(s: string)
    ensures Decode(Encode(s)) == Some(s)
  {
    if s == "" {
    } else {
      var a := EncodeChar(s[0]);
      DecodeEncodedChar(s[0], Encode(s[1..]));
      assert (a + Encode(s[1..]))[|a|..] == Encode(s[1..]);
      DecodeEncode(s[1..]);
      assert s == [s[0]] + s[1..];
    }
  }

  const CR: int := 13
  const LF: int := 10

  /** Line breaks in a sequence of character codes or bytes: CR LF, or either alone. */
  function Breaks(codes: seq<int>): nat {
    if codes == [] then 0
    else if codes[0] == CR then
      1 + Breaks(if |codes| > 1 && codes[1] == LF then codes[2..] else codes[1..])
    else if codes[0] == LF then 1 + Breaks(codes[1..])
    else Breaks(codes[1..])
  }

  lemma {:induction false} BreaksSkip(p: seq<int>, rest: seq<int>)
    requires CR !in p && LF !in p
    ensures Breaks(p + rest) == Breaks(rest)
  {
    if p == [] {
      assert p + rest == rest;
    } else {
      assert (p + rest)[1..] == p[1..] + rest;
      assert p[0] in p;
      BreaksSkip(p[1..], rest);
    }
  }

  lemma CharBreaks(c: char)
    ensures c as int >= 0x80 ==> CR !in EncodeChar(c) && LF !in EncodeChar(c)
    ensures c as int < 0x80 ==> EncodeChar(c) == [c as int]
  {
  }

  /** The line breaks of a text are those of its encoding. */
  lemma {:induction false} BytesHaveTextBreaks(s: string)
    ensures Breaks(Encode(s)) == Breaks(CodePoints(s))
  {
    if s == "" {
    } else {
      var rest := s[1..];
      CharBreaks(s[0]);
      BytesHaveTextBreaks(rest);
      if s[0] as int >= 0x80 {
        BreaksSkip(EncodeChar(s[0]), Encode(rest));
      } else {
        assert Encode(s)[1..] == Encode(rest) && CodePoints(s)[1..] == CodePoints(rest);
        if rest != "" {
          CharBreaks(rest[0]);
          BytesHaveTextBreaks(rest[1..]);
          assert Encode(rest)[0] == LF <==> rest[0] as int == LF;
          if rest[0] as int == LF {
            assert Encode(s)[2..] == Encode(rest[1..]) && CodePoints(s)[2..] == CodePoints(rest[1..]);
          }
        }
      }
    }
  }
}
