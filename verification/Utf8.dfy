/** Well-formed UTF-8 (section 4 of RFC 3629) and the repair functions of Go's
    unicode/utf8 and strings packages that decodeText rests on. */
module Utf8 {
  import opened Common

  predicate Tail(b: byte) {
    0x80 <= b <= 0xBF
  }

  /** utf8.DecodeRune: the length of the well-formed sequence at the head, or 0. */
  function RuneLen(s: Bytes): (n: nat)
    ensures n <= |s| && n <= 4
  {
    if s == [] then 0
    else if s[0] <= 0x7F then 1
    else if |s| >= 2 && 0xC2 <= s[0] <= 0xDF && Tail(s[1]) then 2
    else if |s| >= 3 && Tail(s[2])
      && ((s[0] == 0xE0 && 0xA0 <= s[1] <= 0xBF)
          || (s[0] == 0xED && 0x80 <= s[1] <= 0x9F)
          || (0xE1 <= s[0] <= 0xEF && s[0] != 0xED && Tail(s[1]))) then 3
    else if |s| >= 4 && Tail(s[2]) && Tail(s[3])
      && ((s[0] == 0xF0 && 0x90 <= s[1] <= 0xBF)
          || (s[0] == 0xF4 && 0x80 <= s[1] <= 0x8F)
          || (0xF1 <= s[0] <= 0xF3 && Tail(s[1]))) then 4
    else 0
  }

  /** utf8.Valid. */
  predicate Valid(s: Bytes)
    decreases |s|
  {
    s == [] || (RuneLen(s) > 0 && Valid(s[RuneLen(s)..]))
  }

  // ---------------------------------------------------------------------
  // The reference: encodings of scalar values
  // ---------------------------------------------------------------------

  predicate Scalar(c: int) {
    0 <= c <= 0xD7FF || 0xE000 <= c <= 0x10FFFF
  }

  /** The encoding of one scalar value, section 3 of RFC 3629. */
  function Encode(c: int): Bytes
    requires Scalar(c)
  {
    if c <= 0x7F then [c as byte]
    else if c <= 0x7FF then [(0xC0 + c / 0x40) as byte, (0x80 + c % 0x40) as byte]
    else if c <= 0xFFFF then
      [(0xE0 + c / 0x1000) as byte, (0x80 + c / 0x40 % 0x40) as byte, (0x80 + c % 0x40) as byte]
    else
      [(0xF0 + c / 0x40000) as byte, (0x80 + c / 0x1000 % 0x40) as byte,
       (0x80 + c / 0x40 % 0x40) as byte, (0x80 + c % 0x40) as byte]
  }

  ghost predicate Scalars(cs: seq<int>) {
    forall i :: 0 <= i < |cs| ==> Scalar(cs[i])
  }

  function EncodeAll(cs: seq<int>): Bytes
    requires Scalars(cs)
  {
    if cs == [] then [] else Encode(cs[0]) + EncodeAll(cs[1..])
  }

  /** The scalar value at the head of a well-formed string. */
  function Decode(s: Bytes): int
    requires RuneLen(s) > 0
  {
    var n := RuneLen(s);
    if n == 1 then s[0] as int
    else if n == 2 then (s[0] as int - 0xC0) * 0x40 + (s[1] as int - 0x80)
    else if n == 3 then (s[0] as int - 0xE0) * 0x1000 + (s[1] as int - 0x80) * 0x40 + (s[2] as int - 0x80)
    else (s[0] as int - 0xF0) * 0x40000 + (s[1] as int - 0x80) * 0x1000
         + (s[2] as int - 0x80) * 0x40 + (s[3] as int - 0x80)
  }

  lemma EncodingIsRune(c: int, rest: Bytes)
    requires Scalar(c)
    ensures RuneLen(Encode(c) + rest) == |Encode(c)|
  {
    var s := Encode(c) + rest;
    if c > 0xFFFF {
      assert c / 0x40000 <= 4;
      assert c / 0x1000 % 0x40 == c / 0x1000 - c / 0x40000 * 0x40;
    } else if c > 0x7FF {
      assert c / 0x40 % 0x40 == c / 0x40 - c / 0x1000 * 0x40;
    }
  }

  lemma SixBits(q: int, r: int)
    requires 0 <= r < 0x40
    ensures (q * 0x40 + r) / 0x40 == q && (q * 0x40 + r) % 0x40 == r
  {
  }

  lemma ThreeParts(a: int, b: int, d: int)
    requires 0 <= b < 0x40 && 0 <= d < 0x40
    ensures var c := a * 0x1000 + b * 0x40 + d;
      c / 0x1000 == a && c / 0x40 % 0x40 == b && c % 0x40 == d
  {
    SixBits(a * 0x40 + b, d);
    SixBits(a, b);
  }

  lemma FourParts(a: int, b: int, d: int, e: int)
    requires 0 <= b < 0x40 && 0 <= d < 0x40 && 0 <= e < 0x40
    ensures var c := a * 0x40000 + b * 0x1000 + d * 0x40 + e;
      c / 0x40000 == a && c / 0x1000 % 0x40 == b && c / 0x40 % 0x40 == d && c % 0x40 == e
  {
    ThreeParts(a * 0x40 + b, d, e);
    SixBits(a, b);
  }

  lemma RuneIsEncoding(s: Bytes)
    requires RuneLen(s) > 0
    ensures Scalar(Decode(s)) && Encode(Decode(s)) == s[..RuneLen(s)]
  {
    var n := RuneLen(s);
    if n == 2 {
      SixBits(s[0] as int - 0xC0, s[1] as int - 0x80);
    } else if n == 3 {
      ThreeByteRune(s);
    } else if n == 4 {
      FourByteRune(s);
    }
  }

  lemma ThreeByteRune(s: Bytes)
    requires RuneLen(s) == 3
    ensures Scalar(Decode(s)) && Encode(Decode(s)) == s[..3]
  {
    ThreeParts(s[0] as int - 0xE0, s[1] as int - 0x80, s[2] as int - 0x80);
    assert s[..3] == [s[0], s[1], s[2]];
  }

  lemma FourByteRune(s: Bytes)
    requires RuneLen(s) == 4
    ensures Scalar(Decode(s)) && Encode(Decode(s)) == s[..4]
  {
    FourParts(s[0] as int - 0xF0, s[1] as int - 0x80, s[2] as int - 0x80, s[3] as int - 0x80);
    assert s[..4] == [s[0], s[1], s[2], s[3]];
  }

  /** A byte string is valid exactly when it encodes some scalar values. */
  lemma {:induction false} ValidIffEncoding(s: Bytes)
    ensures Valid(s) <==> exists cs :: Scalars(cs) && EncodeAll(cs) == s
  {
    if Valid(s) {
      var cs := DecodeAll(s);
    }
    if cs :| Scalars(cs) && EncodeAll(cs) == s {
      EncodingIsValid(cs);
    }
  }

  lemma {:induction false} DecodeAll(s: Bytes) returns (cs: seq<int>)
    requires Valid(s)
    ensures Scalars(cs) && EncodeAll(cs) == s
    decreases |s|
  {
    cs := [];
    if s != [] {
      var n := RuneLen(s);
      var rest := DecodeAll(s[n..]);
      RuneIsEncoding(s);
      cs := [Decode(s)] + rest;
      EncodeCons(Decode(s), rest);
      assert s == s[..n] + s[n..];
    }
  }

  lemma EncodeCons(c: int, cs: seq<int>)
    requires Scalar(c) && Scalars(cs)
    ensures Scalars([c] + cs) && EncodeAll([c] + cs) == Encode(c) + EncodeAll(cs)
  {
    assert ([c] + cs)[1..] == cs;
  }

  lemma {:induction false} EncodingIsValid(cs: seq<int>)
    requires Scalars(cs)
    ensures Valid(EncodeAll(cs))
  {
    if cs != [] {
      EncodingIsValid(cs[1..]);
      EncodingIsRune(cs[0], EncodeAll(cs[1..]));
      assert (Encode(cs[0]) + EncodeAll(cs[1..]))[|Encode(cs[0])|..] == EncodeAll(cs[1..]);
    }
  }

  // ---------------------------------------------------------------------
  // Concatenation and repair
  // ---------------------------------------------------------------------

  lemma RuneLenPrefix(a: Bytes, b: Bytes)
    requires RuneLen(a) > 0
    ensures RuneLen(a + b) == RuneLen(a)
  {
    assert forall i :: 0 <= i < |a| ==> (a + b)[i] == a[i];
  }

  lemma {:induction false} ValidConcat(a: Bytes, b: Bytes)
    requires Valid(a) && Valid(b)
    ensures Valid(a + b)
    decreases |a|
  {
    if a == [] {
      assert a + b == b;
    } else {
      var n := RuneLen(a);
      RuneLenPrefix(a, b);
      ValidConcat(a[n..], b);
      assert (a + b)[n..] == a[n..] + b;
    }
  }

  /** U+FFFD. */
  const REPLACEMENT: Bytes := [0xEF, 0xBF, 0xBD]

  /** strings.ToValidUTF8 with U+FFFD: each run of invalid bytes becomes one
      replacement character. */
  function ToValid(s: Bytes, inRun: bool := false): Bytes
    decreases |s|
  {
    if s == [] then []
    else if RuneLen(s) > 0 then s[..RuneLen(s)] + ToValid(s[RuneLen(s)..], false)
    else (if inRun then [] else REPLACEMENT) + ToValid(s[1..], true)
  }

  lemma {:induction false} ToValidIsValid(s: Bytes, inRun: bool)
    ensures Valid(ToValid(s, inRun))
    decreases |s|
  {
    if s != [] {
      var n := RuneLen(s);
      if n > 0 {
        ToValidIsValid(s[n..], false);
        var rest := ToValid(s[n..], false);
        assert s == s[..n] + s[n..];
        RuneLenOfTake(s);
        RuneLenPrefix(s[..n], rest);
        assert (s[..n] + rest)[n..] == rest;
      } else {
        ToValidIsValid(s[1..], true);
        assert RuneLen(REPLACEMENT) == 3 && REPLACEMENT[3..] == [];
        assert Valid(REPLACEMENT);
        var head := if inRun then [] else REPLACEMENT;
        ValidConcat(head, ToValid(s[1..], true));
      }
    }
  }

  lemma RuneLenOfTake(s: Bytes)
    ensures RuneLen(s[..RuneLen(s)]) == RuneLen(s)
  {
  }

  /** Repair changes exactly the invalid strings. */
  lemma {:induction false} ToValidIdentityIff(s: Bytes)
    ensures ToValid(s, false) == s <==> Valid(s)
    decreases |s|
  {
    ToValidIsValid(s, false);
    if Valid(s) && s != [] {
      var n := RuneLen(s);
      ToValidIdentityIff(s[n..]);
      assert s == s[..n] + s[n..];
    }
  }

  lemma ToValidRune(a: Bytes, s: Bytes)
    requires RuneLen(a) > 0
    ensures ToValid(a + s) == a[..RuneLen(a)] + ToValid(a[RuneLen(a)..] + s)
  {
    var n := RuneLen(a);
    RuneLenPrefix(a, s);
    assert (a + s)[..n] == a[..n] && (a + s)[n..] == a[n..] + s;
  }

  lemma {:induction false} ToValidKeeps(a: Bytes, s: Bytes)
    requires Valid(a)
    ensures ToValid(a + s) == a + ToValid(s)
    decreases |a|
  {
    if a == [] {
      assert a + s == s;
    } else {
      var head, tail := a[..RuneLen(a)], a[RuneLen(a)..];
      ToValidRune(a, s);
      ToValidKeeps(tail, s);
      assert head + (tail + ToValid(s)) == (head + tail) + ToValid(s);
      assert head + tail == a;
    }
  }

  /** The first `k` bytes of `s` belong to no rune, and what follows starts one. */
  ghost predicate InvalidRun(s: Bytes, k: nat) {
    && k <= |s| && (s[k..] == [] || RuneLen(s[k..]) > 0)
    && forall i :: 0 <= i < k ==> RuneLen(s[i..]) == 0
  }

  lemma RunTail(s: Bytes, k: nat)
    requires InvalidRun(s, k) && k > 0
    ensures RuneLen(s) == 0 && s != [] && InvalidRun(s[1..], k - 1) && s[1..][k - 1..] == s[k..]
  {
    assert s[0..] == s;
    assert s[1..][k - 1..] == s[k..];
    forall i | 0 <= i < k - 1 ensures RuneLen(s[1..][i..]) == 0 {
      assert s[1..][i..] == s[i + 1..];
    }
  }

  lemma {:induction false} ToValidSkips(s: Bytes, k: nat)
    requires InvalidRun(s, k)
    ensures ToValid(s, true) == ToValid(s[k..])
    decreases k
  {
    if k == 0 {
      assert s[0..] == s;
    } else {
      RunTail(s, k);
      ToValidSkips(s[1..], k - 1);
    }
  }

  /** Repair keeps what is valid, and each longest run of bytes that belong to no
      rune becomes one U+FFFD. */
  lemma RepairRun(a: Bytes, s: Bytes, k: nat)
    requires Valid(a) && 0 < k && InvalidRun(s, k)
    ensures ToValid(a + s) == a + [0xEF, 0xBF, 0xBD] + ToValid(s[k..])
  {
    ToValidKeeps(a, s);
    RunTail(s, k);
    ToValidSkips(s[1..], k - 1);
    assert a + (REPLACEMENT + ToValid(s[k..])) == a + REPLACEMENT + ToValid(s[k..]);
  }
}
