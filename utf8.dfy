// UTF-8 as Python's str.encode('utf-8') and strict bytes.decode('utf-8')
// apply it: every Unicode scalar value has one shortest encoding, and the
// decoder refuses overlong forms, surrogates, values above U+10FFFF and
// truncated sequences.

module Utf8 {
  import opened Wrappers
  import opened Bytes

  predicate IsByteValue(n: int)
  {
    0 <= n < 256
  }

  /** The byte values of one character's encoding. */
  function EncodeCharValues(c: char): (r: seq<int>)
    ensures 1 <= |r| <= 4
    ensures forall i :: 0 <= i < |r| ==> IsByteValue(r[i])
    ensures c != '\0' ==> forall i :: 0 <= i < |r| ==> r[i] != 0
  {
    var n := c as int;
    if n < 0x80 then [n]
    else if n < 0x800 then [0xC0 + n / 64, 0x80 + n % 64]
    else if n < 0x1_0000 then [0xE0 + n / 4096, 0x80 + (n / 64) % 64, 0x80 + n % 64]
    else [0xF0 + n / 262144, 0x80 + (n / 4096) % 64, 0x80 + (n / 64) % 64, 0x80 + n % 64]
  }

  function ToBytes(x: seq<int>): (r: seq<byte>)
    requires forall i :: 0 <= i < |x| ==> IsByteValue(x[i])
    ensures |r| == |x|
  {
    seq(|x|, i requires 0 <= i < |x| && IsByteValue(x[i]) => x[i] as bv8)
  }

  function Values(s: seq<byte>): (r: seq<int>)
    ensures |r| == |s| && forall i :: 0 <= i < |s| ==> r[i] == s[i] as int
  {
    seq(|s|, i requires 0 <= i < |s| => s[i] as int)
  }

  lemma ValuesToBytes(x: seq<int>)
    requires forall i :: 0 <= i < |x| ==> IsByteValue(x[i])
    ensures Values(ToBytes(x)) == x
  {
    forall i | 0 <= i < |x| ensures Values(ToBytes(x))[i] == x[i] {
      ByteValue(x[i]);
    }
  }

  lemma ToBytesValues(s: seq<byte>)
    ensures ToBytes(Values(s)) == s
  {
  }

  /** The bytes of one character. */
  function EncodeChar(c: char): (r: seq<byte>)
    ensures 1 <= |r| <= 4
  {
    ToBytes(EncodeCharValues(c))
  }

  /** str.encode('utf-8'). */
  function Encode(s: string): (r: seq<byte>)
    ensures |r| >= |s|
  {
    if s == [] then [] else EncodeChar(s[0]) + Encode(s[1..])
  }

  /** The length of the sequence a lead byte announces, 0 for a byte that
      cannot start one. */
  function SeqLen(b: int): nat
  {
    if b < 0x80 then 1
    else if 0xC2 <= b <= 0xDF then 2
    else if 0xE0 <= b <= 0xEF then 3
    else if 0xF0 <= b <= 0xF4 then 4
    else 0
  }

  /** The range the second byte must lie in after a given lead byte. */
  predicate SecondOk(b0: int, b1: int)
  {
    if b0 == 0xE0 then 0xA0 <= b1 <= 0xBF
    else if b0 == 0xED then 0x80 <= b1 <= 0x9F
    else if b0 == 0xF0 then 0x90 <= b1 <= 0xBF
    else if b0 == 0xF4 then 0x80 <= b1 <= 0x8F
    else 0x80 <= b1 < 0xC0
  }

  predicate ContOk(b: int)
  {
    0x80 <= b < 0xC0
  }

  /** The scalar value a well-formed sequence of k bytes spells. */
  function Scalar(v: seq<int>, k: nat): int
    requires 1 <= k <= 4 && |v| >= k
  {
    if k == 1 then v[0]
    else if k == 2 then (v[0] - 0xC0) * 64 + (v[1] - 0x80)
    else if k == 3 then (v[0] - 0xE0) * 4096 + (v[1] - 0x80) * 64 + (v[2] - 0x80)
    else (v[0] - 0xF0) * 262144 + (v[1] - 0x80) * 4096 + (v[2] - 0x80) * 64 + (v[3] - 0x80)
  }

  predicate WellFormedAt(v: seq<int>, k: nat)
  {
    && 1 <= k <= 4 && |v| >= k && k == SeqLen(v[0])
    && (k >= 2 ==> SecondOk(v[0], v[1]))
    && (k >= 3 ==> ContOk(v[2]))
    && (k == 4 ==> ContOk(v[3]))
  }

  /** The first character of s, with the number of bytes it takes. */
  function DecodeFirst(s: seq<byte>): (r: Result<(char, nat)>)
    requires |s| > 0
    ensures r.Ok? ==> 1 <= r.value.1 <= |s| && s[..r.value.1] == EncodeChar(r.value.0)
  {
    var v := Values(s);
    var k := SeqLen(v[0]);
    if k == 0 || |s| < k || !WellFormedAt(v, k) then Err(ValueError)
    else
      var n := Scalar(v, k);
      WellFormedValues(v, k);
      assert s[..k] == EncodeChar(n as char) by {
        assert Values(s[..k]) == v[..k];
        ToBytesValues(s[..k]);
      }
      Ok((n as char, k))
  }

  lemma DivMod(q: int, r: int, d: int)
    requires d in {64, 4096, 262144} && 0 <= r < d
    ensures (q * d + r) / d == q && (q * d + r) % d == r
  {
    if d == 64 {
      assert (q * 64 + r) / 64 == q;
    } else if d == 4096 {
      assert (q * 4096 + r) / 4096 == q;
    } else {
      assert (q * 262144 + r) / 262144 == q;
    }
  }

  /** A well-formed sequence spells a scalar value whose encoding it is. */
  lemma WellFormedValues(v: seq<int>, k: nat)
    requires WellFormedAt(v, k)
    requires forall i :: 0 <= i < k ==> IsByteValue(v[i])
    ensures var n := Scalar(v, k);
      (0 <= n < 0xD800 || 0xE000 <= n < 0x11_0000) && EncodeCharValues(n as char) == v[..k]
  {
    if k == 2 {
      WellFormedTwo(v);
    } else if k == 3 {
      WellFormedThree(v);
    } else if k == 4 {
      WellFormedFour(v);
    }
  }

  lemma WellFormedTwo(v: seq<int>)
    requires WellFormedAt(v, 2)
    requires forall i :: 0 <= i < 2 ==> IsByteValue(v[i])
    ensures var n := Scalar(v, 2);
      (0 <= n < 0xD800 || 0xE000 <= n < 0x11_0000) && EncodeCharValues(n as char) == v[..2]
  {
    DivMod(v[0] - 0xC0, v[1] - 0x80, 64);
  }

  lemma WellFormedThree(v: seq<int>)
    requires WellFormedAt(v, 3)
    requires forall i :: 0 <= i < 3 ==> IsByteValue(v[i])
    ensures var n := Scalar(v, 3);
      (0 <= n < 0xD800 || 0xE000 <= n < 0x11_0000) && EncodeCharValues(n as char) == v[..3]
  {
    var n := Scalar(v, 3);
    var m := (v[0] - 0xE0) * 64 + (v[1] - 0x80);
    assert n == m * 64 + (v[2] - 0x80);
    DivMod(m, v[2] - 0x80, 64);
    DivMod(v[0] - 0xE0, v[1] - 0x80, 64);
    assert n / 4096 == v[0] - 0xE0 by { DivMod(v[0] - 0xE0, (v[1] - 0x80) * 64 + (v[2] - 0x80), 4096); }
  }

  lemma WellFormedFour(v: seq<int>)
    requires WellFormedAt(v, 4)
    requires forall i :: 0 <= i < 4 ==> IsByteValue(v[i])
    ensures var n := Scalar(v, 4);
      (0 <= n < 0xD800 || 0xE000 <= n < 0x11_0000) && EncodeCharValues(n as char) == v[..4]
  {
    var n := Scalar(v, 4);
    var m1 := v[0] - 0xF0;
    var m2 := m1 * 64 + (v[1] - 0x80);
    var m3 := m2 * 64 + (v[2] - 0x80);
    assert n == m3 * 64 + (v[3] - 0x80);
    DivMod(m3, v[3] - 0x80, 64);
    DivMod(m2, v[2] - 0x80, 64);
    DivMod(m1, v[1] - 0x80, 64);
    assert n / 4096 == m2 by { DivMod(m2, (v[2] - 0x80) * 64 + (v[3] - 0x80), 4096); }
    assert n / 262144 == m1 by { DivMod(m1, (v[1] - 0x80) * 4096 + (v[2] - 0x80) * 64 + (v[3] - 0x80), 262144); }
  }

  /** bytes.decode('utf-8') in strict mode: UnicodeDecodeError, a ValueError,
      on any malformed sequence. */
  function Decode(s: seq<byte>): (r: Result<string>)
    ensures r.Ok? ==> Encode(r.value) == s
    decreases |s|
  {
    if s == [] then Ok([])
    else
      var first :- DecodeFirst(s);
      var rest :- Decode(s[first.1..]);
      assert s == s[..first.1] + s[first.1..];
      Ok([first.0] + rest)
  }

  /** A character's encoding is well formed and spells that character. */
  lemma EncodeCharWellFormed(c: char)
    ensures var v := EncodeCharValues(c);
      WellFormedAt(v, |v|) && Scalar(v, |v|) == c as int
  {
    var n := c as int;
    if 0x800 <= n < 0x1_0000 {
      ThreeBytes(n);
    } else if 0x1_0000 <= n {
      FourBytes(n);
    }
  }

  lemma ThreeBytes(n: int)
    requires 0x800 <= n < 0xD800 || 0xE000 <= n < 0x1_0000
    ensures var v := [0xE0 + n / 4096, 0x80 + (n / 64) % 64, 0x80 + n % 64];
      WellFormedAt(v, 3) && Scalar(v, 3) == n
  {
    var m := n / 64;
    var a := m / 64;
    assert n == 64 * m + n % 64;
    assert m == 64 * a + m % 64;
    assert n / 4096 == a;
  }

  lemma FourBytes(n: int)
    requires 0x1_0000 <= n < 0x11_0000
    ensures var v := [0xF0 + n / 262144, 0x80 + (n / 4096) % 64, 0x80 + (n / 64) % 64, 0x80 + n % 64];
      WellFormedAt(v, 4) && Scalar(v, 4) == n
  {
    var m := n / 64;
    var a := m / 64;
    var b := a / 64;
    assert n == 64 * m + n % 64;
    assert m == 64 * a + m % 64;
    assert a == 64 * b + a % 64;
    assert n / 4096 == a;
    assert n / 262144 == b;
  }

  /** A character's encoding is read back as that character. */
  lemma DecodeFirstEncodeChar(c: char, rest: seq<byte>)
    ensures DecodeFirst(EncodeChar(c) + rest) == Ok((c, |EncodeChar(c)|))
  {
    var x := EncodeCharValues(c);
    var s := EncodeChar(c) + rest;
    var v := Values(s);
    EncodeCharWellFormed(c);
    ValuesToBytes(x);
    assert v[..|x|] == x;
    PrefixAgrees(v, x, |x|);
  }

  /** Well-formedness and the scalar value depend only on the first k
      values. */
  lemma PrefixAgrees(v: seq<int>, x: seq<int>, k: nat)
    requires 1 <= k == |x| <= |v| && v[..k] == x
    ensures WellFormedAt(v, k) == WellFormedAt(x, k)
    ensures WellFormedAt(x, k) ==> Scalar(v, k) == Scalar(x, k)
  {
    assert forall i :: 0 <= i < k ==> v[i] == x[i] by {
      forall i | 0 <= i < k ensures v[i] == x[i] {
        assert v[..k][i] == v[i];
      }
    }
  }

  /** Decoding an encoded string gives the string back. */
  lemma {:induction false} DecodeEncode(s: string)
    ensures Decode(Encode(s)) == Ok(s)
  {
    if s != [] {
      var e := EncodeChar(s[0]);
      DecodeFirstEncodeChar(s[0], Encode(s[1..]));
      assert (e + Encode(s[1..]))[|e|..] == Encode(s[1..]);
      DecodeEncode(s[1..]);
      assert [s[0]] + s[1..] == s;
    }
  }

  /** No character other than NUL encodes to a byte sequence holding NUL. */
  lemma {:induction false} EncodeNoNul(s: string)
    requires forall i :: 0 <= i < |s| ==> s[i] != '\0'
    ensures forall i :: 0 <= i < |Encode(s)| ==> Encode(s)[i] != NUL
  {
    if s != [] {
      EncodeNoNul(s[1..]);
      var e := EncodeChar(s[0]);
      ValuesToBytes(EncodeCharValues(s[0]));
      forall i | 0 <= i < |Encode(s)| ensures Encode(s)[i] != NUL {
        if i >= |e| {
          assert Encode(s)[i] == Encode(s[1..])[i - |e|];
        } else {
          assert Encode(s)[i] == e[i];
          assert Values(e)[i] != 0;
        }
      }
    }
  }
}
