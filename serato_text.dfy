// The text layer of the Serato writers: the 72-column line wrapping of
// insert_newlines, the '=' stripping of remove_b64padding, and what the
// readers recover from base64 text that went through both.

module SeratoText {
  import opened Wrappers
  import opened Bytes
  import opened Base64
  import opened SeratoUtils

  /** The length up to which insert_newlines returns its input unchanged. */
  const LINE: nat := 72

  /** The two-byte pattern remove_b64padding deletes first. */
  const A_PAD: seq<byte> := [UPPER_A, PAD]

  // ----- insert_newlines -----

  /** data cut into lines of `period` bytes joined by '\n'; no '\n' follows
      the last line, even a full one. */
  function Wrap(data: seq<byte>, period: nat): seq<byte>
    requires period > 0
    decreases |data|
  {
    if |data| <= period then data
    else data[..period] + [LF] + Wrap(data[period..], period)
  }

  /** What insert_newlines(data, period) returns: inputs of at most 72 bytes
      unchanged, longer ones wrapped. */
  function Newlined(data: seq<byte>, period: nat): seq<byte>
    requires period > 0
  {
    if |data| <= LINE then data else Wrap(data, period)
  }

  /** insert_newlines with its loop over the bytes: each byte is copied, and
      a '\n' follows every period-th byte that is not the last one. */
  method InsertNewlines(data: seq<byte>, period: nat) returns (r: seq<byte>)
    requires period > 0
    ensures r == Newlined(data, period)
  {
    if |data| <= LINE {
      return data;
    }
    var out: seq<byte> := [];
    for i := 0 to |data|
      invariant out == Wrap(data[..i], period) + (if i % period == 0 && 0 < i < |data| then [LF] else [])
    {
      WrapSnoc(data[..i], data[i], period);
      assert data[..i + 1] == data[..i] + [data[i]];
      out := out + [data[i]];
      if (i + 1) % period == 0 && i + 1 < |data| {
        out := out + [LF];
      }
    }
    assert data[..|data|] == data;
    return out;
  }

  lemma DivModUnique(x: int, p: int, q: int, r: int)
    requires p > 0 && 0 <= r < p && x == p * q + r
    ensures x / p == q && x % p == r
  {
    var q', r' := x / p, x % p;
    assert p * q' + r' == p * q + r;
    if q' > q {
      MulAtLeast(p, q' - q);
    } else if q' < q {
      MulAtLeast(p, q - q');
    }
  }

  lemma {:induction false} MulAtLeast(p: int, k: int)
    requires p >= 0 && k >= 1
    ensures p * k >= p
    decreases k
  {
    if k > 1 {
      MulAtLeast(p, k - 1);
      assert p * k == p * (k - 1) + p;
    }
  }

  /** Adding one period moves to the next quotient and keeps the remainder. */
  lemma ModStep(a: int, p: int)
    requires p > 0 && a >= 0
    ensures (a + p) % p == a % p && (a + p) / p == a / p + 1
  {
    var q, r := a / p, a % p;
    assert a + p == p * (q + 1) + r;
    DivModUnique(a + p, p, q + 1, r);
  }

  /** Wrapping one more byte: it joins the last line, or starts a new line
      when the last one is full. */
  lemma {:induction false} WrapSnoc(s: seq<byte>, x: byte, period: nat)
    requires period > 0
    ensures Wrap(s + [x], period) == Wrap(s, period) + (if |s| % period == 0 && |s| > 0 then [LF] else []) + [x]
    decreases |s|
  {
    if |s| < period {
      DivModUnique(|s|, period, 0, |s|);
    } else if |s| == period {
      assert (s + [x])[..period] == s && (s + [x])[period..] == [x];
      DivModUnique(|s|, period, 1, 0);
    } else {
      var t := s[period..];
      assert (s + [x])[..period] == s[..period];
      assert (s + [x])[period..] == t + [x];
      ModStep(|t|, period);
      WrapSnoc(t, x, period);
      var e: seq<byte> := if |t| % period == 0 && |t| > 0 then [LF] else [];
      ConcatAssoc(s[..period] + [LF], Wrap(t, period) + e, [x]);
      ConcatAssoc(s[..period] + [LF], Wrap(t, period), e);
    }
  }

  /** Deleting every '\n' from wrapped data gives back newline-free data. */
  lemma {:induction false} WrapRemoved(data: seq<byte>, period: nat)
    requires period > 0 && LF !in data
    ensures RemoveAll(Wrap(data, period), [LF]) == data
    decreases |data|
  {
    RemoveByte(data, LF);
    if |data| > period {
      var t := data[period..];
      assert LF !in t && LF !in data[..period];
      WrapRemoved(t, period);
      RemoveByteAppend(data[..period] + [LF], Wrap(t, period), LF);
      RemoveByteAppend(data[..period], [LF], LF);
      RemoveByte(data[..period], LF);
      assert RemoveAll([LF], [LF]) == [];
      assert data[..period] + t == data;
    }
  }

  /** insert_newlines only adds '\n': removing them restores a newline-free
      input, whatever its length. */
  lemma NewlinesRemoved(data: seq<byte>, period: nat)
    requires period > 0 && LF !in data
    ensures RemoveAll(Newlined(data, period), [LF]) == data
  {
    if |data| <= LINE {
      RemoveByte(data, LF);
    } else {
      WrapRemoved(data, period);
    }
  }

  /** A wrapped text of n bytes has (n - 1) / period newlines, the bytes
      before the first one are the first period bytes, and it ends with the
      input's last byte: no newline at the end. */
  lemma {:induction false} WrapLayout(data: seq<byte>, period: nat)
    requires period > 0 && |data| >= 1
    ensures |Wrap(data, period)| == |data| + (|data| - 1) / period
    ensures Wrap(data, period)[|Wrap(data, period)| - 1] == data[|data| - 1]
    ensures |data| > period ==> Wrap(data, period)[..period] == data[..period] && Wrap(data, period)[period] == LF
    decreases |data|
  {
    if |data| <= period {
      DivModUnique(|data| - 1, period, 0, |data| - 1);
    } else {
      var t := data[period..];
      WrapLayout(t, period);
      ModStep(|t| - 1, period);
      var w := Wrap(data, period);
      assert w == data[..period] + [LF] + Wrap(t, period);
      assert w[|w| - 1] == Wrap(t, period)[|Wrap(t, period)| - 1];
    }
  }

  /** insert_newlines never lengthens data of 72 bytes or fewer, and adds
      exactly (n - 1) / period newlines to longer data. */
  lemma NewlinedLength(data: seq<byte>, period: nat)
    requires period > 0
    ensures |data| <= LINE ==> Newlined(data, period) == data
    ensures |data| > LINE ==> |Newlined(data, period)| == |data| + (|data| - 1) / period
    ensures |Newlined(data, period)| >= |data|
  {
    if |data| > LINE {
      WrapLayout(data, period);
    }
  }

  /** Wrapping adds no byte other than '\n'. */
  lemma {:induction false} WrapAbsent(data: seq<byte>, period: nat, c: byte)
    requires period > 0 && c != LF && c !in data
    ensures c !in Wrap(data, period)
    decreases |data|
  {
    if |data| > period {
      var t := data[period..];
      assert c !in t && c !in data[..period];
      WrapAbsent(t, period, c);
    }
  }

  // ----- remove_b64padding -----

  /** remove_b64padding: data.replace(b'A=', b'').replace(b'=', b''). */
  function RemoveB64Padding(data: seq<byte>): (r: seq<byte>)
    ensures PAD !in r
    ensures |r| <= |data|
  {
    var once := RemoveAll(data, A_PAD);
    RemoveByte(once, PAD);
    RemoveAll(once, [PAD])
  }

  /** Text without '=' passes through unchanged; in particular stripping
      twice is stripping once. */
  lemma PadFreeUnchanged(data: seq<byte>)
    requires PAD !in data
    ensures RemoveB64Padding(data) == data
  {
    RemoveAllKeepsPrefix(data, [], A_PAD);
    assert data + [] == data;
    RemoveByte(data, PAD);
  }

  lemma StripIdempotent(data: seq<byte>)
    ensures RemoveB64Padding(RemoveB64Padding(data)) == RemoveB64Padding(data)
  {
    PadFreeUnchanged(RemoveB64Padding(data));
  }

  // ----- base64 text without its padding -----

  /** The bytes a reader recovers from b64encode(y) after remove_b64padding
      and re-padding: all of y, except that when |y| % 3 == 2 and the low four
      bits of the last byte are zero, the last '=' group becomes 'A=' and is
      deleted with the padding, so the last byte is lost. */
  function Kept(y: seq<byte>): seq<byte>
  {
    if |y| % 3 == 2 && y[|y| - 1] & 0x0F == 0 then y[..|y| - 1] else y
  }

  /** Stripping a final group that ends in '==': the 'A' before them goes
      too when there is one. */
  lemma StripPadPad(c1: byte, c2: byte)
    requires c1 != PAD && c2 != PAD
    ensures RemoveB64Padding([c1, c2, PAD, PAD]) == if c2 == UPPER_A then [c1] else [c1, c2]
  {
    assert [c1, c2, PAD, PAD] == [c1] + [c2, PAD, PAD];
    RemoveAPCons(c1, [c2, PAD, PAD]);
    RemoveByte([c1], PAD);
    RemoveByte([c1, c2], PAD);
    assert RemoveAll([PAD], [PAD]) == [];
    if c2 == UPPER_A {
      assert [c2, PAD, PAD][..2] == A_PAD && [c2, PAD, PAD][2..] == [PAD];
      RemoveByteAppend([c1], [PAD], PAD);
    } else {
      assert [c2, PAD, PAD] == [c2] + [PAD, PAD] && [PAD, PAD] == [PAD] + [PAD];
      RemoveAPCons(c2, [PAD, PAD]);
      RemoveAPCons(PAD, [PAD]);
      assert [c1] + ([c2] + ([PAD] + [PAD])) == [c1, c2] + [PAD, PAD];
      RemoveByteAppend([c1, c2], [PAD, PAD], PAD);
      assert [PAD, PAD][1..] == [PAD];
    }
  }

  /** Stripping a final group that ends in one '='. */
  lemma StripPad(c1: byte, c2: byte, c3: byte)
    requires c1 != PAD && c2 != PAD && c3 != PAD
    ensures RemoveB64Padding([c1, c2, c3, PAD]) == if c3 == UPPER_A then [c1, c2] else [c1, c2, c3]
  {
    assert [c1, c2, c3, PAD] == [c1] + ([c2] + [c3, PAD]);
    RemoveAPCons(c1, [c2] + [c3, PAD]);
    RemoveAPCons(c2, [c3, PAD]);
    if c3 == UPPER_A {
      StripAPad(c1, c2);
    } else {
      StripOnePad(c1, c2, c3);
    }
  }

  /** ... 'A=' goes as a whole. */
  lemma StripAPad(c1: byte, c2: byte)
    requires c1 != PAD && c2 != PAD
    ensures RemoveAll([c1] + ([c2] + RemoveAll([UPPER_A, PAD], A_PAD)), [PAD]) == [c1, c2]
  {
    assert [UPPER_A, PAD][..2] == A_PAD && [UPPER_A, PAD][2..] == [];
    assert [c1] + ([c2] + []) == [c1, c2];
    RemoveByte([c1, c2], PAD);
  }

  /** ... any other character before the '=' stays. */
  lemma StripOnePad(c1: byte, c2: byte, c3: byte)
    requires c1 != PAD && c2 != PAD && c3 != PAD && c3 != UPPER_A
    ensures RemoveAll([c1] + ([c2] + RemoveAll([c3, PAD], A_PAD)), [PAD]) == [c1, c2, c3]
  {
    assert RemoveAll([c3, PAD], A_PAD) == [c3, PAD] by {
      assert [c3, PAD] == [c3] + [PAD];
      RemoveAPCons(c3, [PAD]);
      assert RemoveAll([PAD], A_PAD) == [PAD];
    }
    assert [c1] + ([c2] + [c3, PAD]) == [c1, c2, c3] + [PAD];
    DropLastPad([c1, c2, c3]);
  }

  /** Deleting '=' from pad-free text followed by one '='. */
  lemma DropLastPad(t: seq<byte>)
    requires PAD !in t
    ensures RemoveAll(t + [PAD], [PAD]) == t
  {
    RemoveByteAppend(t, [PAD], PAD);
    RemoveByte(t, PAD);
    assert RemoveAll([PAD], [PAD]) == [];
    assert t + [] == t;
  }

  /** The shape of b64encode on one final byte: two characters, then
      '=='. */
  lemma EncodeOneShape(a: byte)
    ensures var t := Encode([a]);
      |t| == 4 && t[2] == PAD && t[3] == PAD && t[0] != PAD && t[1] != PAD
  {
    TailBits(a, 0);
    CharValue(a >> 2); CharValue((a & 3) << 4);
  }

  /** The encoding of one final byte, stripped and re-padded, is itself. */
  lemma StripOne(a: byte)
    ensures var t := Encode([a]); var s := RemoveB64Padding(t);
      s + Padding(|s|) == t && 1 <= |s| && s == t[..|s|]
  {
    var t := Encode([a]);
    EncodeOneShape(a);
    assert t == [t[0], t[1], PAD, PAD];
    StripPadPad(t[0], t[1]);
    if t[1] == UPPER_A {
      assert t[..1] + Padding(1) == t;
    } else {
      assert t[..2] + Padding(2) == t;
    }
  }

  /** The encoding of two final bytes, stripped and re-padded, decodes to
      both bytes, or to the first alone when the second's low four bits are
      zero. */
  lemma StripTwo(a: byte, b: byte)
    ensures var t := Encode([a, b]); var s := RemoveB64Padding(t);
      && 1 <= |s| && s == t[..|s|]
      && Decode(s + Padding(|s|)) == Ok(if b & 0x0F == 0 then [a] else [a, b])
  {
    if b & 0x0F == 0 {
      StripTwoLow(a, b);
    } else {
      StripTwoHigh(a, b);
    }
  }

  /** The shape of b64encode on two final bytes: three characters, the
      third an 'A' exactly when the second byte's low four bits are zero,
      then one '='. */
  lemma EncodeTwoShape(a: byte, b: byte)
    ensures var t := Encode([a, b]);
      && |t| == 4 && t[3] == PAD && t[0] != PAD && t[1] != PAD && t[2] != PAD
      && (t[2] == UPPER_A <==> b & 0x0F == 0)
      && Value(t[0]) == a >> 2 < 64 && Value(t[1]) == ((a & 3) << 4) | (b >> 4) < 64
  {
    TailBits(a, b);
    CharValue(a >> 2); CharValue(((a & 3) << 4) | (b >> 4)); CharValue((b & 15) << 2);
  }

  lemma StripTwoLow(a: byte, b: byte)
    requires b & 0x0F == 0
    ensures var t := Encode([a, b]);
      RemoveB64Padding(t) == t[..2] && Decode(t[..2] + Padding(2)) == Ok([a])
  {
    var v0, v1 := a >> 2, ((a & 3) << 4) | (b >> 4);
    var t := Encode([a, b]);
    EncodeTwoShape(a, b);
    assert t == [t[0], t[1], UPPER_A, PAD];
    StripPad(t[0], t[1], UPPER_A);
    var e := t[..2] + Padding(2);
    assert e == [t[0], t[1], PAD, PAD];
    DecodeTwoCharsPad(e, v0, v1);
    TailBits(a, b);
  }

  lemma StripTwoHigh(a: byte, b: byte)
    requires b & 0x0F != 0
    ensures var t := Encode([a, b]);
      RemoveB64Padding(t) == t[..3] && Decode(t[..3] + Padding(3)) == Ok([a, b])
  {
    var t := Encode([a, b]);
    EncodeTwoShape(a, b);
    assert t == [t[0], t[1], t[2], PAD];
    StripPad(t[0], t[1], t[2]);
    assert t[..3] + Padding(3) == t;
    DecodeTwoPadded(a, b);
  }

  /** The encoding of whole groups holds no '=', so stripping the encoding
      of y strips only its final group. */
  lemma StripSplit(w: seq<byte>, z: seq<byte>)
    requires |w| % 3 == 0 && |z| < 3
    ensures RemoveB64Padding(Encode(w) + Encode(z)) == Encode(w) + RemoveB64Padding(Encode(z))
  {
    var e, t := Encode(w), Encode(z);
    EncodeAlphabet(w);
    EncodeAlphabet(z);
    assert forall i :: 0 <= i < |e| ==> e[i] != PAD by {
      forall i | 0 <= i < |e| ensures e[i] != PAD {
        assert IsAlphabet(e[i]);
      }
    }
    if |t| > 0 {
      assert t[0] != PAD by {
        if |z| == 1 { CharValue(z[0] >> 2); } else { CharValue(z[0] >> 2); }
      }
    }
    RemoveAllKeepsPrefix(e, t, A_PAD);
    var once := RemoveAll(t, A_PAD);
    RemoveByteAppend(e, once, PAD);
    RemoveByte(e, PAD);
  }

  /** Kept of whole groups followed by a final partial group. */
  lemma KeptSplit(w: seq<byte>, z: seq<byte>)
    requires |w| % 3 == 0 && |z| < 3
    ensures Kept(w + z) == w + (if |z| == 2 && z[1] & 0x0F == 0 then z[..1] else z)
  {
    var y := w + z;
    assert |y| % 3 == |z|;
    if |z| == 2 {
      assert y[|y| - 1] == z[1];
      assert y[..|y| - 1] == w + z[..1];
    }
  }

  /** Padding depends on the length modulo 4 only. */
  lemma PaddingShift(k: nat, n: nat)
    ensures Padding(4 * k + n) == Padding(n)
  {
    assert (4 * k + n) % 4 == n % 4;
  }

  /** The final partial group: stripped, it is a non-empty prefix of its
      encoding (empty for no bytes), and re-padded it decodes to the bytes
      Kept keeps. */
  lemma StrippedTail(z: seq<byte>)
    requires |z| < 3
    ensures var t := Encode(z); var st := RemoveB64Padding(t);
      && st == t[..|st|] && |st| + 3 >= |t|
      && Decode(st + Padding(|st|)) == Ok(if |z| == 2 && z[1] & 0x0F == 0 then z[..1] else z)
  {
    if |z| == 0 {
      assert Encode(z) == [];
      assert RemoveB64Padding([]) == [] && Padding(0) == [];
    } else if |z| == 1 {
      StripOne(z[0]);
      assert [z[0]] == z;
      DecodeTail(z);
    } else {
      StripTwo(z[0], z[1]);
      assert [z[0], z[1]] == z && [z[0]] == z[..1];
    }
  }

  /** What a reader gets back from b64encode(y) after remove_b64padding: the
      stripped text holds no '\n' or NUL, is at most 3 bytes shorter, and
      re-padded it decodes to Kept(y). */
  lemma StrippedEncode(y: seq<byte>)
    ensures var s := RemoveB64Padding(Encode(y));
      && Decode(s + Padding(|s|)) == Ok(Kept(y))
      && |s| + 3 >= |Encode(y)|
      && LF !in s && NUL !in s
  {
    var m := |y| - |y| % 3;
    var w, z := y[..m], y[m..];
    assert y == w + z;
    EncodeSplit(w, z);
    StripSplit(w, z);
    var e, t := Encode(w), Encode(z);
    var st := RemoveB64Padding(t);
    var s := RemoveB64Padding(Encode(y));
    assert s == e + st;
    StrippedTail(z);
    var kz := if |z| == 2 && z[1] & 0x0F == 0 then z[..1] else z;
    var d := st + Padding(|st|);
    JoinPadded(e, st, (|w| + 2) / 3);
    DecodeEncodeAppend(w, d);
    assert Decode(s + Padding(|s|)) == Ok(w + kz);
    KeptSplit(w, z);
    EncodeAlphabet(w);
    EncodeAlphabet(z);
    PrefixClean(e, t, st);
  }

  /** Re-padding text that starts with whole groups pads only its tail. */
  lemma JoinPadded(e: seq<byte>, st: seq<byte>, k: nat)
    requires |e| == 4 * k
    ensures (e + st) + Padding(|e + st|) == e + (st + Padding(|st|))
  {
    PaddingShift(k, |st|);
    ConcatAssoc(e, st, Padding(|st|));
  }

  /** Text clean of '\n' and NUL followed by a prefix of another such text
      is clean too. */
  lemma PrefixClean(e: seq<byte>, t: seq<byte>, st: seq<byte>)
    requires forall i :: 0 <= i < |e| ==> e[i] != NUL && e[i] != LF
    requires forall i :: 0 <= i < |t| ==> t[i] != NUL && t[i] != LF
    requires |st| <= |t| && st == t[..|st|]
    ensures LF !in e + st && NUL !in e + st
  {
    forall i | 0 <= i < |e + st| ensures (e + st)[i] != LF && (e + st)[i] != NUL {
      if i >= |e| {
        assert (e + st)[i] == t[i - |e|];
      }
    }
  }

  /** The encoding of a final partial group has '=' only in its last two
      characters. */
  lemma TailPadsAtEnd(z: seq<byte>)
    requires |z| < 3
    ensures forall i :: 0 <= i < |Encode(z)| - 2 ==> Encode(z)[i] != PAD
  {
    if |z| == 1 {
      assert [z[0]] == z;
      EncodeOneShape(z[0]);
    } else if |z| == 2 {
      assert [z[0], z[1]] == z;
      EncodeTwoShape(z[0], z[1]);
    }
  }

  /** b64encode puts '=' only in the last two characters. */
  lemma EncodePadsAtEnd(y: seq<byte>)
    ensures forall i :: 0 <= i < |Encode(y)| - 2 ==> Encode(y)[i] != PAD
  {
    var m := |y| - |y| % 3;
    var w, z := y[..m], y[m..];
    assert y == w + z;
    EncodeSplit(w, z);
    EncodeAlphabet(w);
    TailPadsAtEnd(z);
    var e, t := Encode(w), Encode(z);
    assert Encode(y) == e + t;
    forall i | 0 <= i < |e + t| - 2 ensures (e + t)[i] != PAD {
      if i < |e| {
        assert IsAlphabet(e[i]);
      } else {
        assert (e + t)[i] == t[i - |e|];
      }
    }
  }

  // ----- stripping text that holds newlines -----

  /** No '\n' is directly followed by '='. */
  predicate NoLFPad(s: seq<byte>)
  {
    forall i :: 0 <= i < |s| - 1 && s[i] == LF ==> s[i + 1] != PAD
  }

  lemma RemoveAPCons(x: byte, t: seq<byte>)
    requires x != UPPER_A || t == [] || t[0] != PAD
    ensures RemoveAll([x] + t, A_PAD) == [x] + RemoveAll(t, A_PAD)
  {
    var s := [x] + t;
    assert s[1..] == t;
    if |s| >= 2 {
      assert s[..2] != A_PAD by { assert s[..2] == [x, t[0]]; }
    }
  }

  lemma RemoveLFCons(x: byte, t: seq<byte>)
    ensures RemoveAll([x] + t, [LF]) == if x == LF then RemoveAll(t, [LF]) else [x] + RemoveAll(t, [LF])
  {
    var s := [x] + t;
    assert s[1..] == t && s[..1] == [x];
  }

  /** After a run of newlines, the first other byte is not '='. */
  lemma {:induction false} AfterLFNotPad(s: seq<byte>)
    requires NoLFPad(s) && |s| > 0 && s[0] == LF
    ensures RemoveAll(s, [LF]) == [] || RemoveAll(s, [LF])[0] != PAD
    decreases |s|
  {
    RemoveLFCons(s[0], s[1..]);
    assert s == [s[0]] + s[1..];
    if |s| > 1 {
      var t := s[1..];
      RemoveLFCons(t[0], t[1..]);
      assert t == [t[0]] + t[1..];
      if t[0] == LF {
        AfterLFNotPad(t);
      }
    }
  }

  /** Deleting 'A=' pairs commutes with deleting newlines when no newline
      stands in front of a '='. */
  lemma {:induction false} StripLFCommute(s: seq<byte>)
    requires NoLFPad(s)
    ensures RemoveAll(RemoveAll(s, A_PAD), [LF]) == RemoveAll(RemoveAll(s, [LF]), A_PAD)
    decreases |s|
  {
    if |s| == 0 {
    } else if |s| == 1 {
      RemoveLFCons(s[0], []);
      assert s == [s[0]] + [];
      assert RemoveAll([], [LF]) == [];
    } else if s[..2] == A_PAD {
      StripLFCommutePair(s);
    } else if s[0] == LF {
      StripLFCommuteLF(s);
    } else {
      StripLFCommuteOther(s);
    }
  }

  lemma StripLFCommutePair(s: seq<byte>)
    requires NoLFPad(s) && |s| >= 2 && s[..2] == A_PAD
    ensures RemoveAll(RemoveAll(s, A_PAD), [LF]) == RemoveAll(RemoveAll(s, [LF]), A_PAD)
    decreases |s|, 0
  {
    var t := s[2..];
    assert NoLFPad(t) by {
      forall i | 0 <= i < |t| - 1 && t[i] == LF ensures t[i + 1] != PAD {
        assert s[i + 2] == LF;
      }
    }
    var l := RemoveAll(t, [LF]);
    calc {
      RemoveAll(RemoveAll(s, A_PAD), [LF]);
      RemoveAll(RemoveAll(t, A_PAD), [LF]);
      { StripLFCommute(t); }
      RemoveAll(l, A_PAD);
      { assert (A_PAD + l)[..2] == A_PAD && (A_PAD + l)[2..] == l; }
      RemoveAll(A_PAD + l, A_PAD);
      { assert s == A_PAD + t; LFPairKept(t); }
      RemoveAll(RemoveAll(s, [LF]), A_PAD);
    }
  }

  /** Deleting '\n' keeps a leading 'A='. */
  lemma LFPairKept(t: seq<byte>)
    ensures RemoveAll(A_PAD + t, [LF]) == A_PAD + RemoveAll(t, [LF])
  {
    assert A_PAD + t == [UPPER_A] + ([PAD] + t);
    RemoveLFCons(UPPER_A, [PAD] + t);
    RemoveLFCons(PAD, t);
    assert [UPPER_A] + ([PAD] + RemoveAll(t, [LF])) == A_PAD + RemoveAll(t, [LF]);
  }

  lemma StripLFCommuteLF(s: seq<byte>)
    requires NoLFPad(s) && |s| >= 2 && s[0] == LF
    ensures RemoveAll(RemoveAll(s, A_PAD), [LF]) == RemoveAll(RemoveAll(s, [LF]), A_PAD)
    decreases |s|, 0
  {
    var t := s[1..];
    assert s == [LF] + t;
    assert NoLFPad(t) by {
      forall i | 0 <= i < |t| - 1 && t[i] == LF ensures t[i + 1] != PAD {
        assert s[i + 1] == LF;
      }
    }
    StripLFCommute(t);
    RemoveAPCons(LF, t);
    RemoveLFCons(LF, RemoveAll(t, A_PAD));
    RemoveLFCons(LF, t);
  }

  lemma StripLFCommuteOther(s: seq<byte>)
    requires NoLFPad(s) && |s| >= 2 && s[..2] != A_PAD && s[0] != LF
    ensures RemoveAll(RemoveAll(s, A_PAD), [LF]) == RemoveAll(RemoveAll(s, [LF]), A_PAD)
    decreases |s|, 0
  {
    var x, t := s[0], s[1..];
    assert s == [x] + t;
    assert NoLFPad(t) by {
      forall i | 0 <= i < |t| - 1 && t[i] == LF ensures t[i + 1] != PAD {
        assert s[i + 1] == LF;
      }
    }
    assert s[..2] == [x, t[0]];
    var l := RemoveAll(t, [LF]);
    calc {
      RemoveAll(RemoveAll(s, A_PAD), [LF]);
      { RemoveAPCons(x, t); }
      RemoveAll([x] + RemoveAll(t, A_PAD), [LF]);
      { RemoveLFCons(x, RemoveAll(t, A_PAD)); }
      [x] + RemoveAll(RemoveAll(t, A_PAD), [LF]);
      { StripLFCommute(t); }
      [x] + RemoveAll(l, A_PAD);
      { NoPadAfter(x, t); RemoveAPCons(x, l); }
      RemoveAll([x] + l, A_PAD);
      { RemoveLFCons(x, t); }
      RemoveAll(RemoveAll(s, [LF]), A_PAD);
    }
  }

  /** An 'A' that no '=' follows is still followed by none once newlines
      are deleted. */
  lemma NoPadAfter(x: byte, t: seq<byte>)
    requires NoLFPad(t) && |t| >= 1 && [x, t[0]] != A_PAD
    ensures var l := RemoveAll(t, [LF]); x != UPPER_A || l == [] || l[0] != PAD
  {
    if x == UPPER_A {
      if t[0] == LF {
        AfterLFNotPad(t);
      } else {
        RemoveLFCons(t[0], t[1..]);
        assert t == [t[0]] + t[1..];
      }
    }
  }

  /** Deleting two single byte values in either order gives the same text. */
  lemma {:induction false} RemoveBytesCommute(s: seq<byte>, c: byte, d: byte)
    ensures RemoveAll(RemoveAll(s, [c]), [d]) == RemoveAll(RemoveAll(s, [d]), [c])
    decreases |s|
  {
    if s != [] {
      var x, t := s[0], s[1..];
      assert s == [x] + t;
      RemoveBytesCommute(t, c, d);
      RemoveByteAppend([x], t, c);
      RemoveByteAppend([x], t, d);
      assert [x][..1] == [x] && [x][1..] == [];
      var rc, rd := RemoveAll([x], [c]), RemoveAll([x], [d]);
      RemoveByteAppend(rc, RemoveAll(t, [c]), d);
      RemoveByteAppend(rd, RemoveAll(t, [d]), c);
      assert RemoveAll(rc, [d]) == RemoveAll(rd, [c]) by {
        if rc != [] { assert rc[..1] == [x] && rc[1..] == []; }
        if rd != [] { assert rd[..1] == [x] && rd[1..] == []; }
      }
    }
  }

  /** Newlines placed only where no '=' follows them vanish when the
      stripped text has its newlines removed. */
  lemma StripThenRemoveLF(s: seq<byte>)
    requires NoLFPad(s)
    ensures RemoveAll(RemoveB64Padding(s), [LF]) == RemoveB64Padding(RemoveAll(s, [LF]))
  {
    var once := RemoveAll(s, A_PAD);
    RemoveBytesCommute(once, PAD, LF);
    StripLFCommute(s);
  }

  /** Wrapped text puts each newline before a byte at a multiple of the
      period; if none of those is '=', no newline precedes a '='. */
  lemma {:induction false} WrapNoLFPad(d: seq<byte>, period: nat)
    requires period > 0 && LF !in d
    requires forall k :: 0 < k < |d| && k % period == 0 ==> d[k] != PAD
    ensures NoLFPad(Wrap(d, period))
    decreases |d|
  {
    if |d| > period {
      var t := d[period..];
      forall k | 0 < k < |t| && k % period == 0 ensures t[k] != PAD {
        ModStep(k, period);
        assert t[k] == d[k + period];
      }
      assert LF !in t;
      WrapNoLFPad(t, period);
      var w, u := Wrap(d, period), Wrap(t, period);
      assert u[0] == t[0];
      DivModUnique(period, period, 1, 0);
      assert d[period] != PAD;
      assert w == d[..period] + [LF] + u;
      forall i | 0 <= i < |w| - 1 ensures w[i] == LF ==> w[i + 1] != PAD {
        if i < period {
          assert w[i] == d[i];
        } else if i > period {
          assert w[i] == u[i - period - 1] && w[i + 1] == u[i - period];
        }
      }
    }
  }

  /** A line boundary inside base64 text of whole groups is at least one
      group before its end. */
  lemma LineBoundary(k: int, m: int)
    requires 0 < k < 4 * m && k % LINE == 0
    ensures k <= 4 * m - 4
  {
    var q := k / LINE;
    assert k == 72 * q;
  }

  /** remove_b64padding(insert_newlines(b64encode(y))), with its newlines
      removed as a reader removes them, is the stripped encoding: the
      newlines never split an 'A=' pair. */
  lemma NewlinedStripRemoved(y: seq<byte>)
    ensures RemoveAll(RemoveB64Padding(Newlined(Encode(y), LINE)), [LF]) == RemoveB64Padding(Encode(y))
  {
    var e := Encode(y);
    EncodeAlphabet(y);
    assert LF !in e;
    if |e| <= LINE {
      assert NoLFPad(e);
      StripThenRemoveLF(e);
      RemoveByte(e, LF);
    } else {
      assert forall k :: 0 < k < |e| && k % LINE == 0 ==> e[k] != PAD by {
        EncodePadsAtEnd(y);
        forall k | 0 < k < |e| && k % LINE == 0 ensures k < |e| - 2 {
          LineBoundary(k, (|y| + 2) / 3);
        }
      }
      WrapNoLFPad(e, LINE);
      StripThenRemoveLF(Wrap(e, LINE));
      WrapRemoved(e, LINE);
    }
  }
}
