// Base64 as the modelled code calls it: `base64.b64encode` (the alphabet and
// '=' padding of section 4 of RFC 4648) and `base64.b64decode`, which runs
// CPython's binascii.a2b_base64 in its non-strict mode.

module Base64 {
  import opened Wrappers
  import opened Bytes

  const PAD: byte := EQUALS

  /** The alphabet character for a 6-bit value (Table 1 of RFC 4648). */
  function Char(v: byte): (c: byte)
    requires v < 64
  {
    if v < 26 then v + 65          // 'A'..'Z'
    else if v < 52 then v + 71     // 'a'..'z'
    else if v < 62 then v - 4      // '0'..'9'
    else if v == 62 then 43        // '+'
    else 47                        // '/'
  }

  /** The 6-bit value of an alphabet character; 64 or more marks every other
      byte, which the non-strict decoder skips. */
  function Value(c: byte): (v: byte)
  {
    if 65 <= c <= 90 then c - 65
    else if 97 <= c <= 122 then c - 71
    else if 48 <= c <= 57 then c + 4
    else if c == 43 then 62
    else if c == 47 then 63
    else 0xFF
  }

  predicate IsAlphabet(c: byte)
  {
    Value(c) < 64
  }

  lemma CharValue(v: byte)
    requires v < 64
    ensures Value(Char(v)) == v
    ensures Char(v) != PAD && Char(v) != NUL && Char(v) != LF
    ensures (Char(v) == UPPER_A) <==> v == 0
  {
  }

  // ----- encoding -----

  function EncodeGroup(a: byte, b: byte, c: byte): (r: seq<byte>)
    ensures |r| == 4
  {
    [Char(a >> 2), Char(((a & 3) << 4) | (b >> 4)), Char(((b & 15) << 2) | (c >> 6)), Char(c & 63)]
  }

  /** base64.b64encode: each 3-byte group becomes 4 characters; a final
      group of 1 or 2 bytes is zero-filled and padded with '=' to 4. */
  function Encode(x: seq<byte>): (r: seq<byte>)
    ensures |r| == 4 * ((|x| + 2) / 3)
  {
    if |x| >= 3 then EncodeGroup(x[0], x[1], x[2]) + Encode(x[3..])
    else if |x| == 2 then [Char(x[0] >> 2), Char(((x[0] & 3) << 4) | (x[1] >> 4)), Char((x[1] & 15) << 2), PAD]
    else if |x| == 1 then [Char(x[0] >> 2), Char((x[0] & 3) << 4), PAD, PAD]
    else []
  }

  // ----- decoding -----

  function Emit(b: byte, r: Result<seq<byte>>): Result<seq<byte>>
  {
    if r.Ok? then Ok([b] + r.value) else r
  }

  function EmitAll(x: seq<byte>, r: Result<seq<byte>>): Result<seq<byte>>
  {
    if r.Ok? then Ok(x + r.value) else r
  }

  /** binascii.a2b_base64 with strict_mode off. `quad` is the position in the
      current group of four characters, `left` the bits read but not yet
      emitted, `pads` the '=' seen since the last data character once at
      least two characters of the group are in. Bytes outside the alphabet
      are skipped; a '=' that completes a group ends decoding; input that
      ends inside a group is an error ("Incorrect padding"). */
  function DecodeFrom(s: seq<byte>, quad: nat, left: byte, pads: nat): Result<seq<byte>>
    requires quad < 4
    decreases |s|
  {
    if s == [] then
      if quad == 0 then Ok([]) else Err(ValueError)
    else if s[0] == PAD then
      if quad >= 2 && quad + pads + 1 >= 4 then Ok([])
      else DecodeFrom(s[1..], quad, left, if quad >= 2 then pads + 1 else pads)
    else
      var v := Value(s[0]);
      if v >= 64 then DecodeFrom(s[1..], quad, left, pads)
      else if quad == 0 then DecodeFrom(s[1..], 1, v, 0)
      else if quad == 1 then Emit((left << 2) | (v >> 4), DecodeFrom(s[1..], 2, v & 0x0F, 0))
      else if quad == 2 then Emit((left << 4) | (v >> 2), DecodeFrom(s[1..], 3, v & 0x03, 0))
      else Emit((left << 6) | v, DecodeFrom(s[1..], 0, 0, 0))
  }

  /** base64.b64decode. */
  function Decode(s: seq<byte>): Result<seq<byte>>
  {
    DecodeFrom(s, 0, 0, 0)
  }

  // ----- properties -----

  lemma GroupBits(a: byte, b: byte, c: byte)
    ensures ((a >> 2) << 2) | ((((a & 3) << 4) | (b >> 4)) >> 4) == a
    ensures (((((a & 3) << 4) | (b >> 4)) & 0x0F) << 4) | ((((b & 15) << 2) | (c >> 6)) >> 2) == b
    ensures (((((b & 15) << 2) | (c >> 6)) & 0x03) << 6) | (c & 63) == c
    ensures ((a & 3) << 4) | (b >> 4) < 64 && ((b & 15) << 2) | (c >> 6) < 64
  {
  }

  // One data character, at each position of a group.
  lemma DecodeStep0(s: seq<byte>, left: byte, v: byte)
    requires |s| >= 1 && s[0] != PAD && Value(s[0]) == v < 64
    ensures DecodeFrom(s, 0, left, 0) == DecodeFrom(s[1..], 1, v, 0)
  {
  }

  lemma DecodeStep1(s: seq<byte>, left: byte, v: byte)
    requires |s| >= 1 && s[0] != PAD && Value(s[0]) == v < 64
    ensures DecodeFrom(s, 1, left, 0) == Emit((left << 2) | (v >> 4), DecodeFrom(s[1..], 2, v & 0x0F, 0))
  {
  }

  lemma DecodeStep2(s: seq<byte>, left: byte, v: byte)
    requires |s| >= 1 && s[0] != PAD && Value(s[0]) == v < 64
    ensures DecodeFrom(s, 2, left, 0) == Emit((left << 4) | (v >> 2), DecodeFrom(s[1..], 3, v & 0x03, 0))
  {
  }

  lemma DecodeStep3(s: seq<byte>, left: byte, v: byte)
    requires |s| >= 1 && s[0] != PAD && Value(s[0]) == v < 64
    ensures DecodeFrom(s, 3, left, 0) == Emit((left << 6) | v, DecodeFrom(s[1..], 0, 0, 0))
  {
  }

  /** Four data characters take the decoder from the start of one group to
      the start of the next, emitting the three bytes their values spell. */
  lemma DecodeFourChars(s: seq<byte>, v0: byte, v1: byte, v2: byte, v3: byte)
    requires |s| >= 4
    requires s[0] != PAD && s[1] != PAD && s[2] != PAD && s[3] != PAD
    requires Value(s[0]) == v0 < 64 && Value(s[1]) == v1 < 64
    requires Value(s[2]) == v2 < 64 && Value(s[3]) == v3 < 64
    ensures DecodeFrom(s, 0, 0, 0)
         == Emit((v0 << 2) | (v1 >> 4), Emit(((v1 & 0x0F) << 4) | (v2 >> 2),
              Emit(((v2 & 0x03) << 6) | v3, DecodeFrom(s[4..], 0, 0, 0))))
  {
    assert s[1..][1..] == s[2..] && s[2..][1..] == s[3..] && s[3..][1..] == s[4..];
    DecodeStep0(s, 0, v0);
    DecodeStep1(s[1..], v0, v1);
    DecodeStep2(s[2..], v1 & 0x0F, v2);
    DecodeStep3(s[3..], v2 & 0x03, v3);
  }

  /** Decoding a full group yields its three bytes and returns to the start
      of a group. */
  lemma EncodeGroupDecodes(a: byte, b: byte, c: byte, rest: seq<byte>)
    ensures DecodeFrom(EncodeGroup(a, b, c) + rest, 0, 0, 0)
         == EmitAll([a, b, c], DecodeFrom(rest, 0, 0, 0))
  {
    var s := EncodeGroup(a, b, c) + rest;
    var v0, v1, v2, v3 := a >> 2, ((a & 3) << 4) | (b >> 4), ((b & 15) << 2) | (c >> 6), c & 63;
    GroupBits(a, b, c);
    assert s[0] == Char(v0) && s[1] == Char(v1) && s[2] == Char(v2) && s[3] == Char(v3) && s[4..] == rest;
    CharValue(v0); CharValue(v1); CharValue(v2); CharValue(v3);
    DecodeFourChars(s, v0, v1, v2, v3);
    EmitThree(a, b, c, DecodeFrom(rest, 0, 0, 0));
  }

  lemma EmitThree(a: byte, b: byte, c: byte, r: Result<seq<byte>>)
    ensures Emit(a, Emit(b, Emit(c, r))) == EmitAll([a, b, c], r)
  {
    if r.Ok? {
      assert [a] + ([b] + ([c] + r.value)) == [a, b, c] + r.value;
    }
  }

  /** Whole groups decode back to their bytes, whatever follows them. */
  lemma {:induction false} DecodeEncodeAppend(y: seq<byte>, rest: seq<byte>)
    requires |y| % 3 == 0
    ensures DecodeFrom(Encode(y) + rest, 0, 0, 0) == EmitAll(y, DecodeFrom(rest, 0, 0, 0))
  {
    if y != [] {
      var tail := Encode(y[3..]) + rest;
      EncodeFront(y, rest, tail);
      EncodeGroupDecodes(y[0], y[1], y[2], tail);
      DecodeEncodeAppend(y[3..], rest);
      EmitGroupThenRest(y, DecodeFrom(rest, 0, 0, 0));
    } else {
      assert Encode(y) + rest == rest;
      var r := DecodeFrom(rest, 0, 0, 0);
      if r.Ok? {
        assert y + r.value == r.value;
      }
    }
  }

  /** An encoding opens with the encoding of its first group. */
  lemma EncodeFront(y: seq<byte>, rest: seq<byte>, tail: seq<byte>)
    requires |y| >= 3 && tail == Encode(y[3..]) + rest
    ensures Encode(y) + rest == EncodeGroup(y[0], y[1], y[2]) + tail
  {
  }

  /** Emitting the first three bytes and then the others emits them all. */
  lemma EmitGroupThenRest(y: seq<byte>, r: Result<seq<byte>>)
    requires |y| >= 3
    ensures EmitAll([y[0], y[1], y[2]], EmitAll(y[3..], r)) == EmitAll(y, r)
  {
    EmitAllAppend([y[0], y[1], y[2]], y[3..], r);
    assert y == [y[0], y[1], y[2]] + y[3..];
  }

  /** The encoding of whole groups followed by the encoding of the rest. */
  lemma {:induction false} EncodeSplit(y: seq<byte>, z: seq<byte>)
    requires |y| % 3 == 0
    ensures Encode(y + z) == Encode(y) + Encode(z)
  {
    if y != [] {
      assert (y + z)[3..] == y[3..] + z;
      assert (y + z)[..3] == y[..3];
      EncodeSplit(y[3..], z);
    } else {
      assert y + z == z;
    }
  }

  /** Encoded whole groups hold alphabet characters only; any encoding holds
      alphabet characters and '=' only, and never NUL or '\n'. */
  lemma {:induction false} EncodeAlphabet(x: seq<byte>)
    ensures |x| % 3 == 0 ==> forall i :: 0 <= i < |Encode(x)| ==> IsAlphabet(Encode(x)[i])
    ensures forall i :: 0 <= i < |Encode(x)| ==> IsAlphabet(Encode(x)[i]) || Encode(x)[i] == PAD
    ensures forall i :: 0 <= i < |Encode(x)| ==> Encode(x)[i] != NUL && Encode(x)[i] != LF
  {
    if |x| >= 3 {
      var g, t := EncodeGroup(x[0], x[1], x[2]), Encode(x[3..]);
      GroupAlphabet(x[0], x[1], x[2]);
      EncodeAlphabet(x[3..]);
      EncodeFront(x, [], t);
      assert Encode(x) == g + t;
      forall i | 0 <= i < |g + t|
        ensures IsAlphabet((g + t)[i]) || (g + t)[i] == PAD
        ensures (g + t)[i] != NUL && (g + t)[i] != LF
        ensures |x| % 3 == 0 ==> IsAlphabet((g + t)[i])
      {
        if i >= 4 {
          assert (g + t)[i] == t[i - 4];
        }
      }
    } else {
      PartialGroupAlphabet(x);
    }
  }

  /** The four characters of a whole group are alphabet characters. */
  lemma GroupAlphabet(a: byte, b: byte, c: byte)
    ensures forall i :: 0 <= i < 4 ==> IsAlphabet(EncodeGroup(a, b, c)[i])
    ensures forall i :: 0 <= i < 4 ==> EncodeGroup(a, b, c)[i] != NUL && EncodeGroup(a, b, c)[i] != LF
  {
    GroupBits(a, b, c);
    CharValue(a >> 2); CharValue(((a & 3) << 4) | (b >> 4));
    CharValue(((b & 15) << 2) | (c >> 6)); CharValue(c & 63);
  }

  /** A final group of one or two bytes: alphabet characters, then '='. */
  lemma PartialGroupAlphabet(x: seq<byte>)
    requires |x| < 3
    ensures |x| == 0 ==> Encode(x) == []
    ensures forall i :: 0 <= i < |Encode(x)| ==> IsAlphabet(Encode(x)[i]) || Encode(x)[i] == PAD
    ensures forall i :: 0 <= i < |Encode(x)| ==> Encode(x)[i] != NUL && Encode(x)[i] != LF
  {
    if |x| == 2 {
      CharValue(x[0] >> 2); CharValue(((x[0] & 3) << 4) | (x[1] >> 4)); CharValue((x[1] & 15) << 2);
    } else if |x| == 1 {
      CharValue(x[0] >> 2); CharValue((x[0] & 3) << 4);
    }
  }

  /** The round trip of the two library calls. */
  lemma DecodeEncode(x: seq<byte>)
    ensures Decode(Encode(x)) == Ok(x)
  {
    var m := |x| - |x| % 3;
    var y, z := x[..m], x[m..];
    assert x == y + z;
    EncodeSplit(y, z);
    DecodeEncodeAppend(y, Encode(z));
    DecodeTail(z);
  }

  lemma EmitAllAppend(x: seq<byte>, z: seq<byte>, r: Result<seq<byte>>)
    ensures EmitAll(x, EmitAll(z, r)) == EmitAll(x + z, r)
  {
    if r.Ok? {
      assert x + (z + r.value) == (x + z) + r.value;
    }
  }

  lemma TailBits(a: byte, b: byte)
    ensures ((a >> 2) << 2) | ((((a & 3) << 4) | (b >> 4)) >> 4) == a
    ensures (((((a & 3) << 4) | (b >> 4)) & 0x0F) << 4) | (((b & 15) << 2) >> 2) == b
    ensures ((a >> 2) << 2) | (((a & 3) << 4) >> 4) == a
    ensures ((a & 3) << 4) | (b >> 4) < 64 && (b & 15) << 2 < 64 && (a & 3) << 4 < 64 && a >> 2 < 64
  {
  }

  /** A final partial group, padded as b64encode pads it, decodes to its bytes. */
  lemma DecodeTail(z: seq<byte>)
    requires |z| < 3
    ensures DecodeFrom(Encode(z), 0, 0, 0) == Ok(z)
  {
    if |z| == 2 {
      DecodeTwoPadded(z[0], z[1]);
      assert [z[0], z[1]] == z;
    } else if |z| == 1 {
      DecodeOnePadded(z[0]);
      assert [z[0]] == z;
    }
  }

  lemma DecodeTwoPadded(a: byte, b: byte)
    ensures DecodeFrom(Encode([a, b]), 0, 0, 0) == Ok([a, b])
  {
    var v0, v1, v2 := a >> 2, ((a & 3) << 4) | (b >> 4), (b & 15) << 2;
    assert v0 < 64 && v1 < 64 && v2 < 64 by { TailBits(a, b); }
    var e := Encode([a, b]);
    assert e[0] == Char(v0) && e[1] == Char(v1) && e[2] == Char(v2) && e[3] == PAD && |e| == 4;
    DecodeThreeCharsPadBytes(e, a, b, v0, v1, v2);
  }

  lemma DecodeThreeCharsPadBytes(e: seq<byte>, a: byte, b: byte, v0: byte, v1: byte, v2: byte)
    requires v0 < 64 && v1 < 64 && v2 < 64
    requires (v0 << 2) | (v1 >> 4) == a && ((v1 & 0x0F) << 4) | (v2 >> 2) == b
    requires |e| == 4 && e[0] == Char(v0) && e[1] == Char(v1) && e[2] == Char(v2) && e[3] == PAD
    ensures DecodeFrom(e, 0, 0, 0) == Ok([a, b])
  {
    CharValue(v0); CharValue(v1); CharValue(v2);
    DecodeThreeCharsPad(e, v0, v1, v2);
  }

  lemma DecodeThreeCharsPad(e: seq<byte>, v0: byte, v1: byte, v2: byte)
    requires |e| == 4 && e[3] == PAD
    requires e[0] != PAD && e[1] != PAD && e[2] != PAD
    requires Value(e[0]) == v0 < 64 && Value(e[1]) == v1 < 64 && Value(e[2]) == v2 < 64
    ensures DecodeFrom(e, 0, 0, 0) == Ok([(v0 << 2) | (v1 >> 4), ((v1 & 0x0F) << 4) | (v2 >> 2)])
  {
    var x0, x1 := (v0 << 2) | (v1 >> 4), ((v1 & 0x0F) << 4) | (v2 >> 2);
    var e1, e2, e3 := e[1..], e[2..], e[3..];
    assert e1[1..] == e2 && e2[1..] == e3 && e3 == [PAD];
    assert DecodeFrom(e3, 3, v2 & 0x03, 0) == Ok([]);
    assert DecodeFrom(e2, 2, v1 & 0x0F, 0) == Ok([x1]) by {
      DecodeStep2(e2, v1 & 0x0F, v2);
      assert [x1] + [] == [x1];
    }
    assert DecodeFrom(e1, 1, v0, 0) == Ok([x0, x1]) by {
      DecodeStep1(e1, v0, v1);
      assert [x0] + [x1] == [x0, x1];
    }
    DecodeStep0(e, 0, v0);
  }

  lemma DecodeOnePadded(a: byte)
    ensures DecodeFrom(Encode([a]), 0, 0, 0) == Ok([a])
  {
    var v0, v1 := a >> 2, (a & 3) << 4;
    var e := [Char(v0), Char(v1), PAD, PAD];
    assert v0 < 64 && v1 < 64 by { TailBits(a, 0); }
    assert Encode([a]) == e;
    var out := [(v0 << 2) | (v1 >> 4)];
    assert out == [a] by { TailBits(a, 0); }
    assert DecodeFrom(e, 0, 0, 0) == Ok(out) by {
      CharValue(v0); CharValue(v1);
      DecodeTwoCharsPad(e, v0, v1);
    }
  }

  lemma DecodeTwoCharsPad(e: seq<byte>, v0: byte, v1: byte)
    requires |e| == 4 && e[2] == PAD && e[3] == PAD
    requires e[0] != PAD && e[1] != PAD
    requires Value(e[0]) == v0 < 64 && Value(e[1]) == v1 < 64
    ensures DecodeFrom(e, 0, 0, 0) == Ok([(v0 << 2) | (v1 >> 4)])
  {
    var x0 := (v0 << 2) | (v1 >> 4);
    assert e[1..][1..] == e[2..] && e[2..] == [PAD, PAD] && e[2..][1..] == [PAD];
    DecodeStep0(e, 0, v0);
    DecodeStep1(e[1..], v0, v1);
    assert DecodeFrom(e[2..][1..], 2, v1 & 0x0F, 1) == Ok([]);
    assert DecodeFrom(e[2..], 2, v1 & 0x0F, 0) == Ok([]);
    assert [x0] + [] == [x0];
  }
}
