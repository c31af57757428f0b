// The Serato Autotags tag: version 01 01 and three NUL-terminated ASCII
// decimals, the BPM and the two gain values.

module Autotags {
  import opened Wrappers
  import opened Bytes
  import opened Decimal
  import opened SeratoUtils

  /** The AutoTags namedtuple: the track's BPM and its two gain values. */
  datatype AutoTags = AutoTags(bpm: real, autogain: real, gainDb: real)

  /** bytes.decode('ascii'): a byte of 0x80 or more is a UnicodeDecodeError. */
  function AsciiDecode(b: seq<byte>): (r: Result<string>)
    ensures r.Ok? <==> IsAscii(b)
    ensures r.Ok? ==> |r.value| == |b|
  {
    if !IsAscii(b) then Err(ValueError)
    else Ok(seq(|b|, i requires 0 <= i < |b| => b[i] as int as char))
  }

  /** Each character of the decoded text has its byte's code. */
  lemma AsciiDecodeChars(b: seq<byte>)
    requires IsAscii(b)
    ensures forall i :: 0 <= i < |b| ==> AsciiDecode(b).value[i] as int == b[i] as int
  {
  }

  predicate IsAscii(b: seq<byte>)
  {
    forall i :: 0 <= i < |b| ==> b[i] < 0x80
  }

  lemma AsciiDecodeEncode(s: string)
    requires forall i :: 0 <= i < |s| ==> s[i] as int < 128
    ensures AsciiDecode(Ascii(s)) == Ok(s)
  {
    var b := Ascii(s);
    forall i | 0 <= i < |b| ensures b[i] < 0x80 && b[i] as int == s[i] as int {
      ByteValue(s[i] as int);
    }
    var t := AsciiDecode(b).value;
    AsciiDecodeChars(b);
    assert |t| == |s|;
    forall i | 0 <= i < |s| ensures t[i] == s[i] {
      assert t[i] as int == b[i] as int;
    }
    assert t == s;
  }

  /** The values of the k strings that readbytes yields from pos on, each
      decoded as ASCII and read with float(). */
  function Values(buf: seq<byte>, pos: nat, k: nat): (r: Result<seq<real>>)
    requires pos <= |buf|
    ensures r.Ok? ==> |r.value| == k
    decreases k
  {
    if k == 0 then Ok([])
    else
      var (raw, next) := CString(buf, pos);
      var text :- AsciiDecode(raw);
      var v :- ParseFloat(text);
      Prepend([v], Values(buf, next, k - 1))
  }

  /** autotags.parse: version (1, 1), then three values. */
  function Parse(data: seq<byte>): (r: Result<seq<real>>)
    ensures r.Ok? ==> |r.value| == 3
  {
    if |data| < 2 then Err(StructError)
    else if data[0] != 0x01 || data[1] != 0x01 then Err(AssertionError)
    else Values(data, 2, 3)
  }

  /** autotags.parse drained into a list: three rounds of readbytes and float. */
  method ParseAutotags(data: seq<byte>) returns (r: Result<seq<real>>)
    ensures r == Parse(data)
  {
    if |data| < 2 {
      return Err(StructError);
    }
    if data[0] != 0x01 || data[1] != 0x01 {
      return Err(AssertionError);
    }
    r := ReadValues(data, 2, 3);
  }

  /** The generator's rounds from start on, k of them, collected in order;
      the first failing round ends them all with its error. */
  method ReadValues(data: seq<byte>, start: nat, k: nat) returns (r: Result<seq<real>>)
    requires start <= |data|
    ensures r == Values(data, start, k)
  {
    var pos: nat := start;
    var out: seq<real> := [];
    var left: nat := k;
    PrependNone(Values(data, start, k));
    while left > 0
      invariant pos <= |data|
      invariant Values(data, start, k) == Prepend(out, Values(data, pos, left))
    {
      var failed: Option<Error>;
      failed, out, pos := Round(data, start, k, out, pos, left);
      if failed.Some? {
        return Err(failed.value);
      }
      left := left - 1;
    }
    PrependAll(out, Values(data, pos, left));
    return Ok(out);
  }

  /** One turn of the loop of ReadValues: read a value and append it, or
      report the error that ends the generator. */
  method Round(data: seq<byte>, start: nat, k: nat, out: seq<real>, pos: nat, left: nat)
      returns (failed: Option<Error>, out': seq<real>, pos': nat)
    requires left > 0 && start <= |data| && pos <= |data|
    requires Values(data, start, k) == Prepend(out, Values(data, pos, left))
    ensures failed.Some? ==> Values(data, start, k) == Err(failed.value)
    ensures failed.None? ==> pos' <= |data| && Values(data, start, k) == Prepend(out', Values(data, pos', left - 1))
  {
    var v, next := ReadValue(data, pos, left);
    if v.Err? {
      PrependErr(out, Values(data, pos, left));
      return Some(v.error), out, pos;
    }
    PrependStep(Values(data, start, k), out, Values(data, pos, left), v.value, Values(data, next, left - 1));
    return None, out + [v.value], next;
  }

  /** One round of the generator: readbytes, decode('ascii'), float(). */
  method ReadValue(data: seq<byte>, pos: nat, left: nat) returns (v: Result<real>, next: nat)
    requires 1 <= left && pos <= |data|
    ensures next <= |data|
    ensures v.Ok? ==> Values(data, pos, left) == Prepend([v.value], Values(data, next, left - 1))
    ensures v.Err? ==> Values(data, pos, left) == Err(v.error)
  {
    var raw;
    raw, next := ReadBytes(data, pos);
    var text := AsciiDecode(raw);
    if text.Err? {
      ValuesDecodeFails(data, pos, left, raw, next);
      return Err(text.error), next;
    }
    v := ParseFloat(text.value);
    if v.Err? {
      ValuesFloatFails(data, pos, left, raw, next, text.value);
      return;
    }
    ValuesStep(data, pos, left, raw, next, text.value, v.value);
  }

  /** One value as dump writes it: '{:.{d}f}' in ASCII, then NUL. */
  function Field(x: real, d: nat): (b: seq<byte>)
    requires d >= 1
    ensures |b| >= 1 && b[|b| - 1] == NUL
  {
    var t := FormatFixed(x, d);
    Ascii(t) + [NUL]
  }

  /** autotags.dump(bpm, autogain, gaindb): 01 01, then the BPM with two
      decimals and the gains with three, each NUL-terminated. */
  function Dump(bpm: real, autogain: real, gaindb: real): (data: seq<byte>)
    ensures |data| >= 2 && data[..2] == [0x01, 0x01]
  {
    [0x01, 0x01] + Field(bpm, 2) + Field(autogain, 3) + Field(gaindb, 3)
  }

  /** autotags.dump with its loop over (value, decimals) pairs. */
  method DumpAutotags(bpm: real, autogain: real, gaindb: real) returns (data: seq<byte>)
    ensures data == Dump(bpm, autogain, gaindb)
  {
    var pairs := [(bpm, 2), (autogain, 3), (gaindb, 3)];
    data := [0x01, 0x01];
    for i := 0 to 3
      invariant i == 0 ==> data == [0x01, 0x01]
      invariant i == 1 ==> data == [0x01, 0x01] + Field(bpm, 2)
      invariant i == 2 ==> data == [0x01, 0x01] + Field(bpm, 2) + Field(autogain, 3)
      invariant i == 3 ==> data == Dump(bpm, autogain, gaindb)
    {
      var (value, decimals) := pairs[i];
      data := data + Ascii(FormatFixed(value, decimals));
      data := data + [NUL];
    }
  }

  /** One round of the generator: a terminated string that decodes and reads
      as v. */
  lemma ValuesStep(buf: seq<byte>, pos: nat, k: nat, raw: seq<byte>, next: nat, text: string, v: real)
    requires k >= 1 && pos <= |buf| && next <= |buf|
    requires CString(buf, pos) == (raw, next)
    requires AsciiDecode(raw) == Ok(text) && ParseFloat(text) == Ok(v)
    ensures Values(buf, pos, k) == Prepend([v], Values(buf, next, k - 1))
  {
  }

  /** A round whose string is not ASCII ends the generator with that error. */
  lemma ValuesDecodeFails(buf: seq<byte>, pos: nat, k: nat, raw: seq<byte>, next: nat)
    requires k >= 1 && pos <= |buf| && CString(buf, pos) == (raw, next) && AsciiDecode(raw).Err?
    ensures Values(buf, pos, k) == Err(AsciiDecode(raw).error)
  {
  }

  /** A round whose text float rejects ends the generator with that error. */
  lemma ValuesFloatFails(buf: seq<byte>, pos: nat, k: nat, raw: seq<byte>, next: nat, text: string)
    requires k >= 1 && pos <= |buf| && CString(buf, pos) == (raw, next)
    requires AsciiDecode(raw) == Ok(text) && ParseFloat(text).Err?
    ensures Values(buf, pos, k) == Err(ParseFloat(text).error)
  {
  }

  /** An ASCII text without NUL, written with its terminator in front of any
      bytes, reads back as the value float gives it. */
  lemma TextReads(pre: seq<byte>, t: string, v: real, rest: seq<byte>, k: nat)
    requires forall i :: 0 <= i < |t| ==> 0 < t[i] as int < 128
    requires ParseFloat(t) == Ok(v)
    ensures Values(pre + (Ascii(t) + [NUL]) + rest, |pre|, k + 1)
            == Prepend([v], Values(pre + (Ascii(t) + [NUL]) + rest, |pre + (Ascii(t) + [NUL])|, k))
  {
    var a := Ascii(t);
    var buf := pre + (a + [NUL]) + rest;
    AsciiNoNul(t);
    CStringWritten(pre, a, rest);
    assert buf == pre + a + [NUL] + rest;
    AsciiDecodeEncode(t);
    ValuesStep(buf, |pre|, k + 1, a, |pre + (a + [NUL])|, t, v);
  }

  /** ASCII text without NUL encodes to bytes without NUL. */
  lemma AsciiNoNul(t: string)
    requires forall i :: 0 <= i < |t| ==> 0 < t[i] as int < 128
    ensures NUL !in Ascii(t)
  {
    var a := Ascii(t);
    forall i | 0 <= i < |a| ensures a[i] != NUL {
      ByteValue(t[i] as int);
    }
  }

  /** A field written in front of any bytes reads back as the rounded value. */
  lemma FieldReads(pre: seq<byte>, x: real, d: nat, rest: seq<byte>, k: nat)
    requires d >= 1
    ensures Values(pre + Field(x, d) + rest, |pre|, k + 1)
            == Prepend([Rounded(x, d)], Values(pre + Field(x, d) + rest, |pre + Field(x, d)|, k))
  {
    var t := FormatFixed(x, d);
    assert Field(x, d) == Ascii(t) + [NUL];
    FixedText(x, d);
    TextReads(pre, t, Rounded(x, d), rest, k);
  }

  /** The text of a fixed-point value is plain ASCII without NUL, and float
      reads it as the rounded value. */
  lemma FixedText(x: real, d: nat)
    requires d >= 1
    ensures var t := FormatFixed(x, d);
      (forall i :: 0 <= i < |t| ==> 0 < t[i] as int < 128) && ParseFloat(t) == Ok(Rounded(x, d))
  {
    ParseFormatFixed(x, d);
  }

  /** parse(dump(b, a, g)) gives the three values rounded to 2, 3 and 3
      decimals. */
  lemma ParseDump(bpm: real, autogain: real, gaindb: real)
    ensures Parse(Dump(bpm, autogain, gaindb)) == Ok([Rounded(bpm, 2), Rounded(autogain, 3), Rounded(gaindb, 3)])
  {
    var h: seq<byte> := [0x01, 0x01];
    var f1 := Field(bpm, 2);
    var f2 := Field(autogain, 3);
    var f3 := Field(gaindb, 3);
    assert Dump(bpm, autogain, gaindb) == h + f1 + f2 + f3;
    FieldReads(h + f1 + f2, gaindb, 3, [], 0);
    FieldReads(h + f1, autogain, 3, f3, 1);
    FieldReads(h, bpm, 2, f2 + f3, 2);
    ParseThree(h, f1, f2, f3, Rounded(bpm, 2), Rounded(autogain, 3), Rounded(gaindb, 3));
  }

  /** Three fields that each read back as their value, after the version,
      parse as the three values. */
  lemma ParseThree(h: seq<byte>, f1: seq<byte>, f2: seq<byte>, f3: seq<byte>, v1: real, v2: real, v3: real)
    requires h == [0x01, 0x01]
    requires Values(h + f1 + f2 + f3 + [], |h + f1 + f2|, 1)
             == Prepend([v3], Values(h + f1 + f2 + f3 + [], |h + f1 + f2 + f3|, 0))
    requires Values(h + f1 + f2 + f3, |h + f1|, 2) == Prepend([v2], Values(h + f1 + f2 + f3, |h + f1 + f2|, 1))
    requires Values(h + f1 + (f2 + f3), |h|, 3) == Prepend([v1], Values(h + f1 + (f2 + f3), |h + f1|, 2))
    ensures Parse(h + f1 + f2 + f3) == Ok([v1, v2, v3])
  {
    var data := h + f1 + f2 + f3;
    assert data + [] == data;
    ConcatAssoc(h + f1, f2, f3);
    assert data[0] == 0x01 && data[1] == 0x01;
    assert [v1] + ([v2] + ([v3] + [])) == [v1, v2, v3];
  }

  /** get_serato_autotags: dict(zip(['bpm', 'autogain', 'gaindb'], values)). */
  function Labelled(values: seq<real>): (m: map<string, real>)
    requires |values| == 3
    ensures m.Keys == {"bpm", "autogain", "gaindb"}
    ensures m["bpm"] == values[0] && m["autogain"] == values[1] && m["gaindb"] == values[2]
  {
    map["bpm" := values[0], "autogain" := values[1], "gaindb" := values[2]]
  }
}
