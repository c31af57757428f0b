// Helpers shared by the Serato tag parsers: the base64 envelope that FLAC
// and M4A files wrap around a tag, NUL-terminated strings read from a
// stream, and the per-format lookup of a tag's raw data.

module SeratoUtils {
  import opened Wrappers
  import opened Bytes
  import opened Base64
  import opened Canonical
  import opened SeratoTypes

  /** The padding appended to stripped base64 text before decoding: 'A=='
      when the length is 1 more than a multiple of 4, otherwise as many '='
      as bring the length to a multiple of 4. */
  function Padding(n: nat): (p: seq<byte>)
    ensures (n + |p|) % 4 == 0
    ensures n % 4 == 1 ==> p == [UPPER_A, PAD, PAD]
    ensures n % 4 != 1 ==> |p| == (4 - n % 4) % 4 && forall i :: 0 <= i < |p| ==> p[i] == PAD
  {
    if n % 4 == 1 then [UPPER_A, PAD, PAD]
    else if n % 4 == 2 then [PAD, PAD]
    else if n % 4 == 3 then [PAD]
    else []
  }

  /** The decoded envelope: newlines removed, padding restored, base64
      decoded; any decoding failure becomes ValueError. */
  function DecodeEnvelope(data: seq<byte>): (r: Result<seq<byte>>)
    ensures r.Err? ==> r.error == ValueError
  {
    var text := RemoveAll(data, [LF]);
    DecodeErrorIsValueError(text + Padding(|text|));
    Decode(text + Padding(|text|))
  }

  lemma {:induction false} DecodeFromErrorIsValueError(s: seq<byte>, quad: nat, left: byte, pads: nat)
    requires quad < 4
    ensures DecodeFrom(s, quad, left, pads).Err? ==> DecodeFrom(s, quad, left, pads).error == ValueError
    decreases |s|
  {
    if s != [] {
      var v := Value(s[0]);
      if s[0] == PAD {
        if !(quad >= 2 && quad + pads + 1 >= 4) {
          DecodeFromErrorIsValueError(s[1..], quad, left, if quad >= 2 then pads + 1 else pads);
        }
      } else if v >= 64 {
        DecodeFromErrorIsValueError(s[1..], quad, left, pads);
      } else if quad == 0 {
        DecodeFromErrorIsValueError(s[1..], 1, v, 0);
      } else if quad == 1 {
        DecodeFromErrorIsValueError(s[1..], 2, v & 0x0F, 0);
      } else if quad == 2 {
        DecodeFromErrorIsValueError(s[1..], 3, v & 0x03, 0);
      } else {
        DecodeFromErrorIsValueError(s[1..], 0, 0, 0);
      }
    }
  }

  lemma DecodeErrorIsValueError(s: seq<byte>)
    ensures Decode(s).Err? ==> Decode(s).error == ValueError
  {
    DecodeFromErrorIsValueError(s, 0, 0, 0);
  }

  /** parse_serato_envelope as written: the bytes after the first
      occurrence of prefix + NUL. The "marker not found" test compares
      find(...) + len(prefix + NUL) with -1, which can never hold, so an
      absent marker yields the decoded bytes from position len(prefix) on. */
  function ParseSeratoEnvelopeAsWritten(data: seq<byte>, prefix: seq<byte>): (r: Result<seq<byte>>)
    ensures r.Err? <==> DecodeEnvelope(data).Err?
  {
    var decoded :- DecodeEnvelope(data);
    var mkr := prefix + [NUL];
    var offset := Find(decoded, mkr) + |mkr|;
    if offset == -1 then Err(ValueError)
    else Ok(SliceFrom(decoded, offset))
  }

  /** The "marker not found" error is unreachable: when the marker is absent
      the result is everything after the first len(prefix) decoded bytes. */
  lemma MarkerCheckUnreachable(data: seq<byte>, prefix: seq<byte>)
    requires DecodeEnvelope(data).Ok?
    requires forall i :: !OccursAt(DecodeEnvelope(data).value, prefix + [NUL], i)
    ensures ParseSeratoEnvelopeAsWritten(data, prefix) == Ok(SliceFrom(DecodeEnvelope(data).value, |prefix|))
  {
    var d := DecodeEnvelope(data).value;
    assert Find(d, prefix + [NUL]) == -1;
  }

  /** An input that shows it: the empty envelope decodes to nothing, holds no
      marker, and is accepted as an empty payload. */
  lemma EmptyEnvelopeAccepted(prefix: seq<byte>)
    ensures ParseSeratoEnvelopeAsWritten([], prefix) == Ok([])
    ensures ParseSeratoEnvelope([], prefix) == Err(ValueError)
  {
    assert RemoveAll([], [LF]) == [];
    var e: seq<byte> := [];
    assert DecodeEnvelope(e) == Ok([]) by {
      assert Padding(0) == [];
      assert e + Padding(0) == e;
    }
    MarkerCheckUnreachable([], prefix);
  }

  /** parse_serato_envelope with the marker test the error message
      describes: ValueError when prefix + NUL does not occur. */
  function ParseSeratoEnvelope(data: seq<byte>, prefix: seq<byte>): (r: Result<seq<byte>>)
    ensures r.Err? ==> r.error == ValueError
    ensures r.Ok? <==> DecodeEnvelope(data).Ok? && exists i :: OccursAt(DecodeEnvelope(data).value, prefix + [NUL], i)
    ensures r.Ok? ==>
      var d, at := DecodeEnvelope(data).value, Find(DecodeEnvelope(data).value, prefix + [NUL]);
      0 <= at && d == d[..at] + (prefix + [NUL]) + r.value
      && forall i :: 0 <= i < at ==> !OccursAt(d, prefix + [NUL], i)
  {
    var decoded :- DecodeEnvelope(data);
    var mkr := prefix + [NUL];
    var at := Find(decoded, mkr);
    if at == -1 then Err(ValueError)
    else
      var rest := decoded[at + |mkr|..];
      assert decoded == decoded[..at] + mkr + rest by {
        assert decoded[at..at + |mkr|] == mkr;
      }
      Ok(rest)
  }

  /** Where the marker is present both versions return the same bytes. */
  lemma CheckedAgreesWhenMarkerPresent(data: seq<byte>, prefix: seq<byte>)
    requires ParseSeratoEnvelope(data, prefix).Ok?
    ensures ParseSeratoEnvelopeAsWritten(data, prefix) == ParseSeratoEnvelope(data, prefix)
  {
  }

  /** The NUL-terminated string readbytes yields from position pos, and the
      position after it: reading stops after a NUL (which is consumed) or at
      the end of the buffer. */
  function CString(buf: seq<byte>, pos: nat): (r: (seq<byte>, nat))
    requires pos <= |buf|
    ensures pos + |r.0| <= |buf|
    ensures NUL !in r.0
    ensures pos + |r.0| < |buf| ==> buf[pos + |r.0|] == NUL && r.1 == pos + |r.0| + 1
    ensures pos + |r.0| == |buf| ==> r.1 == |buf|
    decreases |buf| - pos
  {
    if pos == |buf| then ([], pos)
    else if buf[pos] == NUL then ([], pos + 1)
    else
      var rest := CString(buf, pos + 1);
      ([buf[pos]] + rest.0, rest.1)
  }

  /** readbytes(fp) joined: one byte read at a time until NUL or the end. */
  method ReadBytes(buf: seq<byte>, pos: nat) returns (s: seq<byte>, next: nat)
    requires pos <= |buf|
    ensures (s, next) == CString(buf, pos)
  {
    s := [];
    next := pos;
    assert s + CString(buf, next).0 == CString(buf, next).0;
    while next < |buf| && buf[next] != NUL
      invariant pos <= next <= |buf|
      invariant s == buf[pos..next] && NUL !in s
      invariant CString(buf, pos) == (s + CString(buf, next).0, CString(buf, next).1)
      decreases |buf| - next
    {
      assert CString(buf, next).0 == [buf[next]] + CString(buf, next + 1).0;
      ConcatAssoc(s, [buf[next]], CString(buf, next + 1).0);
      assert buf[pos..next + 1] == buf[pos..next] + [buf[next]];
      s := s + [buf[next]];
      next := next + 1;
    }
    if next < |buf| {
      assert CString(buf, next) == ([], next + 1);
      next := next + 1;
    } else {
      assert CString(buf, next) == ([], next);
    }
    assert s + [] == s;
  }

  /** A string written with its terminator reads back as itself. */
  lemma {:induction false} CStringWritten(pre: seq<byte>, s: seq<byte>, rest: seq<byte>)
    requires NUL !in s
    ensures CString(pre + s + [NUL] + rest, |pre|) == (s, |pre| + |s| + 1)
    decreases |s|
  {
    var buf := pre + s + [NUL] + rest;
    if s == [] {
      assert buf[|pre|] == NUL;
    } else {
      assert buf == (pre + [s[0]]) + s[1..] + [NUL] + rest;
      CStringWritten(pre + [s[0]], s[1..], rest);
      assert buf[|pre|] == s[0] && s[0] in s;
      assert [s[0]] + s[1..] == s;
    }
  }

  /** A tag's value as the tag library hands it over: absent, a byte string,
      or a frame object of another kind (a text frame, a gain frame). */
  datatype TagData = Absent | Raw(bytes: seq<byte>) | Frame

  /** serato_metadata over the file's tag dictionary: the key is the tag's
      name for the format; FLAC and M4A byte values are unwrapped from the
      envelope by parse_serato_envelope as written, everything else is
      returned untouched. */
  function SeratoMetadata(fmt: AFormat, tag: SeratoTag, tags: map<string, TagData>): (r: Result<TagData>)
    ensures var data := if SeratoTagName(tag, fmt) in tags then tags[SeratoTagName(tag, fmt)] else Absent;
      && (fmt == MP3 || !data.Raw? ==> r == Ok(data))
      && (fmt != MP3 && data.Raw? ==>
            (r.Err? <==> DecodeEnvelope(data.bytes).Err?)
            && (r.Err? ==> r.error == ValueError)
            && (r.Ok? ==>
                  r.value.Raw? && ParseSeratoEnvelopeAsWritten(data.bytes, SeratoTagMarker(tag)) == Ok(r.value.bytes)))
  {
    var name := SeratoTagName(tag, fmt);
    var data := if name in tags then tags[name] else Absent;
    if (fmt == FLAC || fmt == M4A) && data.Raw? then
      var payload :- ParseSeratoEnvelopeAsWritten(data.bytes, SeratoTagMarker(tag));
      Ok(Raw(payload))
    else Ok(data)
  }

  /** serato_metadata with the corrected envelope reader, which rejects a
      FLAC or M4A tag whose envelope holds no marker. */
  function SeratoMetadataChecked(fmt: AFormat, tag: SeratoTag, tags: map<string, TagData>): (r: Result<TagData>)
    ensures var data := if SeratoTagName(tag, fmt) in tags then tags[SeratoTagName(tag, fmt)] else Absent;
      && (fmt == MP3 || !data.Raw? ==> r == Ok(data))
      && (fmt != MP3 && data.Raw? ==>
            (r.Err? ==> r.error == ValueError)
            && (r.Ok? <==> ParseSeratoEnvelope(data.bytes, SeratoTagMarker(tag)).Ok?)
            && (r.Ok? ==>
                  r.value.Raw? && ParseSeratoEnvelope(data.bytes, SeratoTagMarker(tag)) == Ok(r.value.bytes)))
  {
    var name := SeratoTagName(tag, fmt);
    var data := if name in tags then tags[name] else Absent;
    if (fmt == FLAC || fmt == M4A) && data.Raw? then
      var payload :- ParseSeratoEnvelope(data.bytes, SeratoTagMarker(tag));
      Ok(Raw(payload))
    else Ok(data)
  }

  /** Wherever the corrected lookup succeeds, the lookup as written gives
      the same tag data. */
  lemma MetadataAgreesWhenMarkerPresent(fmt: AFormat, tag: SeratoTag, tags: map<string, TagData>)
    requires SeratoMetadataChecked(fmt, tag, tags).Ok?
    ensures SeratoMetadata(fmt, tag, tags) == SeratoMetadataChecked(fmt, tag, tags)
  {
    var name := SeratoTagName(tag, fmt);
    var data := if name in tags then tags[name] else Absent;
    if (fmt == FLAC || fmt == M4A) && data.Raw? {
      CheckedAgreesWhenMarkerPresent(data.bytes, SeratoTagMarker(tag));
    }
  }

  /** An input that shows the difference: an empty FLAC tag is handed over
      as an empty payload as written, and rejected by the corrected lookup. */
  lemma EmptyFlacTagAccepted(tag: SeratoTag, tags: map<string, TagData>)
    requires SeratoTagName(tag, FLAC) in tags && tags[SeratoTagName(tag, FLAC)] == Raw([])
    ensures SeratoMetadata(FLAC, tag, tags) == Ok(Raw([]))
    ensures SeratoMetadataChecked(FLAC, tag, tags) == Err(ValueError)
  {
    EmptyEnvelopeAccepted(SeratoTagMarker(tag));
  }
}
