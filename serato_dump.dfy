// The byte encoders of the Serato writer: the Markers2 tag, the BeatGrid
// tag, and the base64 envelope that FLAC and M4A files wrap around a tag.

module SeratoDump {
  import opened Wrappers
  import opened Bytes
  import opened Base64
  import opened SeratoTypes
  import opened SeratoUtils
  import opened SeratoText
  import Utf8
  import Markers2
  import Beatgrid

  // ----- dump_serato_markers_v2 -----

  /** The version bytes in front of the tag and of its decoded payload. */
  const ONE_ONE: seq<byte> := [0x01, 0x01]

  /** The text length under which the tag is NUL-padded (470 bytes with
      the version). */
  const MARKERS2_MIN_TEXT: nat := 468

  /** One entry as the writer lays it out: the class NAME in UTF-8 and a
      NUL, the payload length as '>I', the payload. UnknownEntry has no NAME
      (AttributeError), a flip's dump() is NotImplementedError, a field out
      of range is a struct.error, and so is a length that needs more than 32
      bits. */
  function EntryRecord(e: Markers2.Entry): Result<seq<byte>>
  {
    match Markers2.KindName(Markers2.KindOf(e))
    case None => Err(AttributeError)
    case Some(name) =>
      var payload :- Markers2.DumpEntry(e);
      if |payload| >= 0x1_0000_0000 then Err(StructError)
      else Ok(Utf8.Encode(name) + [NUL] + PackU32(|payload|) + payload)
  }

  /** The records of all entries in order, or the first entry's error. */
  function Records(entries: seq<Markers2.Entry>): Result<seq<byte>>
    decreases |entries|
  {
    if entries == [] then Ok([])
    else
      var head :- EntryRecord(entries[0]);
      Prepend(head, Records(entries[1..]))
  }

  /** The tag text for a payload: b64encode(payload + NUL) with its padding
      removed, then wrapped every 72 characters. */
  function PayloadText(payload: seq<byte>): seq<byte>
  {
    Newlined(RemoveB64Padding(Encode(payload + [NUL])), LINE)
  }

  /** dump_serato_markers_v2 as written: a text of 468 bytes or more gets no
      padding, so no NUL follows it. */
  function DumpMarkers2AsWritten(entries: seq<Markers2.Entry>): Result<seq<byte>>
  {
    var records :- Records(entries);
    Ok(TagAsWritten(records))
  }

  /** The tag dump_serato_markers_v2 writes around the records. */
  function TagAsWritten(records: seq<byte>): seq<byte>
  {
    var text := PayloadText(ONE_ONE + records);
    ONE_ONE + text + (if |text| < MARKERS2_MIN_TEXT then Zeros(MARKERS2_MIN_TEXT - |text|) else [])
  }

  /** dump_serato_markers_v2 with the text always NUL-terminated, which is
      what the reader looks for. */
  function DumpMarkers2(entries: seq<Markers2.Entry>): Result<seq<byte>>
  {
    var records :- Records(entries);
    var text := PayloadText(ONE_ONE + records);
    Ok(ONE_ONE + text + Terminator(text))
  }

  /** What follows the text in the corrected tag: the NUL padding up to 468
      bytes, or a single NUL. */
  function Terminator(text: seq<byte>): seq<byte>
  {
    if |text| < MARKERS2_MIN_TEXT then Zeros(MARKERS2_MIN_TEXT - |text|) else [NUL]
  }

  /** One pass of the writer's loop: the NAME, a NUL, the length, the
      payload. */
  method WriteEntry(e: Markers2.Entry) returns (r: Result<seq<byte>>)
    ensures r == EntryRecord(e)
  {
    var name := Markers2.KindName(Markers2.KindOf(e));
    if name.None? {
      return Err(AttributeError);
    }
    var payload := Markers2.DumpEntry(e);
    if payload.Err? {
      return Err(payload.error);
    }
    if |payload.value| >= 0x1_0000_0000 {
      return Err(StructError);
    }
    var rec := Utf8.Encode(name.value) + [NUL];
    rec := rec + PackU32(|payload.value|);
    rec := rec + payload.value;
    return Ok(rec);
  }

  /** dump_serato_markers_v2 with its loop writing entry after entry to a
      BytesIO. */
  method DumpSeratoMarkers2(entries: seq<Markers2.Entry>) returns (r: Result<seq<byte>>)
    ensures r == DumpMarkers2AsWritten(entries)
  {
    var records := WriteRecords(entries);
    if records.Err? {
      return Err(records.error);
    }
    var tag := WriteTag(records.value);
    return Ok(tag);
  }

  /** The version, the payload and its NUL in base64 with the padding
      removed and wrapped, then the NUL padding up to 470 bytes. */
  method WriteTag(records: seq<byte>) returns (tag: seq<byte>)
    ensures tag == TagAsWritten(records)
  {
    var b64 := Encode(ONE_ONE + records + [NUL]);
    b64 := RemoveB64Padding(b64);
    b64 := InsertNewlines(b64, LINE);
    var padding := if |b64| < MARKERS2_MIN_TEXT then Zeros(MARKERS2_MIN_TEXT - |b64|) else [];
    tag := ONE_ONE + b64 + padding;
  }

  /** The loop of dump_serato_markers_v2: the entries' records written one
      after the other, or the first error. */
  method WriteRecords(entries: seq<Markers2.Entry>) returns (r: Result<seq<byte>>)
    ensures r == Records(entries)
  {
    var records: seq<byte> := [];
    PrependNone(Records(entries));
    assert entries[0..] == entries;
    for i := 0 to |entries|
      invariant Records(entries) == Prepend(records, Records(entries[i..]))
    {
      assert entries[i..][0] == entries[i] && entries[i..][1..] == entries[i + 1..];
      var written := WriteEntry(entries[i]);
      if written.Err? {
        return Err(written.error);
      }
      var rec := written.value;
      PrependAssoc(records, rec, Records(entries[i + 1..]));
      records := records + rec;
    }
    assert entries[|entries|..] == [];
    assert records + [] == records;
    return Ok(records);
  }

  /** The NAME of every entry class is non-empty, NUL-free UTF-8. */
  lemma {:induction false} NameNoNul(k: Markers2.EntryKind)
    requires Markers2.KindName(k).Some?
    ensures Markers2.KindName(k).value != []
    ensures NUL !in Utf8.Encode(Markers2.KindName(k).value)
  {
    var name := Markers2.KindName(k).value;
    assert forall i :: 0 <= i < |name| ==> name[i] != '\0';
    Utf8.EncodeNoNul(name);
  }

  /** Every entry with a NAME dumps at least one byte, so its length is
      never the zero the reader rejects. */
  lemma {:induction false} PayloadNonEmpty(e: Markers2.Entry, b: seq<byte>)
    requires Markers2.KindName(Markers2.KindOf(e)).Some? && Markers2.DumpEntry(e) == Ok(b)
    ensures |b| >= 1
  {
  }

  /** readbytes at the start of a NUL-free string and its NUL gives the
      string and the position after the NUL. */
  lemma {:induction false} CStringAt(buf: seq<byte>, pos: nat, s: seq<byte>)
    requires BytesAt(buf, pos, s + [NUL]) && NUL !in s
    ensures CString(buf, pos) == (s, pos + |s| + 1)
    decreases |s|
  {
    var x := s + [NUL];
    assert x[0] == buf[pos];
    if s != [] {
      assert x[0] == s[0] && x[1..] == s[1..] + [NUL];
      CStringAt(buf, pos + 1, s[1..]);
      assert [s[0]] + s[1..] == s;
    }
  }

  /** One round of the reader over a well-formed record: a name that
      decodes, a positive length, and a payload that loads. */
  lemma {:induction false} EntriesStep(buf: seq<byte>, pos: nat, enc: seq<byte>, p1: nat, name: string, lb: seq<byte>, len: u32, b: seq<byte>, p3: nat, e: Markers2.Entry)
    requires pos <= |buf| && p1 + 4 <= |buf| && len > 0
    requires CString(buf, pos) == (enc, p1)
    requires Utf8.Decode(enc) == Ok(name) && name != []
    requires ReadN(buf, p1, 4) == (lb, p1 + 4) && UnpackU32(lb) == Ok(len)
    requires ReadN(buf, p1 + 4, len) == (b, p3)
    requires Markers2.LoadEntry(Markers2.EntryTypeOf(name), b) == Ok(e)
    ensures p3 <= |buf|
    ensures Markers2.Entries(buf, pos) == Prepend([e], Markers2.Entries(buf, p3))
  {
  }

  /** What the writer puts in the record of a dumpable entry, in the terms
      the reader works with: the encoded name, the payload, and the entry
      the payload loads as. */
  lemma {:induction false} RecordParts(e: Markers2.Entry, rec: seq<byte>) returns (enc: seq<byte>, name: string, lb: seq<byte>, b: seq<byte>)
    requires EntryRecord(e) == Ok(rec) && Markers2.Dumpable(e)
    ensures rec == enc + [NUL] + lb + b
    ensures |lb| == 4 && UnpackU32(lb) == Ok(|b|) && 1 <= |b|
    ensures NUL !in enc && Utf8.Decode(enc) == Ok(name) && name != []
    ensures Markers2.LoadEntry(Markers2.EntryTypeOf(name), b) == Ok(e)
  {
    var k := Markers2.KindOf(e);
    name := Markers2.KindName(k).value;
    enc := Utf8.Encode(name);
    b := Markers2.DumpEntry(e).value;
    lb := PackU32(|b|);
    NameNoNul(k);
    Utf8.DecodeEncode(name);
    PayloadNonEmpty(e, b);
    UnpackPackU32(|b|);
    Markers2.EntryTypeOfName(k);
    Markers2.LoadDump(e);
  }

  /** Where the reader finds the pieces of a record at pos: the name up to
      the NUL, the four length bytes, the payload. */
  lemma {:induction false} RecordLayout(buf: seq<byte>, pos: nat, enc: seq<byte>, lb: seq<byte>, b: seq<byte>, p1: nat, p3: nat)
    requires BytesAt(buf, pos, enc + [NUL] + lb + b) && NUL !in enc && |lb| == 4
    requires p1 == pos + |enc| + 1 && p3 == p1 + 4 + |b|
    ensures p3 <= |buf|
    ensures CString(buf, pos) == (enc, p1)
    ensures ReadN(buf, p1, 4) == (lb, p1 + 4)
    ensures ReadN(buf, p1 + 4, |b|) == (b, p3)
  {
    BytesAtSplit(buf, pos, enc + [NUL] + lb, b, p1 + 4);
    BytesAtSplit(buf, pos, enc + [NUL], lb, p1);
    CStringAt(buf, pos, enc);
    ReadNAt(buf, p1, lb);
    ReadNAt(buf, p1 + 4, b);
  }

  /** A record of an entry that loads from its payload is read back as that
      entry. */
  lemma {:induction false} RecordAt(buf: seq<byte>, pos: nat, rec: seq<byte>, enc: seq<byte>, name: string, lb: seq<byte>, b: seq<byte>, e: Markers2.Entry, next: nat)
    requires rec == enc + [NUL] + lb + b && BytesAt(buf, pos, rec) && next == pos + |rec|
    requires |lb| == 4 && 1 <= |b| < 0x1_0000_0000 && UnpackU32(lb) == Ok(|b|) && NUL !in enc
    requires Utf8.Decode(enc) == Ok(name) && name != []
    requires Markers2.LoadEntry(Markers2.EntryTypeOf(name), b) == Ok(e)
    ensures next <= |buf|
    ensures Markers2.Entries(buf, pos) == Prepend([e], Markers2.Entries(buf, next))
  {
    var p1 := pos + |enc| + 1;
    assert next == p1 + 4 + |b|;
    RecordLayout(buf, pos, enc, lb, b, p1, next);
    EntriesStep(buf, pos, enc, p1, name, lb, |b|, b, next, e);
  }

  /** The records of a non-empty list: the first entry's record, then the
      records of the others. */
  lemma {:induction false} RecordsCons(entries: seq<Markers2.Entry>, rs: seq<byte>) returns (rec: seq<byte>, rest: seq<byte>)
    requires entries != [] && Records(entries) == Ok(rs)
    ensures rs == rec + rest && EntryRecord(entries[0]) == Ok(rec) && Records(entries[1..]) == Ok(rest)
  {
    rec := EntryRecord(entries[0]).value;
    rest := Records(entries[1..]).value;
  }

  /** The first entry of a dumpable list and the others are dumpable. */
  lemma AllDumpableCons(entries: seq<Markers2.Entry>)
    requires entries != [] && AllDumpable(entries)
    ensures Markers2.Dumpable(entries[0]) && AllDumpable(entries[1..])
  {
  }

  /** Every entry of the list has a NAME and dumps. */
  predicate AllDumpable(entries: seq<Markers2.Entry>)
    decreases |entries|
  {
    entries == [] || (Markers2.Dumpable(entries[0]) && AllDumpable(entries[1..]))
  }

  /** AllDumpable is the entry-by-entry condition. */
  lemma {:induction false} AllDumpableEach(entries: seq<Markers2.Entry>)
    requires forall i :: 0 <= i < |entries| ==> Markers2.Dumpable(entries[i])
    ensures AllDumpable(entries)
    decreases |entries|
  {
    if entries != [] {
      AllDumpableEach(entries[1..]);
    }
  }

  /** The end of the list: the end of the data, or a NUL. */
  lemma {:induction false} EntriesEnd(buf: seq<byte>, pos: nat, tail: seq<byte>)
    requires tail == [] || tail == [NUL]
    requires BytesAt(buf, pos, tail) && pos + |tail| == |buf|
    ensures Markers2.Entries(buf, pos) == Ok([])
  {
    if tail == [] {
      assert CString(buf, pos) == ([], pos);
    } else {
      assert [] + [NUL] == tail;
      CStringAt(buf, pos, []);
    }
    assert Utf8.Decode([]) == Ok([]);
  }

  /** The reader's step over the first record of a non-empty list: the
      records of the others follow it. */
  lemma {:induction false} RecordsReadStep(buf: seq<byte>, pos: nat, entries: seq<Markers2.Entry>, rs: seq<byte>, tail: seq<byte>)
    returns (rest: seq<byte>, next: nat)
    requires entries != [] && Records(entries) == Ok(rs) && AllDumpable(entries)
    requires BytesAt(buf, pos, rs + tail) && pos + |rs| + |tail| == |buf|
    ensures Records(entries[1..]) == Ok(rest) && AllDumpable(entries[1..])
    ensures BytesAt(buf, next, rest + tail) && next + |rest| + |tail| == |buf|
    ensures Markers2.Entries(buf, pos) == Prepend([entries[0]], Markers2.Entries(buf, next))
  {
    var rec;
    rec, rest := RecordsCons(entries, rs);
    AllDumpableCons(entries);
    ConcatAssoc(rec, rest, tail);
    next := RecordThenRest(buf, pos, entries[0], rec, rest + tail);
  }

  /** A dumpable entry's record at pos, other bytes after it: the reader
      takes the entry and goes on after the record. */
  lemma {:induction false} RecordThenRest(buf: seq<byte>, pos: nat, e: Markers2.Entry, rec: seq<byte>, more: seq<byte>)
    returns (next: nat)
    requires EntryRecord(e) == Ok(rec) && Markers2.Dumpable(e)
    requires BytesAt(buf, pos, rec + more)
    ensures next == pos + |rec| && BytesAt(buf, next, more)
    ensures Markers2.Entries(buf, pos) == Prepend([e], Markers2.Entries(buf, next))
  {
    var enc, name, lb, b := RecordParts(e, rec);
    next := pos + |rec|;
    BytesAtSplit(buf, pos, rec, more, next);
    RecordAt(buf, pos, rec, enc, name, lb, b, e, next);
  }

  /** Records of dumpable entries, followed by nothing or by one NUL at the
      end of the data, read back as those entries. */
  lemma {:induction false} RecordsRead(buf: seq<byte>, pos: nat, entries: seq<Markers2.Entry>, rs: seq<byte>, tail: seq<byte>)
    requires Records(entries) == Ok(rs) && AllDumpable(entries)
    requires tail == [] || tail == [NUL]
    requires BytesAt(buf, pos, rs + tail) && pos + |rs| + |tail| == |buf|
    ensures Markers2.Entries(buf, pos) == Ok(entries)
    decreases |entries|
  {
    if entries == [] {
      assert rs + tail == tail;
      EntriesEnd(buf, pos, tail);
    } else {
      var rest, next := RecordsReadStep(buf, pos, entries, rs, tail);
      RecordsRead(buf, next, entries[1..], rest, tail);
      PrependCons(entries, Markers2.Entries(buf, next));
    }
  }

  /** What the reader recovers from the text of a payload: the text holds no
      NUL, deleting its newlines gives the stripped base64, and that decodes
      to the payload, followed by the NUL unless remove_b64padding took it. */
  lemma {:induction false} PayloadTextReads(p: seq<byte>)
    ensures var s := RemoveB64Padding(Encode(p + [NUL]));
      && NUL !in PayloadText(p)
      && RemoveAll(PayloadText(p), [LF]) == s
      && Decode(s + Padding(|s|)) == Ok(if (|p| + 1) % 3 == 2 then p else p + [NUL])
      && |PayloadText(p)| + 3 >= |Encode(p + [NUL])|
  {
    var y := p + [NUL];
    var s := RemoveB64Padding(Encode(y));
    StrippedEncode(y);
    WrapAbsent(s, LINE, NUL);
    NewlinesRemoved(s, LINE);
    NewlinedLength(s, LINE);
    if (|p| + 1) % 3 == 2 {
      assert y[|y| - 1] == NUL && y[..|y| - 1] == p;
    }
  }

  /** The first NUL after the version is the one that ends the text. */
  lemma {:induction false} TextEnd(text: seq<byte>, pad: seq<byte>)
    requires NUL !in text && |pad| > 0 && pad[0] == NUL
    ensures IndexOfFrom(ONE_ONE + text + pad, NUL, 2) == 2 + |text|
    ensures (ONE_ONE + text + pad)[2..2 + |text|] == text
  {
    var d := ONE_ONE + text + pad;
    Middle(ONE_ONE, text, pad);
    assert d[2 + |text|] == NUL;
    forall i | 2 <= i < 2 + |text| ensures d[i] != NUL {
      assert d[i] == d[2..2 + |text|][i - 2];
    }
  }

  /** The reader's steps over a tag whose text ends at a NUL and decodes
      to a payload that starts with the version. */
  lemma {:induction false} ParseSteps(d: seq<byte>, s: seq<byte>, payload: seq<byte>)
    requires |d| >= 2 && d[0] == 1 && d[1] == 1
    requires Markers2.Markers2Text(d) == Ok(s) && Decode(s + Padding(|s|)) == Ok(payload)
    requires |payload| >= 2 && payload[0] == 1 && payload[1] == 1
    ensures Markers2.Parse(d) == Markers2.Entries(payload, 2)
  {
  }

  /** The corrected tag of a payload decodes back to the payload, followed
      by the NUL unless remove_b64padding took it. */
  lemma {:induction false} TagPayload(p: seq<byte>) returns (tail: seq<byte>)
    requires |p| >= 2 && p[0] == 1 && p[1] == 1
    ensures tail == [] || tail == [NUL]
    ensures Markers2.Parse(ONE_ONE + PayloadText(p) + Terminator(PayloadText(p))) == Markers2.Entries(p + tail, 2)
  {
    var text := PayloadText(p);
    var pad := Terminator(text);
    var d := ONE_ONE + text + pad;
    PayloadTextReads(p);
    TextEnd(text, pad);
    var s := RemoveB64Padding(Encode(p + [NUL]));
    assert Markers2.Markers2Text(d) == Ok(s);
    tail := if (|p| + 1) % 3 == 2 then [] else [NUL];
    assert p + [] == p;
    ParseSteps(d, s, p + tail);
  }

  /** The corrected tag reads back as the entries it was written from. */
  lemma {:induction false} Markers2RoundTrip(entries: seq<Markers2.Entry>)
    requires DumpMarkers2(entries).Ok?
    requires forall i :: 0 <= i < |entries| ==> Markers2.Dumpable(entries[i])
    ensures Markers2.Parse(DumpMarkers2(entries).value) == Ok(entries)
  {
    var rs := Records(entries).value;
    var tail := TagPayload(ONE_ONE + rs);
    AllDumpableEach(entries);
    ConcatAssoc(ONE_ONE, rs, tail);
    BytesAtEnd(ONE_ONE, rs + tail);
    RecordsRead(ONE_ONE + rs + tail, 2, entries, rs, tail);
  }

  /** The defect of the tag as written: once the text reaches 468 bytes no
      NUL follows it, and the reader, which needs one, raises ValueError. A
      payload of 351 bytes or more always gets there; below 468 the tag is
      the corrected one. */
  lemma {:induction false} Markers2AsWrittenUnreadable(entries: seq<Markers2.Entry>)
    requires Records(entries).Ok?
    ensures var text := PayloadText(ONE_ONE + Records(entries).value);
      && (|text| >= MARKERS2_MIN_TEXT ==> Markers2.Parse(DumpMarkers2AsWritten(entries).value) == Err(ValueError))
      && (|Records(entries).value| >= 349 ==> |text| >= MARKERS2_MIN_TEXT)
      && (|text| < MARKERS2_MIN_TEXT ==> DumpMarkers2AsWritten(entries) == DumpMarkers2(entries))
  {
    var rs := Records(entries).value;
    var p := ONE_ONE + rs;
    var text := PayloadText(p);
    PayloadTextReads(p);
    if |text| >= MARKERS2_MIN_TEXT {
      assert DumpMarkers2AsWritten(entries).value == ONE_ONE + text + [];
      assert ONE_ONE + text + [] == ONE_ONE + text;
      Unterminated(text);
    }
    if |rs| >= 349 {
      LongText(p);
    }
  }

  /** A text with no NUL after the version: the reader finds no end to it. */
  lemma {:induction false} Unterminated(text: seq<byte>)
    requires NUL !in text
    ensures Markers2.Parse(ONE_ONE + text) == Err(ValueError)
  {
    var d := ONE_ONE + text;
    forall i | 2 <= i < |d| ensures d[i] != NUL {
      assert d[i] == text[i - 2];
    }
    assert IndexOfFrom(d, NUL, 2) == -1;
  }

  /** A payload of 351 bytes or more has a text of at least 468 bytes. */
  lemma {:induction false} LongText(p: seq<byte>)
    requires |p| >= 351
    ensures |PayloadText(p)| >= MARKERS2_MIN_TEXT
  {
    PayloadTextReads(p);
    assert |Encode(p + [NUL])| == 4 * ((|p| + 3) / 3);
    assert (|p| + 3) / 3 >= 118;
  }

  // ----- dump_serato_beatgrid -----

  /** The version bytes of the BeatGrid tag. */
  const ONE_ZERO: seq<byte> := [0x01, 0x00]

  /** Item i of a list that declares n markers, as the writer's match lays
      it out: a terminal marker only at n - 1, a non-terminal one only below
      it, the footer only at n (each misplacement an AssertionError); a beat
      count outside '>I' or a footer outside 'B' is a struct.error. */
  function ItemBytes(it: Beatgrid.Item<Beatgrid.F32>, i: nat, n: nat): Result<seq<byte>>
  {
    match it
    case Terminal(p, b) =>
      if i != n - 1 then Err(AssertionError) else Ok(p + b)
    case NonTerminal(p, k) =>
      if i >= n - 1 then Err(AssertionError)
      else if k < 0 || k >= 0x1_0000_0000 then Err(StructError)
      else Ok(p + PackU32(k))
    case Footer(u) =>
      if i != n then Err(AssertionError)
      else if u < 0 || u >= 256 then Err(StructError)
      else Ok([u as byte])
  }

  /** The bytes of the items from index i on, or the first item's error. */
  function ItemsBytes(items: seq<Beatgrid.Item<Beatgrid.F32>>, i: nat, n: nat): Result<seq<byte>>
    decreases |items| - i
  {
    if i >= |items| then Ok([])
    else
      var chunk :- ItemBytes(items[i], i, n);
      Prepend(chunk, ItemsBytes(items, i + 1, n))
  }

  /** The tag bytes before insert_newlines: version, the marker count
      len(bg) - 1 as '>I' (a struct.error for an empty list), the items. */
  function DumpBeatgrid(items: seq<Beatgrid.Item<Beatgrid.F32>>): Result<seq<byte>>
  {
    var n := |items| - 1;
    if n < 0 || n >= 0x1_0000_0000 then Err(StructError)
    else Prepend(ONE_ZERO + PackU32(n), ItemsBytes(items, 0, n))
  }

  /** dump_serato_beatgrid as written: the binary tag passed through
      insert_newlines, which puts a '\n' after every 72nd byte of a tag
      longer than 72 bytes. */
  function DumpBeatgridAsWritten(items: seq<Beatgrid.Item<Beatgrid.F32>>): Result<seq<byte>>
  {
    var d :- DumpBeatgrid(items);
    Ok(Newlined(d, LINE))
  }

  /** dump_serato_beatgrid with its loop writing the items one by one. */
  method DumpSeratoBeatgrid(items: seq<Beatgrid.Item<Beatgrid.F32>>) returns (r: Result<seq<byte>>)
    ensures r == DumpBeatgridAsWritten(items)
  {
    var n := |items| - 1;
    if n < 0 || n >= 0x1_0000_0000 {
      return Err(StructError);
    }
    var body: seq<byte> := [];
    PrependNone(ItemsBytes(items, 0, n));
    for i := 0 to |items|
      invariant ItemsBytes(items, 0, n) == Prepend(body, ItemsBytes(items, i, n))
    {
      var chunk := ItemBytes(items[i], i, n);
      if chunk.Err? {
        return Err(chunk.error);
      }
      PrependAssoc(body, chunk.value, ItemsBytes(items, i + 1, n));
      body := body + chunk.value;
    }
    assert body + [] == body;
    var data := ONE_ZERO + PackU32(n) + body;
    var wrapped := InsertNewlines(data, LINE);
    return Ok(wrapped);
  }

  /** The item conditions the writer checks: its place in a list of n
      markers and the range of its integer field. */
  predicate Fits(it: Beatgrid.Item<Beatgrid.F32>, i: nat, n: nat)
  {
    match it
    case Terminal(_, _) => i == n - 1
    case NonTerminal(_, k) => i < n - 1 && 0 <= k < 0x1_0000_0000
    case Footer(u) => i == n && 0 <= u < 256
  }

  /** The items from i on are written exactly when each fits its place. */
  lemma {:induction false} ItemsBytesOk(items: seq<Beatgrid.Item<Beatgrid.F32>>, i: nat, n: nat)
    requires i <= |items|
    ensures ItemsBytes(items, i, n).Ok? <==> forall j :: i <= j < |items| ==> Fits(items[j], j, n)
    decreases |items| - i
  {
    if i < |items| {
      ItemsBytesOk(items, i + 1, n);
      assert ItemBytes(items[i], i, n).Ok? <==> Fits(items[i], i, n);
    }
  }

  /** Every integer field in range: beat counts for '>I', the footer for
      'B'. */
  predicate InRange(it: Beatgrid.Item<Beatgrid.F32>)
  {
    match it
    case Terminal(_, _) => true
    case NonTerminal(_, k) => 0 <= k < 0x1_0000_0000
    case Footer(u) => 0 <= u < 256
  }

  /** The writer accepts a list exactly when it is in the order the tag
      stores (markers, terminal last, then the footer), has fewer than 2^32
      markers and every integer field is in range. */
  lemma DumpBeatgridOk(items: seq<Beatgrid.Item<Beatgrid.F32>>)
    ensures DumpBeatgrid(items).Ok? <==>
      && Beatgrid.Ordered(items) && |items| <= 0x1_0000_0000
      && forall i :: 0 <= i < |items| ==> InRange(items[i])
  {
    var n := |items| - 1;
    if 0 <= n < 0x1_0000_0000 {
      ItemsBytesOk(items, 0, n);
      if forall j :: 0 <= j < |items| ==> Fits(items[j], j, n) {
        assert items[n].Footer?;
        forall j | 0 <= j < |items| ensures InRange(items[j]) {
          assert Fits(items[j], j, n);
        }
      }
      if Beatgrid.Ordered(items) && forall j :: 0 <= j < |items| ==> InRange(items[j]) {
        forall j | 0 <= j < |items| ensures Fits(items[j], j, n) {
          assert InRange(items[j]);
        }
      }
    }
  }

  /** The two words of marker i as the writer lays them out, and the marker
      the reader builds from them. */
  lemma {:induction false} MarkerWords(it: Beatgrid.Item<Beatgrid.F32>, i: nat, n: nat, chunk: seq<byte>) returns (w: Beatgrid.F32, d: Beatgrid.F32)
    requires i < n && ItemBytes(it, i, n) == Ok(chunk)
    ensures chunk == w + d
    ensures it == if i == n - 1 then Beatgrid.Terminal(w, d) else Beatgrid.NonTerminal(w, FromBE(d))
  {
    match it
    case Terminal(p, b) =>
      w, d := p, b;
    case NonTerminal(p, k) =>
      w, d := p, PackU32(k);
  }

  /** The reader's step over one marker's eight bytes at pos. */
  lemma {:induction false} MarkerAt(buf: seq<byte>, pos: nat, i: nat, n: nat, w: Beatgrid.F32, d: Beatgrid.F32, next: nat)
    requires i < n && BytesAt(buf, pos, w + d) && next == pos + 8
    ensures next <= |buf|
    ensures Beatgrid.Records(buf, pos, i, n)
      == Prepend([if i == n - 1 then Beatgrid.Terminal(w, d) else Beatgrid.NonTerminal(w, FromBE(d))], Beatgrid.Records(buf, next, i + 1, n))
  {
    BytesAtSplit(buf, pos, w, d, pos + 4);
    ReadNAt(buf, pos, w);
    ReadNAt(buf, pos + 4, d);
  }

  /** The reader's last step: the footer byte at pos. */
  lemma {:induction false} FooterAt(buf: seq<byte>, pos: nat, n: nat, u: int)
    requires 0 <= u < 256 && BytesAt(buf, pos, [u as byte])
    ensures Beatgrid.Records(buf, pos, n, n) == Ok([Beatgrid.Footer(u)])
  {
    ReadNAt(buf, pos, [u as byte]);
    ByteValue(u);
  }

  /** The items from i on, written at pos, are read back from pos. */
  lemma {:induction false} ItemsRead(buf: seq<byte>, pos: nat, items: seq<Beatgrid.Item<Beatgrid.F32>>, i: nat, n: nat, bs: seq<byte>)
    requires |items| == n + 1 && i <= n
    requires ItemsBytes(items, i, n) == Ok(bs) && BytesAt(buf, pos, bs)
    ensures Beatgrid.Records(buf, pos, i, n) == Ok(items[i..])
    decreases n - i
  {
    var chunk := ItemBytes(items[i], i, n).value;
    var rest := ItemsBytes(items, i + 1, n).value;
    assert bs == chunk + rest;
    var next := pos + |chunk|;
    BytesAtSplit(buf, pos, chunk, rest, next);
    if i == n {
      var u := items[n].unknown;
      assert chunk == [u as byte];
      FooterAt(buf, pos, n, u);
      assert items[i..] == [items[n]];
    } else {
      var w, d := MarkerWords(items[i], i, n, chunk);
      MarkerAt(buf, pos, i, n, w, d, next);
      ItemsRead(buf, next, items, i + 1, n, rest);
      assert items[i..] == [items[i]] + items[i + 1..];
    }
  }

  /** The corrected tag reads back as the list it was written from. */
  lemma {:induction false} BeatgridRoundTrip(items: seq<Beatgrid.Item<Beatgrid.F32>>)
    requires DumpBeatgrid(items).Ok?
    ensures Beatgrid.Parse(DumpBeatgrid(items).value) == Ok(items)
  {
    var n := |items| - 1;
    var head := ONE_ZERO + PackU32(n);
    var bs := ItemsBytes(items, 0, n).value;
    var data := head + bs;
    assert DumpBeatgrid(items).value == data;
    BytesAtEnd(head, bs);
    assert data[2..6] == PackU32(n);
    UnpackPackU32(n);
    ItemsRead(data, 6, items, 0, n, bs);
    assert items[0..] == items;
  }

  /** A tag of nine markers or more, passed through insert_newlines, still
      parses, and the third byte of marker 8's position is the '\n' put at
      byte 72. */
  lemma {:induction false} WrappedMarker8(d: seq<byte>)
    requires Beatgrid.Parse(d).Ok? && |Beatgrid.Parse(d).value| >= 10
    ensures var r := Beatgrid.Parse(Newlined(d, LINE));
      r.Ok? && |r.value| >= 10 && !r.value[8].Footer? && r.value[8].position[2] == LF
  {
    Beatgrid.ParseLayout(d);
    var n := Beatgrid.Count(d);
    var wd := Newlined(d, LINE);
    assert |d| > LINE;
    WrapLayout(d, LINE);
    assert wd[..LINE] == d[..LINE] && wd[LINE] == LF;
    assert wd[0] == d[0] && wd[1] == d[1];
    assert wd[2..6] == d[2..6];
    Beatgrid.ParseLayout(wd);
    assert Beatgrid.Count(wd) == n;
    assert Beatgrid.Parse(wd).value[8] == Beatgrid.ItemAt(wd, n, 8);
    assert Beatgrid.ItemAt(wd, n, 8).position == wd[70..74];
  }

  /** The defect of the tag as written: a list of ten items or more makes a
      tag longer than 72 bytes, insert_newlines puts a '\n' at byte 72, the
      third byte of marker 8's position, and the reader returns that byte in
      place of the one written. */
  lemma {:induction false} BeatgridAsWrittenCorrupt(items: seq<Beatgrid.Item<Beatgrid.F32>>)
    requires DumpBeatgrid(items).Ok? && |items| >= 10
    requires !items[8].Footer? && items[8].position[2] != LF
    ensures Beatgrid.Parse(DumpBeatgridAsWritten(items).value) != Ok(items)
  {
    var d := DumpBeatgrid(items).value;
    BeatgridRoundTrip(items);
    WrappedMarker8(d);
  }

  // ----- add_envelope -----

  /** "application/octet-stream", the MIME type at the head of every
      envelope. */
  const MIME: seq<byte> := [0x61, 0x70, 0x70, 0x6C, 0x69, 0x63, 0x61, 0x74, 0x69, 0x6F, 0x6E, 0x2F,
                            0x6F, 0x63, 0x74, 0x65, 0x74, 0x2D, 0x73, 0x74, 0x72, 0x65, 0x61, 0x6D]

  /** The decoded bytes in front of the payload: the MIME type, two NULs, the
      tag's marker and a NUL. */
  function EnvelopePrefix(tag: SeratoTag): (r: seq<byte>)
    ensures |r| == 42
  {
    MIME + [NUL, NUL] + SeratoTagMarker(tag) + [NUL]
  }

  /** envelope_padding_min_len: Markers2 payloads are NUL-padded to 515
      bytes, the others not at all. */
  function EnvelopePaddingMinLen(tag: SeratoTag): nat
  {
    if tag == MARKERS2 then 515 else 0
  }

  /** The payload as the envelope carries it: Autotags and BeatGrid get a
      NUL after them. */
  function Framed(data: seq<byte>, tag: SeratoTag): seq<byte>
  {
    if tag == AUTOTAGS || tag == BEATGRID then data + [NUL] else data
  }

  /** The payload followed by NULs up to the tag's minimum length. */
  function PadTo(payload: seq<byte>, tag: SeratoTag): seq<byte>
  {
    var min := EnvelopePaddingMinLen(tag);
    payload + (if |payload| < min then Zeros(min - |payload|) else [])
  }

  /** The envelope text around decoded bytes: base64, wrapped every 72
      characters, then stripped of '=' (and of 'A=' pairs). */
  function EnvelopeText(tag: SeratoTag, body: seq<byte>): seq<byte>
  {
    RemoveB64Padding(Newlined(Encode(EnvelopePrefix(tag) + body), LINE))
  }

  /** add_envelope as written: remove_b64padding is applied to the raw
      payload as well, deleting every '=' byte (and every 'A=' pair) of it. */
  function AddEnvelopeAsWritten(data: seq<byte>, tag: SeratoTag): seq<byte>
  {
    EnvelopeText(tag, PadTo(RemoveB64Padding(Framed(data, tag)), tag))
  }

  /** add_envelope with the payload left as it is; only the base64 text is
      stripped of its padding. */
  function AddEnvelope(data: seq<byte>, tag: SeratoTag): seq<byte>
  {
    EnvelopeText(tag, PadTo(Framed(data, tag), tag))
  }

  /** The marker, a NUL after it, sits at byte 26 of the decoded envelope
      and nowhere before: the MIME type holds no 'S'. */
  lemma {:induction false} MarkerFirstAt(tag: SeratoTag, rest: seq<byte>)
    ensures Find(EnvelopePrefix(tag) + rest, SeratoTagMarker(tag) + [NUL]) == 26
  {
    var m := SeratoTagMarker(tag);
    var mkr := m + [NUL];
    var d := EnvelopePrefix(tag) + rest;
    assert d == (MIME + [NUL, NUL]) + mkr + rest;
    assert d[26..42] == mkr;
    assert OccursAt(d, mkr, 26);
    assert 0x53 !in MIME;
    assert mkr[0] == 0x53;
    forall i | 0 <= i < 26 ensures !OccursAt(d, mkr, i) {
      assert d[i] == (MIME + [NUL, NUL])[i] && d[i] != 0x53;
      if i + |mkr| <= |d| {
        assert d[i..i + |mkr|][0] == d[i];
      }
    }
  }

  /** Decoding stripped base64 keeps every byte after the 42-byte prefix
      that Kept keeps. */
  lemma KeptAfterPrefix(pre: seq<byte>, b: seq<byte>)
    requires |pre| == 42
    ensures Kept(pre + b) == pre + Kept(b)
  {
    if b != [] {
      assert (pre + b)[|pre + b| - 1] == b[|b| - 1];
      if |b| % 3 == 2 && b[|b| - 1] & 0x0F == 0 {
        assert (pre + b)[..|pre + b| - 1] == pre + b[..|b| - 1];
      }
    } else {
      assert pre + b == pre;
    }
  }

  /** The reader of an envelope around body bytes: the bytes after the
      marker are body, less a last byte that the stripped padding loses. */
  lemma {:induction false} EnvelopeReads(tag: SeratoTag, body: seq<byte>)
    ensures ParseSeratoEnvelope(EnvelopeText(tag, body), SeratoTagMarker(tag)) == Ok(Kept(body))
  {
    var pre := EnvelopePrefix(tag);
    var y := pre + body;
    NewlinedStripRemoved(y);
    StrippedEncode(y);
    KeptAfterPrefix(pre, body);
    var text := EnvelopeText(tag, body);
    assert DecodeEnvelope(text) == Ok(pre + Kept(body));
    MarkerFirstAt(tag, Kept(body));
    assert (pre + Kept(body))[42..] == Kept(body);
  }

  /** Kept drops at most one byte, at the end. */
  lemma KeptPrefix(b: seq<byte>)
    ensures Kept(b) <= b && |Kept(b)| + 1 >= |b|
  {
  }

  /** The corrected envelope reads back as the payload, its NUL and its
      padding, less a last byte that the stripped padding may lose; the
      payload itself survives whenever anything follows it. */
  lemma AddEnvelopeRoundTrip(data: seq<byte>, tag: SeratoTag)
    ensures ParseSeratoEnvelope(AddEnvelope(data, tag), SeratoTagMarker(tag)) == Ok(Kept(PadTo(Framed(data, tag), tag)))
    ensures |PadTo(Framed(data, tag), tag)| > |data| ==> data <= Kept(PadTo(Framed(data, tag), tag))
  {
    var body := PadTo(Framed(data, tag), tag);
    EnvelopeReads(tag, body);
    KeptPrefix(body);
    assert data <= body;
  }

  /** The defect of the envelope as written: the reader gets back bytes with
      no '=' in them, so a payload holding an '=' byte (0x3D, which a beat
      grid's float or a count can contain) never comes back. */
  lemma AddEnvelopeAsWrittenLoses(data: seq<byte>, tag: SeratoTag)
    ensures var r := ParseSeratoEnvelope(AddEnvelopeAsWritten(data, tag), SeratoTagMarker(tag));
      && r.Ok? && PAD !in r.value
      && (PAD in data ==> !(data <= r.value))
  {
    var trimmed := RemoveB64Padding(Framed(data, tag));
    var body := PadTo(trimmed, tag);
    EnvelopeReads(tag, body);
    KeptPrefix(body);
    assert PAD !in body;
  }
}
