// The legacy "Serato Markers_" tag: a (2, 5) header, a count, that many
// 22-byte cue/loop records and a final colour record. Three-byte values are
// stored as four 7-bit bytes ("serato32").

module Markers {
  import opened Wrappers
  import opened Bytes

  // ----- serato32 -----

  /** serato32encode on three bytes: 24 bits spread over four bytes of 3, 7,
      7 and 7 bits. */
  function Encode3(a: byte, b: byte, c: byte): seq<byte>
  {
    var z := c & 0x7F;
    var y := ((c >> 7) | (b << 1)) & 0x7F;
    var x := ((b >> 6) | (a << 2)) & 0x7F;
    var w := a >> 5;
    [w, x, y, z]
  }

  /** serato32decode on four bytes. */
  function Decode4(w: byte, x: byte, y: byte, z: byte): seq<byte>
  {
    var c := (z & 0x7F) | ((y & 0x01) << 7);
    var b := ((y & 0x7F) >> 1) | ((x & 0x03) << 6);
    var a := ((x & 0x7F) >> 2) | ((w & 0x07) << 5);
    [a, b, c]
  }

  /** serato32encode and serato32decode on a three- and a four-byte string. */
  function EncodeTriple(t: seq<byte>): (w: seq<byte>)
    requires |t| == 3
    ensures |w| == 4
  {
    Encode3(t[0], t[1], t[2])
  }

  function DecodeWord(w: seq<byte>): (t: seq<byte>)
    requires |w| == 4
    ensures |t| == 3
  {
    Decode4(w[0], w[1], w[2], w[3])
  }

  lemma DecodeEncodeTriple(t: seq<byte>)
    requires |t| == 3
    ensures DecodeWord(EncodeTriple(t)) == t
  {
    Decode4Encode3(t[0], t[1], t[2]);
    assert [t[0], t[1], t[2]] == t;
  }

  /** serato32encode(data): struct.unpack('BBB') needs exactly three bytes. */
  function Serato32Encode(data: seq<byte>): (r: Result<seq<byte>>)
    ensures r.Ok? <==> |data| == 3
    ensures r.Ok? ==> |r.value| == 4 && r.value[0] <= 7 && forall i :: 0 <= i < 4 ==> r.value[i] < 0x80
  {
    if |data| != 3 then Err(StructError)
    else
      var r := Encode3(data[0], data[1], data[2]);
      assert r[0] <= 7 by { Shift5(data[0]); }
      Ok(r)
  }

  lemma Shift5(a: byte)
    ensures a >> 5 <= 7
  {
  }

  /** serato32decode(data): struct.unpack('BBBB') needs exactly four bytes. */
  function Serato32Decode(data: seq<byte>): (r: Result<seq<byte>>)
    ensures r.Ok? <==> |data| == 4
    ensures r.Ok? ==> |r.value| == 3
  {
    if |data| != 4 then Err(StructError)
    else Ok(Decode4(data[0], data[1], data[2], data[3]))
  }

  lemma Decode4Encode3(a: byte, b: byte, c: byte)
    ensures var e := Encode3(a, b, c); Decode4(e[0], e[1], e[2], e[3]) == [a, b, c]
  {
  }

  /** serato32decode(serato32encode(x)) == x for every three bytes. */
  lemma DecodeEncode32(x: seq<byte>)
    requires |x| == 3
    ensures Serato32Decode(Serato32Encode(x).value) == Ok(x)
  {
    Decode4Encode3(x[0], x[1], x[2]);
    assert [x[0], x[1], x[2]] == x;
  }

  lemma Encode3Decode4(w: byte, x: byte, y: byte, z: byte)
    ensures var d := Decode4(w, x, y, z);
      Encode3(d[0], d[1], d[2]) == [w, x, y, z] <==> w <= 7 && x < 0x80 && y < 0x80 && z < 0x80
  {
  }

  /** serato32encode(serato32decode(q)) == q exactly for the words encode can
      produce: a first byte of at most 7 and 7-bit bytes after it. */
  lemma EncodeDecode32(q: seq<byte>)
    requires |q| == 4
    ensures Serato32Encode(Serato32Decode(q).value) == Ok(q) <==> q[0] <= 7 && q[1] < 0x80 && q[2] < 0x80 && q[3] < 0x80
  {
    Encode3Decode4(q[0], q[1], q[2], q[3]);
    assert q == [q[0], q[1], q[2], q[3]];
  }

  // ----- entries -----

  /** EntryType: INVALID = 0, CUE = 1, LOOP = 3. */
  datatype EntryType = INVALID | CUE | LOOP

  function EntryTypeValue(t: EntryType): (v: int)
    ensures v == 0 || v == 1 || v == 3
  {
    match t
    case INVALID => 0
    case CUE => 1
    case LOOP => 3
  }

  /** EntryType(value): ValueError for a value that names no member. */
  function EntryTypeOf(v: int): (r: Result<EntryType>)
    ensures r.Ok? <==> v == 0 || v == 1 || v == 3
    ensures r.Ok? ==> EntryTypeValue(r.value) == v
  {
    if v == 0 then Ok(INVALID) else if v == 1 then Ok(CUE) else if v == 3 then Ok(LOOP) else Err(ValueError)
  }

  lemma EntryTypeRoundTrip(t: EntryType)
    ensures EntryTypeOf(EntryTypeValue(t)) == Ok(t)
  {
  }

  /** An Entry (a cue or loop slot) or the Color record. Positions are in
      milliseconds; isLocked is the 'B' byte (Python's bool packs as 0 or 1). */
  datatype LegacyEntry =
    | Entry(startSet: bool, start: Option<int>, endSet: bool, end: Option<int>,
            field5: seq<byte>, color: seq<byte>, kind: EntryType, isLocked: int)
    | Color(color: seq<byte>)

  /** The values Entry.load collects in entry_data, one per field. */
  datatype Value = VFlag(flag: bool) | VPos(pos: Option<int>) | VBytes(bytes: seq<byte>) | VType(kind: EntryType) | VInt(n: int)

  /** Entry.FIELDS, whose order is the order of the '>B4sB4s6s4sBB' layout. */
  const FIELDS: seq<string> :=
    ["start_position_set", "start_position", "end_position_set", "end_position", "field5", "color", "type", "is_locked"]

  /** struct.calcsize('>B4sB4s6s4sBB'). */
  const ENTRY_SIZE := 22

  /** The shape of the value each field holds after loading. */
  predicate HasShape(v: Value, i: nat)
  {
    if i == 0 || i == 2 then v.VFlag?
    else if i == 1 || i == 3 then v.VPos?
    else if i == 4 || i == 5 then v.VBytes?
    else if i == 6 then v.VType?
    else v.VInt?
  }

  /** A position as load reads it: the decoded three bytes, left-padded with
      NUL to four and unpacked as '>I'. */
  function Position(word: seq<byte>): (p: int)
    requires |word| == 4
    ensures 0 <= p < 0x100_0000
  {
    var d := DecodeWord(word);
    assert Pow256(4) == 0x1_0000_0000;
    LowBytesU32([NUL] + d);
    assert ([NUL] + d)[1..] == d;
    assert Pow256(3) == 0x100_0000;
    FromBE([NUL] + d)
  }

  /** A set flag must be 0x00 (set) or 0x7F (unset). */
  function Flag(b: byte): Result<Value>
  {
    if b != 0x00 && b != 0x7F then Err(AssertionError) else Ok(VFlag(b != 0x7F))
  }

  /** The body of Entry.load's loop for field i of the record: the flags are
      asserted, a position is decoded when its flag (already converted, as the
      flag field comes first) says set and is None otherwise, the colour is
      decoded, the type must name an EntryType. */
  function FieldLoad(data: seq<byte>, i: nat): (r: Result<Value>)
    requires |data| >= ENTRY_SIZE && i < 8
    ensures r.Ok? ==> HasShape(r.value, i)
  {
    if i == 0 then Flag(data[0])
    else if i == 1 then Ok(VPos(if data[0] != 0x7F then Some(Position(data[1..5])) else None))
    else if i == 2 then Flag(data[5])
    else if i == 3 then Ok(VPos(if data[5] != 0x7F then Some(Position(data[6..10])) else None))
    else if i == 4 then Ok(VBytes(data[10..16]))
    else if i == 5 then Ok(VBytes(DecodeWord(data[16..20])))
    else if i == 6 then
      var t :- EntryTypeOf(data[20] as int);
      Ok(VType(t))
    else Ok(VInt(data[21] as int))
  }

  /** The values of fields i.. in order, or the first field's error. */
  function FieldsLoad(data: seq<byte>, i: nat): (r: Result<seq<Value>>)
    requires |data| >= ENTRY_SIZE && i <= 8
    ensures r.Ok? ==> |r.value| == 8 - i && forall j :: 0 <= j < 8 - i ==> FieldLoad(data, i + j) == Ok(r.value[j])
    decreases 8 - i
  {
    if i == 8 then Ok([])
    else
      var v :- FieldLoad(data, i);
      Prepend([v], FieldsLoad(data, i + 1))
  }

  predicate Shaped(vs: seq<Value>)
  {
    && |vs| == 8 && vs[0].VFlag? && vs[1].VPos? && vs[2].VFlag? && vs[3].VPos?
    && vs[4].VBytes? && vs[5].VBytes? && vs[6].VType? && vs[7].VInt?
  }

  /** cls(*entry_data). */
  function FromValues(vs: seq<Value>): LegacyEntry
    requires Shaped(vs)
  {
    Entry(vs[0].flag, vs[1].pos, vs[2].flag, vs[3].pos, vs[4].bytes, vs[5].bytes, vs[6].kind, vs[7].n)
  }

  /** Entry.load: unpack the first 22 bytes (struct.error when there are
      fewer), then convert field by field. */
  function LoadEntry(data: seq<byte>): (r: Result<LegacyEntry>)
  {
    if |data| < ENTRY_SIZE then Err(StructError)
    else
      var vs :- FieldsLoad(data, 0);
      assert Shaped(vs) by {
        assert FieldLoad(data, 0) == Ok(vs[0]) && FieldLoad(data, 1) == Ok(vs[1]);
        assert FieldLoad(data, 2) == Ok(vs[2]) && FieldLoad(data, 3) == Ok(vs[3]);
        assert FieldLoad(data, 4) == Ok(vs[4]) && FieldLoad(data, 5) == Ok(vs[5]);
        assert FieldLoad(data, 6) == Ok(vs[6]) && FieldLoad(data, 7) == Ok(vs[7]);
      }
      Ok(FromValues(vs))
  }

  /** What Entry.load accepts and what it reads: 0x00 means set and 0x7F
      unset, an unset position is None, a set one the 24 bits its word
      encodes; the type byte must be 0, 1 or 3. */
  predicate Accepted(data: seq<byte>)
  {
    && |data| >= ENTRY_SIZE && (data[0] == 0x00 || data[0] == 0x7F) && (data[5] == 0x00 || data[5] == 0x7F)
    && (data[20] == 0 || data[20] == 1 || data[20] == 3)
  }

  /** The entry an accepted record describes. */
  function Loaded(data: seq<byte>): LegacyEntry
    requires Accepted(data)
  {
    Entry(data[0] == 0x00, if data[0] == 0x00 then Some(Position(data[1..5])) else None,
          data[5] == 0x00, if data[5] == 0x00 then Some(Position(data[6..10])) else None,
          data[10..16], DecodeWord(data[16..20]),
          EntryTypeOf(data[20] as int).value, data[21] as int)
  }

  lemma LoadEntrySpec(data: seq<byte>)
    ensures LoadEntry(data).Ok? <==> Accepted(data)
    ensures Accepted(data) ==> LoadEntry(data) == Ok(Loaded(data))
  {
    if |data| >= ENTRY_SIZE {
      var r := FieldsLoad(data, 0);
      if Accepted(data) {
        assert r.Ok?;
        var vs := r.value;
        assert FieldLoad(data, 0) == Ok(vs[0]) && FieldLoad(data, 1) == Ok(vs[1]);
        assert FieldLoad(data, 2) == Ok(vs[2]) && FieldLoad(data, 3) == Ok(vs[3]);
        assert FieldLoad(data, 4) == Ok(vs[4]) && FieldLoad(data, 5) == Ok(vs[5]);
        assert FieldLoad(data, 6) == Ok(vs[6]) && FieldLoad(data, 7) == Ok(vs[7]);
      }
    }
  }

  /** Entry.load with its loop over FIELDS appending to entry_data. */
  method EntryLoad(data: seq<byte>) returns (r: Result<LegacyEntry>)
    ensures r == LoadEntry(data)
  {
    if |data| < ENTRY_SIZE {
      return Err(StructError);
    }
    var entryData: seq<Value> := [];
    assert Prepend(entryData, FieldsLoad(data, 0)) == FieldsLoad(data, 0) by {
      var r0 := FieldsLoad(data, 0);
      if r0.Ok? {
        assert [] + r0.value == r0.value;
      }
    }
    for i := 0 to |FIELDS|
      invariant |entryData| == i
      invariant FieldsLoad(data, 0) == Prepend(entryData, FieldsLoad(data, i))
    {
      var v := FieldLoad(data, i);
      if v.Err? {
        return Err(v.error);
      }
      PrependAssoc(entryData, [v.value], FieldsLoad(data, i + 1));
      entryData := entryData + [v.value];
    }
    assert entryData + [] == entryData;
    return LoadEntry(data);
  }

  /** A u32 packed '>I', its first byte dropped and the rest encoded: the low
      24 bits of a set position. */
  function PositionWord(p: int): (w: seq<byte>)
    requires 0 <= p < 0x1_0000_0000
    ensures |w| == 4
  {
    EncodeTriple(PackU32(p)[1..])
  }

  /** The four bytes 7F 7F 7F 7F that stand for an unset position. */
  const UNSET_WORD: seq<byte> := [0x7F, 0x7F, 0x7F, 0x7F]

  /** The packed bytes of field i in Entry.dump. The conversions and
      struct.pack only raise struct.error, so packing field by field fails
      exactly when packing them together does. For an unset position the
      code as written substitutes the int 0x7F7F7F7F where '4s' needs bytes
      (struct.error); `fixed` substitutes the bytes 7F 7F 7F 7F instead. */
  function FieldDump(e: LegacyEntry, i: nat, fixed: bool): (r: Result<seq<byte>>)
    requires e.Entry? && i < 8
  {
    if i == 0 then Ok([if !e.startSet then 0x7F else 0x00])
    else if i == 1 then PositionDump(e.start, fixed)
    else if i == 2 then Ok([if !e.endSet then 0x7F else 0x00])
    else if i == 3 then PositionDump(e.end, fixed)
    else if i == 4 then Ok(FixedBytes(e.field5, 6))
    else if i == 5 then Serato32Encode(e.color)
    else if i == 6 then Ok([EntryTypeValue(e.kind) as bv8])
    else if 0 <= e.isLocked < 0x100 then Ok([e.isLocked as bv8])
    else Err(StructError)
  }

  function PositionDump(p: Option<int>, fixed: bool): Result<seq<byte>>
  {
    match p
    case None => if fixed then Ok(UNSET_WORD) else Err(StructError)
    case Some(v) => if 0 <= v < 0x1_0000_0000 then Ok(PositionWord(v)) else Err(StructError)
  }

  /** The packed fields i.. in order, or the first error. */
  function FieldsDump(e: LegacyEntry, i: nat, fixed: bool): Result<seq<byte>>
    requires e.Entry? && i <= 8
    decreases 8 - i
  {
    if i == 8 then Ok([])
    else
      var b :- FieldDump(e, i, fixed);
      Prepend(b, FieldsDump(e, i + 1, fixed))
  }

  /** Entry.dump (and Color.dump, whose only field is the encoded colour). */
  function DumpEntry(e: LegacyEntry, fixed: bool): (r: Result<seq<byte>>)
  {
    match e
    case Entry(_, _, _, _, _, _, _, _) => FieldsDump(e, 0, fixed)
    case Color(color) => Serato32Encode(color)
  }

  /** Entry.dump with its loop over FIELDS. */
  method EntryDump(e: LegacyEntry, fixed: bool) returns (r: Result<seq<byte>>)
    requires e.Entry?
    ensures r == DumpEntry(e, fixed)
  {
    var out: seq<byte> := [];
    assert Prepend(out, FieldsDump(e, 0, fixed)) == FieldsDump(e, 0, fixed) by {
      var r0 := FieldsDump(e, 0, fixed);
      if r0.Ok? {
        assert [] + r0.value == r0.value;
      }
    }
    for i := 0 to |FIELDS|
      invariant FieldsDump(e, 0, fixed) == Prepend(out, FieldsDump(e, i, fixed))
    {
      var b := FieldDump(e, i, fixed);
      if b.Err? {
        return Err(b.error);
      }
      PrependAssoc(out, b.value, FieldsDump(e, i + 1, fixed));
      out := out + b.value;
    }
    assert out + [] == out;
    return Ok(out);
  }

  /** Entry.dump as written raises struct.error for every entry with an
      unset start or end position. */
  lemma DumpUnsetFails(e: LegacyEntry)
    requires e.Entry? && (e.start.None? || e.end.None?)
    ensures DumpEntry(e, false) == Err(StructError)
  {
    if e.start.None? {
      assert FieldDump(e, 1, false) == Err(StructError);
      assert FieldsDump(e, 1, false) == Err(StructError);
    } else {
      assert FieldsDump(e, 3, false) == Err(StructError);
      assert FieldsDump(e, 2, false) == Err(StructError);
      assert FieldsDump(e, 1, false) == Err(StructError);
    }
  }

  /** An entry the fixed dump writes and load reads back unchanged: the flags
      agree with the positions, positions fit the 24 bits the record keeps,
      the byte strings have their packed widths. */
  predicate WellFormed(e: LegacyEntry)
  {
    match e
    case Entry(startSet, start, endSet, end, field5, color, _, isLocked) =>
      && startSet == start.Some? && endSet == end.Some?
      && (start.Some? ==> 0 <= start.value < 0x100_0000)
      && (end.Some? ==> 0 <= end.value < 0x100_0000)
      && |field5| == 6 && |color| == 3 && 0 <= isLocked < 0x100
    case Color(color) => |color| == 3
  }

  /** The bytes the fixed dump writes for an entry, field by field. */
  function Pieces(e: LegacyEntry): (ps: seq<seq<byte>>)
    requires e.Entry? && WellFormed(e)
    ensures |ps| == 8
  {
    [[if e.startSet then 0x00 else 0x7F],
     if e.startSet then PositionWord(e.start.value) else UNSET_WORD,
     [if e.endSet then 0x00 else 0x7F],
     if e.endSet then PositionWord(e.end.value) else UNSET_WORD,
     e.field5,
     EncodeTriple(e.color),
     [EntryTypeValue(e.kind) as bv8],
     [e.isLocked as bv8]]
  }

  function Record(e: LegacyEntry): (r: seq<byte>)
    requires e.Entry? && WellFormed(e)
  {
    var p := Pieces(e);
    p[0] + (p[1] + (p[2] + (p[3] + (p[4] + (p[5] + (p[6] + p[7]))))))
  }

  lemma DumpIsRecord(e: LegacyEntry)
    requires e.Entry? && WellFormed(e)
    ensures DumpEntry(e, true) == Ok(Record(e))
  {
    FieldDumps(e);
    FieldsDumpChain(e, Pieces(e));
  }

  /** Each field of a well-formed entry dumps as its piece. */
  lemma FieldDumps(e: LegacyEntry)
    requires e.Entry? && WellFormed(e)
    ensures forall i :: 0 <= i < 8 ==> FieldDump(e, i, true) == Ok(Pieces(e)[i])
  {
    var p := Pieces(e);
    assert FieldDump(e, 0, true) == Ok(p[0]);
    assert FieldDump(e, 1, true) == Ok(p[1]) by {
      PositionPiece(e.start, e.startSet);
    }
    assert FieldDump(e, 2, true) == Ok(p[2]);
    assert FieldDump(e, 3, true) == Ok(p[3]) by {
      PositionPiece(e.end, e.endSet);
    }
    assert FieldDump(e, 4, true) == Ok(p[4]) by {
      assert e.field5[..6] == e.field5;
    }
    assert FieldDump(e, 5, true) == Ok(p[5]) by {
      assert [e.color[0], e.color[1], e.color[2]] == e.color;
    }
    assert FieldDump(e, 6, true) == Ok(p[6]);
    assert FieldDump(e, 7, true) == Ok(p[7]);
  }

  /** A position field dumps as its word, or as the unset word. */
  lemma PositionPiece(p: Option<int>, isSet: bool)
    requires isSet == p.Some? && (p.Some? ==> 0 <= p.value < 0x100_0000)
    ensures PositionDump(p, true) == Ok(if isSet then PositionWord(p.value) else UNSET_WORD)
  {
  }

  /** Fields that each dump run together. */
  lemma FieldsDumpChain(e: LegacyEntry, p: seq<seq<byte>>)
    requires e.Entry? && |p| == 8
    requires forall i :: 0 <= i < 8 ==> FieldDump(e, i, true) == Ok(p[i])
    ensures FieldsDump(e, 0, true) == Ok(p[0] + (p[1] + (p[2] + (p[3] + (p[4] + (p[5] + (p[6] + p[7])))))))
  {
    assert FieldsDump(e, 7, true) == Ok(p[7]) by { assert p[7] + [] == p[7]; }
    assert FieldsDump(e, 6, true) == Ok(p[6] + p[7]);
    assert FieldsDump(e, 5, true) == Ok(p[5] + (p[6] + p[7]));
    assert FieldsDump(e, 4, true) == Ok(p[4] + (p[5] + (p[6] + p[7])));
    assert FieldsDump(e, 3, true) == Ok(p[3] + (p[4] + (p[5] + (p[6] + p[7]))));
    assert FieldsDump(e, 2, true) == Ok(p[2] + (p[3] + (p[4] + (p[5] + (p[6] + p[7])))));
    assert FieldsDump(e, 1, true) == Ok(p[1] + (p[2] + (p[3] + (p[4] + (p[5] + (p[6] + p[7]))))));
  }

  /** Where each field sits in a record. */
  lemma RecordFields(e: LegacyEntry)
    requires e.Entry? && WellFormed(e)
    ensures var d := Record(e); var p := Pieces(e);
      |d| == ENTRY_SIZE && d[0] == p[0][0] && d[1..5] == p[1] && d[5] == p[2][0] && d[6..10] == p[3]
      && d[10..16] == p[4] && d[16..20] == p[5] && d[20] == p[6][0] && d[21] == p[7][0]
  {
    var p := Pieces(e);
    var d := Record(e);
    var t5 := p[5] + (p[6] + p[7]);
    var t4 := p[4] + t5;
    var t3 := p[3] + t4;
    var t2 := p[2] + t3;
    var t1 := p[1] + t2;
    assert d == p[0] + t1;
    assert d[1..5] == t1[..4] == p[1];
    assert d[5] == t2[0];
    assert d[6..10] == t3[..4] == p[3];
    assert d[10..16] == t4[..6] == p[4];
    assert d[16..20] == t5[..4] == p[5];
  }

  /** A set position survives dump and load modulo 2^24: only the low three
      bytes of its '>I' packing are written. */
  lemma PositionRoundTrip(p: int)
    requires 0 <= p < 0x1_0000_0000
    ensures Position(PositionWord(p)) == p % 0x100_0000
  {
    var b := PackU32(p);
    DecodeEncodeTriple(b[1..]);
    LowBytesU32(b);
    assert ([NUL] + b[1..])[1..] == b[1..];
  }

  lemma UnsetWordLoads()
    ensures Decode4(0x7F, 0x7F, 0x7F, 0x7F) == [0xFF, 0xFF, 0xFF]
  {
  }

  /** The flag byte and word of one position field read back as the option
      they were written from. */
  lemma PositionFieldLoads(flag: byte, word: seq<byte>, isSet: bool, pos: Option<int>)
    requires isSet == pos.Some? && (pos.Some? ==> 0 <= pos.value < 0x100_0000)
    requires flag == (if isSet then 0x00 else 0x7F)
    requires word == (if isSet then PositionWord(pos.value) else UNSET_WORD)
    ensures (if flag == 0x00 then Some(Position(word)) else None) == pos
  {
    if isSet {
      PositionRoundTrip(pos.value);
    }
  }

  /** A record whose bytes are the pieces of e loads as e. */
  lemma LoadedPieces(d: seq<byte>, e: LegacyEntry)
    requires e.Entry? && WellFormed(e)
    requires |d| == ENTRY_SIZE
    requires d[0] == Pieces(e)[0][0] && d[1..5] == Pieces(e)[1] && d[5] == Pieces(e)[2][0] && d[6..10] == Pieces(e)[3]
    requires d[10..16] == Pieces(e)[4] && d[16..20] == Pieces(e)[5] && d[20] == Pieces(e)[6][0] && d[21] == Pieces(e)[7][0]
    ensures Accepted(d) && Loaded(d) == e
  {
    assert d[20] as int == EntryTypeValue(e.kind) by { ByteValue(EntryTypeValue(e.kind)); }
    assert d[21] as int == e.isLocked by { ByteValue(e.isLocked); }
    EntryTypeRoundTrip(e.kind);
    DecodeEncodeTriple(e.color);
    PositionFieldLoads(d[0], d[1..5], e.startSet, e.start);
    PositionFieldLoads(d[5], d[6..10], e.endSet, e.end);
  }

  /** load(dump(e)) == e for every well-formed entry, with the fixed dump. */
  lemma LoadDumpEntry(e: LegacyEntry)
    requires e.Entry? && WellFormed(e)
    ensures DumpEntry(e, true).Ok? && LoadEntry(DumpEntry(e, true).value) == Ok(e)
  {
    DumpIsRecord(e);
    RecordFields(e);
    LoadedPieces(Record(e), e);
    LoadEntrySpec(Record(e));
  }

  // ----- Color -----

  /** Color.load: the first four bytes ('>4s', struct.error when fewer),
      decoded. */
  function LoadColor(data: seq<byte>): (r: Result<LegacyEntry>)
    ensures r.Ok? <==> |data| >= 4
    ensures r.Ok? ==> r.value.Color? && Serato32Decode(data[..4]) == Ok(r.value.color)
  {
    if |data| < 4 then Err(StructError)
    else Ok(Color(Decode4(data[0], data[1], data[2], data[3])))
  }

  lemma LoadDumpColor(c: seq<byte>)
    requires |c| == 3
    ensures DumpEntry(Color(c), true).Ok? && LoadColor(DumpEntry(Color(c), true).value) == Ok(Color(c))
  {
    DecodeEncode32(c);
  }

  // ----- the tag -----

  /** The records of parse's loop: n reads of 22 bytes, each asserted
      complete and loaded; then Color.load of everything left. */
  function Records(buf: seq<byte>, pos: nat, n: nat): (r: Result<seq<LegacyEntry>>)
    requires pos <= |buf|
    decreases n
  {
    if n == 0 then
      var c :- LoadColor(buf[pos..]);
      Ok([c])
    else
      var (chunk, next) := ReadN(buf, pos, ENTRY_SIZE);
      if |chunk| != ENTRY_SIZE then Err(AssertionError)
      else
        var e :- LoadEntry(chunk);
        Prepend([e], Records(buf, next, n - 1))
  }

  /** markers.parse: version (2, 5), a '>I' count N, N entries and the colour. */
  function Parse(data: seq<byte>): (r: Result<seq<LegacyEntry>>)
  {
    if |data| < 2 then Err(StructError)
    else if data[0] != 0x02 || data[1] != 0x05 then Err(AssertionError)
    else
      var (countBytes, pos) := ReadN(data, 2, 4);
      var n :- UnpackU32(countBytes);
      Records(data, pos, n)
  }

  /** markers.parse, the generator drained into a list. */
  method ParseMarkers(data: seq<byte>) returns (r: Result<seq<LegacyEntry>>)
    ensures r == Parse(data)
  {
    if |data| < 2 {
      return Err(StructError);
    }
    if data[0] != 0x02 || data[1] != 0x05 {
      return Err(AssertionError);
    }
    var (countBytes, pos) := ReadN(data, 2, 4);
    var count := UnpackU32(countBytes);
    if count.Err? {
      return Err(count.error);
    }
    r := ReadRecords(data, pos, count.value);
  }

  /** The loop of markers.parse from start on: n entries of 22 bytes, each
      asserted complete and loaded, then the colour from what is left. */
  method ReadRecords(data: seq<byte>, start: nat, n: nat) returns (r: Result<seq<LegacyEntry>>)
    requires start <= |data|
    ensures r == Records(data, start, n)
  {
    var pos: nat := start;
    var out: seq<LegacyEntry> := [];
    PrependNone(Records(data, start, n));
    for i := 0 to n
      invariant pos <= |data|
      invariant Records(data, start, n) == Prepend(out, Records(data, pos, n - i))
    {
      var failed: Option<Error>;
      failed, out, pos := ReadRecord(data, start, n, out, pos, n - i);
      if failed.Some? {
        return Err(failed.value);
      }
    }
    var c := LoadColor(data[pos..]);
    if c.Err? {
      return Err(c.error);
    }
    return Ok(out + [c.value]);
  }

  /** One turn of the loop: a 22-byte read, asserted complete, loaded and
      appended; or the error that ends the generator. */
  method ReadRecord(data: seq<byte>, start: nat, n: nat, out: seq<LegacyEntry>, pos: nat, left: nat)
      returns (failed: Option<Error>, out': seq<LegacyEntry>, pos': nat)
    requires left > 0 && start <= |data| && pos <= |data|
    requires Records(data, start, n) == Prepend(out, Records(data, pos, left))
    ensures failed.Some? ==> Records(data, start, n) == Err(failed.value)
    ensures failed.None? ==> pos' <= |data| && Records(data, start, n) == Prepend(out', Records(data, pos', left - 1))
  {
    var (chunk, next) := ReadN(data, pos, ENTRY_SIZE);
    if |chunk| != ENTRY_SIZE {
      PrependErr(out, Records(data, pos, left));
      return Some(AssertionError), out, pos;
    }
    var e := EntryLoad(chunk);
    if e.Err? {
      PrependErr(out, Records(data, pos, left));
      return Some(e.error), out, pos;
    }
    PrependStep(Records(data, start, n), out, Records(data, pos, left), e.value, Records(data, next, left - 1));
    return None, out + [e.value], next;
  }

  /** The entry dumps concatenated, or the first error. */
  function DumpAll(entries: seq<LegacyEntry>, fixed: bool): Result<seq<byte>>
  {
    if entries == [] then Ok([])
    else
      var b :- DumpEntry(entries[0], fixed);
      Prepend(b, DumpAll(entries[1..], fixed))
  }

  /** markers.dump: 02 05, the count len - 1 as '>I' (struct.error for an
      empty list, whose count is -1), then every entry's dump. */
  function Dump(entries: seq<LegacyEntry>, fixed: bool): (r: Result<seq<byte>>)
    ensures r.Ok? ==> |r.value| >= 6 && r.value[..2] == [0x02, 0x05]
                      && FromBE(r.value[2..6]) == |entries| - 1
  {
    if entries == [] || |entries| - 1 >= 0x1_0000_0000 then Err(StructError)
    else
      var body :- DumpAll(entries, fixed);
      var header := [0x02, 0x05] + PackU32(|entries| - 1);
      assert (header + body)[2..6] == PackU32(|entries| - 1);
      Ok(header + body)
  }

  /** markers.dump with its loop growing `data`. */
  method DumpMarkers(entries: seq<LegacyEntry>, fixed: bool) returns (r: Result<seq<byte>>)
    ensures r == Dump(entries, fixed)
  {
    if entries == [] || |entries| - 1 >= 0x1_0000_0000 {
      return Err(StructError);
    }
    var data := [0x02, 0x05] + PackU32(|entries| - 1);
    var header := data;
    assert Dump(entries, fixed) == Prepend(data, DumpAll(entries, fixed)) by {
      var r0 := DumpAll(entries, fixed);
      assert entries[0..] == entries;
    }
    for i := 0 to |entries|
      invariant Dump(entries, fixed) == Prepend(data, DumpAll(entries[i..], fixed))
    {
      var b := DumpEntry(entries[i], fixed);
      if b.Err? {
        return Err(b.error);
      }
      assert entries[i..][1..] == entries[i + 1..];
      PrependAssoc(data, b.value, DumpAll(entries[i + 1..], fixed));
      data := data + b.value;
    }
    assert data + [] == data;
    return Ok(data);
  }

  /** Entries followed by the colour record, the shape to_serato_markers
      builds. */
  predicate Table(entries: seq<LegacyEntry>)
  {
    && |entries| >= 1 && |entries| - 1 < 0x1_0000_0000
    && entries[|entries| - 1].Color? && WellFormed(entries[|entries| - 1])
    && forall i :: 0 <= i < |entries| - 1 ==> entries[i].Entry? && WellFormed(entries[i])
  }

  /** The colour record alone, after any prefix, reads back as itself. */
  lemma ColorRecordDumped(c: LegacyEntry, pre: seq<byte>)
    requires c.Color? && WellFormed(c)
    ensures DumpAll([c], true).Ok?
    ensures Records(pre + DumpAll([c], true).value, |pre|, 0) == Ok([c])
  {
    LoadDumpColor(c.color);
    var b := DumpEntry(c, true).value;
    assert [c][1..] == [];
    assert DumpAll([c], true) == Ok(b + []) && b + [] == b;
    assert (pre + b)[|pre|..] == b;
  }

  /** A record that loads, in front of records that parse. */
  lemma RecordsStep(pre: seq<byte>, b: seq<byte>, rest: seq<byte>, e: LegacyEntry, es: seq<LegacyEntry>, n: nat)
    requires |b| == ENTRY_SIZE && LoadEntry(b) == Ok(e)
    requires Records(pre + b + rest, |pre| + ENTRY_SIZE, n) == Ok(es)
    ensures Records(pre + (b + rest), |pre|, n + 1) == Ok([e] + es)
  {
    ConcatAssoc(pre, b, rest);
    Middle(pre, b, rest);
  }

  lemma DumpAllCons(e: LegacyEntry, b: seq<byte>, es: seq<LegacyEntry>, rest: seq<byte>)
    requires DumpEntry(e, true) == Ok(b) && DumpAll(es, true) == Ok(rest)
    ensures DumpAll([e] + es, true) == Ok(b + rest)
  {
    assert ([e] + es)[0] == e && ([e] + es)[1..] == es;
  }

  /** The fixed dump of an entry is a 22-byte record that loads as the entry. */
  lemma EntryDumped(e: LegacyEntry)
    requires e.Entry? && WellFormed(e)
    ensures DumpEntry(e, true).Ok? && |DumpEntry(e, true).value| == ENTRY_SIZE
    ensures LoadEntry(DumpEntry(e, true).value) == Ok(e)
  {
    LoadDumpEntry(e);
    DumpIsRecord(e);
    RecordFields(e);
  }

  lemma {:induction false} RecordsDumped(es: seq<LegacyEntry>, pre: seq<byte>)
    requires Table(es)
    ensures DumpAll(es, true).Ok?
    ensures Records(pre + DumpAll(es, true).value, |pre|, |es| - 1) == Ok(es)
    decreases |es|
  {
    var last := es[|es| - 1];
    if |es| == 1 {
      assert es == [last];
      ColorRecordDumped(last, pre);
    } else {
      var e := es[0];
      assert es[1..][|es| - 2] == last;
      assert Table(es[1..]);
      EntryDumped(e);
      var b := DumpEntry(e, true).value;
      RecordsDumped(es[1..], pre + b);
      var rest := DumpAll(es[1..], true).value;
      DumpAllCons(e, b, es[1..], rest);
      RecordsStep(pre, b, rest, e, es[1..], |es| - 2);
      assert [e] + es[1..] == es;
    }
  }

  /** parse(dump(t)) == t for every table of well-formed entries and a colour
      record, with the fixed dump. */
  lemma ParseDump(entries: seq<LegacyEntry>)
    requires Table(entries)
    ensures Dump(entries, true).Ok? && Parse(Dump(entries, true).value) == Ok(entries)
  {
    var header := [0x02, 0x05] + PackU32(|entries| - 1);
    RecordsDumped(entries, header);
    var d := Dump(entries, true).value;
    assert d[2..6] == PackU32(|entries| - 1);
    UnpackPackU32(|entries| - 1);
  }
}
