// Writing Serato crate files: every field is its descriptor, a big-endian
// u32 length and the content; containers hold their children written the
// same way. Each writer appends to a stream and returns the bytes written.

module CrateWrite {
  import opened Wrappers
  import opened Bytes
  import opened CrateRead

  // ----- the byte images of the dump_* primitives -----

  /** str.encode('utf-16be') on code units: two big-endian bytes each. */
  function Encode16(t: Text): (b: seq<byte>)
    ensures |b| == 2 * |t|
  {
    if t == [] then [] else PackU16(t[0]) + Encode16(t[1..])
  }

  /** Decoding reads back every unit that encoding writes. */
  lemma {:induction false} Decode16Encode16(t: Text)
    ensures Decode16(Encode16(t)) == t
  {
    if t != [] {
      var b := Encode16(t);
      assert b[..2] == PackU16(t[0]);
      assert b[2..] == Encode16(t[1..]);
      Decode16Encode16(t[1..]);
    }
  }

  /** struct.pack('>I', n) for a length: struct.error from 2^32 on. */
  function LengthBytes(n: nat): (r: Result<seq<byte>>)
    ensures r.Ok? <==> n < 0x1_0000_0000
    ensures r.Ok? ==> r.value == PackU32(n)
  {
    if n < 0x1_0000_0000 then Ok(PackU32(n)) else Err(StructError)
  }

  /** dump_bool: length 1, then 01 or 00. */
  function BoolBytes(v: bool): (b: seq<byte>)
  {
    PackU32(1) + [if v then 0x01 else 0x00]
  }

  /** dump_u16_text: the length of the UTF-16BE bytes, then the bytes. */
  function U16TextBytes(t: Text): (r: Result<seq<byte>>)
  {
    var e := Encode16(t);
    var len :- LengthBytes(|e|);
    Ok(len + e)
  }

  /** dump_u16: length 2, then '>H' (struct.error outside 0..65535). */
  function U16Bytes(n: int): (r: Result<seq<byte>>)
  {
    if 0 <= n < 0x1_0000 then Ok(PackU32(2) + PackU16(n)) else Err(StructError)
  }

  /** dump_u32: length 4, then '>I' (struct.error outside 32 bits; the value
      is packed before anything is written). */
  function U32Bytes(n: int): (r: Result<seq<byte>>)
  {
    if 0 <= n < 0x1_0000_0000 then Ok(PackU32(4) + PackU32(n)) else Err(StructError)
  }

  // ----- field_type and field_name -----

  /** field_type: bool, u32, path and container for their classes, text for
      every other field, the Unknown* ones included. */
  function FieldType(f: Field): CrateFieldKind
  {
    match f
    case BoolField(_, _) => FIELD_BOOL
    case U32Field(_, _) => FIELD_U32
    case PathField(_, _) => FIELD_PATH
    case ContainerField(_, _) => FIELD_CONTAINER
    case _ => FIELD_TEXT
  }

  /** field_name: the name the read tables map to the field's class; any
      Unknown* field is a ValueError, so unknown fields cannot be written. */
  function FieldName(f: Field): (r: Result<string>)
    ensures r.Ok? <==> IsKnown(f)
    ensures r.Err? ==> r.error == ValueError
    ensures r.Ok? ==> IsAsciiText(r.value) && (|r.value| == 3 || |r.value| == 4)
    ensures r.Ok? ==> (|r.value| == 4 <==> f.TextField? && f.tn == Version)
  {
    match f
    case BoolField(n, _) => Ok(BoolNameText(n))
    case U32Field(n, _) => Ok(U32NameText(n))
    case PathField(n, _) => Ok(PathNameText(n))
    case TextField(n, _) => Ok(TextNameText(n))
    case ContainerField(n, _) => Ok(ContainerNameText(n))
    case _ => Err(ValueError)
  }

  /** The written name decides the class again: vrsn only for Version. */
  lemma VrsnOnlyForVersion(f: Field)
    requires FieldName(f).Ok?
    ensures FieldName(f).value == "vrsn" <==> f.TextField? && f.tn == Version
  {
    if f.TextField? && f.tn == Version {
      assert FieldName(f).value == "vrsn";
    }
  }

  /** dump_field_content for the calls write_field makes: the field's own
      value under its own type (FIELD_TEXT for vrsn, which is its type). */
  function FieldContentBytes(name: string, kind: CrateFieldKind, f: Field): (r: Result<seq<byte>>)
    requires IsKnown(f) && kind == FieldType(f) && IsAsciiText(name)
  {
    match kind
    case FIELD_BOOL => Ok(BoolBytes(f.flag))
    case FIELD_U32 => U32Bytes(f.number)
    case FIELD_PATH => U16TextBytes(f.path)
    case FIELD_TEXT => U16TextBytes(f.text)
    case FIELD_CONTAINER | FIELD_CONTAINER_R => Ok(FixedBytes(Ascii(name), 4))
    case _ => Err(ValueError)
  }

  /** The bytes write_field appends for f: vrsn as a raw four-byte
      descriptor with text content; a container as its descriptor, the
      length of its written children and the children; any other field as
      its type byte and name, then its content. */
  function WriteFieldBytes(f: Field): (r: Result<seq<byte>>)
    ensures r.Ok? ==> IsKnown(f)
    decreases f
  {
    var kind := FieldType(f);
    var name :- FieldName(f);
    if name == "vrsn" then ScalarBytes(Ascii("vrsn"), FieldContentBytes(name, FIELD_TEXT, f))
    else
      var desc := [KindByte(kind)] + Ascii(name);
      if kind == FIELD_CONTAINER then ContainerBytes(desc, WriteFieldsBytes(f.fields))
      else ScalarBytes(desc, FieldContentBytes(name, kind, f))
  }

  /** The four bytes write_field writes first: vrsn as it is, any other
      field as its type byte and name. */
  function Descriptor(f: Field): (d: seq<byte>)
    requires IsKnown(f)
    ensures |d| == 4
  {
    var name := FieldName(f).value;
    if name == "vrsn" then Ascii("vrsn") else [KindByte(FieldType(f))] + Ascii(name)
  }

  /** Any other field's bytes: its descriptor, then its content. */
  function ScalarBytes(desc: seq<byte>, content: Result<seq<byte>>): (r: Result<seq<byte>>)
  {
    var c :- content;
    Ok(desc + c)
  }

  /** A container's bytes: its descriptor, the length of its written
      children (struct.error from 2^32 on), then the children. */
  function ContainerBytes(desc: seq<byte>, kids: Result<seq<byte>>): (r: Result<seq<byte>>)
  {
    var k :- kids;
    var len :- LengthBytes(|k|);
    Ok(desc + len + k)
  }

  /** The bytes write_fields appends: each field in turn. */
  function WriteFieldsBytes(fs: seq<Field>): (r: Result<seq<byte>>)
    decreases fs
  {
    if fs == [] then Ok([])
    else
      var b :- WriteFieldBytes(fs[0]);
      var rest :- WriteFieldsBytes(fs[1..]);
      Ok(b + rest)
  }

  /** Unknown fields cannot be written: field_name raises ValueError. */
  lemma UnknownNotWritable(f: Field)
    requires !IsKnown(f)
    ensures WriteFieldBytes(f) == Err(ValueError)
  {
  }

  /** One unwritable field makes the whole list fail. */
  lemma {:induction false} FieldsFailWithOne(fs: seq<Field>, i: nat)
    requires i < |fs| && WriteFieldBytes(fs[i]).Err?
    ensures WriteFieldsBytes(fs).Err?
    decreases i
  {
    if i > 0 && WriteFieldBytes(fs[0]).Ok? {
      assert fs[1..][i - 1] == fs[i];
      FieldsFailWithOne(fs[1..], i - 1);
    }
  }

  // ----- layout of a written field -----

  /** A field as it is framed on disk: a four-byte descriptor, then a
      big-endian length equal to the number of bytes after it. */
  predicate Framed(b: seq<byte>)
  {
    |b| >= 8 && |b| - 8 < 0x1_0000_0000 && b[4..8] == PackU32(|b| - 8)
  }

  /** A written field is framed, and its descriptor and content parse back
      to the field. */
  lemma {:induction false} FieldLayout(f: Field)
    requires WriteFieldBytes(f).Ok?
    ensures Framed(WriteFieldBytes(f).value)
    ensures var b := WriteFieldBytes(f).value; ParseFieldDesc(b[..4], b[8..]) == Ok(f)
    decreases f, 1
  {
    match f
    case BoolField(n, v) => BoolLayout(n, v);
    case U32Field(n, v) => U32Layout(n, v);
    case PathField(n, t) => PathLayout(n, t);
    case TextField(n, t) => TextLayout(n, t);
    case ContainerField(n, fs) => ContainerLayout(n, fs);
  }

  lemma BoolLayout(n: BoolName, v: bool)
    ensures WriteFieldBytes(BoolField(n, v)).Ok?
    ensures var b := WriteFieldBytes(BoolField(n, v)).value;
      Framed(b) && ParseFieldDesc(b[..4], b[8..]) == Ok(BoolField(n, v))
  {
    BoolShape(n, v);
    BoolReads(n, v);
    ScalarLayout([KindByte(FIELD_BOOL)] + Ascii(BoolNameText(n)), Ok(BoolBytes(v)), BoolField(n, v));
  }

  lemma U32Layout(n: U32Name, v: int)
    requires WriteFieldBytes(U32Field(n, v)).Ok?
    ensures var b := WriteFieldBytes(U32Field(n, v)).value;
      Framed(b) && ParseFieldDesc(b[..4], b[8..]) == Ok(U32Field(n, v))
  {
    U32Shape(n, v);
    U32Reads(n, v);
    ScalarLayout([KindByte(FIELD_U32)] + Ascii(U32NameText(n)), U32Bytes(v), U32Field(n, v));
  }

  lemma PathLayout(n: PathName, t: Text)
    requires WriteFieldBytes(PathField(n, t)).Ok?
    ensures var b := WriteFieldBytes(PathField(n, t)).value;
      Framed(b) && ParseFieldDesc(b[..4], b[8..]) == Ok(PathField(n, t))
  {
    PathShape(n, t);
    U16TextFrame(t);
    PathReads(n, t);
    ScalarLayout([KindByte(FIELD_PATH)] + Ascii(PathNameText(n)), U16TextBytes(t), PathField(n, t));
  }

  lemma TextLayout(n: TextName, t: Text)
    requires WriteFieldBytes(TextField(n, t)).Ok?
    ensures var b := WriteFieldBytes(TextField(n, t)).value;
      Framed(b) && ParseFieldDesc(b[..4], b[8..]) == Ok(TextField(n, t))
  {
    TextShape(n, t);
    U16TextFrame(t);
    if n == Version {
      VersionReads(t);
    } else {
      TextReads(n, t);
    }
    ScalarLayout(TextDesc(n), U16TextBytes(t), TextField(n, t));
  }

  /** The descriptor of a text field: vrsn for Version, otherwise the type
      byte and the name. */
  function TextDesc(n: TextName): (d: seq<byte>)
    ensures |d| == 4
  {
    if n == Version then Ascii("vrsn") else [KindByte(FIELD_TEXT)] + Ascii(TextNameText(n))
  }

  lemma BoolShape(n: BoolName, v: bool)
    ensures WriteFieldBytes(BoolField(n, v))
            == ScalarBytes([KindByte(FIELD_BOOL)] + Ascii(BoolNameText(n)), Ok(BoolBytes(v)))
  {
  }

  lemma U32Shape(n: U32Name, v: int)
    ensures WriteFieldBytes(U32Field(n, v)) == ScalarBytes([KindByte(FIELD_U32)] + Ascii(U32NameText(n)), U32Bytes(v))
  {
  }

  lemma PathShape(n: PathName, t: Text)
    ensures WriteFieldBytes(PathField(n, t))
            == ScalarBytes([KindByte(FIELD_PATH)] + Ascii(PathNameText(n)), U16TextBytes(t))
  {
  }

  lemma TextShape(n: TextName, t: Text)
    ensures WriteFieldBytes(TextField(n, t)) == ScalarBytes(TextDesc(n), U16TextBytes(t))
  {
  }

  /** A scalar whose content is its length and payload is framed, and reads
      back as its descriptor and payload parse. */
  lemma ScalarLayout(desc: seq<byte>, content: Result<seq<byte>>, f: Field)
    requires |desc| == 4 && content.Ok?
    requires |content.value| >= 4 && |content.value| - 4 < 0x1_0000_0000
    requires content.value[..4] == PackU32(|content.value| - 4)
    requires ParseFieldDesc(desc, content.value[4..]) == Ok(f)
    ensures ScalarBytes(desc, content).Ok?
    ensures var b := ScalarBytes(desc, content).value;
      Framed(b) && ParseFieldDesc(b[..4], b[8..]) == Ok(f)
  {
    var c := content.value;
    var b := desc + c;
    assert ScalarBytes(desc, content) == Ok(b);
    assert b[4..8] == c[..4] && |b| - 8 == |c| - 4;
    assert Framed(b);
    assert b[..4] == desc && b[8..] == c[4..];
  }

  /** Written text is its length, then its UTF-16BE units. */
  lemma U16TextFrame(t: Text)
    requires U16TextBytes(t).Ok?
    ensures var c := U16TextBytes(t).value;
      |c| >= 4 && |c| - 4 < 0x1_0000_0000 && c[..4] == PackU32(|c| - 4) && c[4..] == Encode16(t)
  {
    var e := Encode16(t);
    var c := PackU32(|e|) + e;
    assert c[..4] == PackU32(|e|) && c[4..] == e;
  }

  lemma {:induction false} ContainerLayout(n: ContainerName, fs: seq<Field>)
    requires WriteFieldBytes(ContainerField(n, fs)).Ok?
    ensures var b := WriteFieldBytes(ContainerField(n, fs)).value;
      Framed(b) && ParseFieldDesc(b[..4], b[8..]) == Ok(ContainerField(n, fs))
    decreases ContainerField(n, fs), 0
  {
    var desc := [KindByte(FIELD_CONTAINER)] + Ascii(ContainerNameText(n));
    ContainerShape(n, fs);
    ContainerBytesOk(desc, WriteFieldsBytes(fs));
    var kids := WriteFieldsBytes(fs).value;
    var b := desc + PackU32(|kids|) + kids;
    assert b[..4] == desc && b[4..8] == PackU32(|kids|) && b[8..] == kids;
    ContainerReads(n, fs);
  }

  lemma ContainerShape(n: ContainerName, fs: seq<Field>)
    ensures WriteFieldBytes(ContainerField(n, fs))
            == ContainerBytes([KindByte(FIELD_CONTAINER)] + Ascii(ContainerNameText(n)), WriteFieldsBytes(fs))
  {
  }

  lemma ContainerBytesOk(desc: seq<byte>, kids: Result<seq<byte>>)
    requires ContainerBytes(desc, kids).Ok?
    ensures kids.Ok? && |kids.value| < 0x1_0000_0000
    ensures ContainerBytes(desc, kids).value == desc + PackU32(|kids.value|) + kids.value
  {
  }

  /** The descriptor of a named field: its type byte, then its name. */
  lemma NamedDesc(k: CrateFieldKind, name: string)
    requires IsAsciiText(name) && |name| == 3
    ensures var d := [KindByte(k)] + Ascii(name);
      |d| == 4 && Chars(d) != "vrsn" && d[..1] == [KindByte(k)] && Chars(d[1..4]) == name
  {
    var d := [KindByte(k)] + Ascii(name);
    assert d[1..4] == Ascii(name);
    CharsAscii(name);
    assert Chars(d)[0] != 'v';
  }

  /** parse_field_desc on any descriptor but vrsn: type byte, then name. */
  lemma DescSplit(desc: seq<byte>, content: seq<byte>)
    requires |desc| == 4 && Chars(desc) != "vrsn"
    ensures ParseFieldDesc(desc, content) == ParseField(content, desc[1..4], desc[..1])
  {
  }

  /** parse_field_desc on vrsn: a text field named vrsn. */
  lemma DescVrsn(desc: seq<byte>, content: seq<byte>)
    requires |desc| == 4 && Chars(desc) == "vrsn"
    ensures ParseFieldDesc(desc, content) == ParseField(content, desc, [KindByte(FIELD_TEXT)])
  {
  }

  lemma BoolKind(content: seq<byte>, name: seq<byte>)
    requires |content| >= 1
    ensures ParseField(content, name, [KindByte(FIELD_BOOL)]) == Ok(ParseFieldBool(name, content[0] != 0))
  {
    KindOfByte(FIELD_BOOL);
  }

  lemma U32Kind(content: seq<byte>, name: seq<byte>, v: u32)
    requires content == PackU32(v)
    ensures ParseField(content, name, [KindByte(FIELD_U32)]) == Ok(ParseFieldU32(name, v))
  {
    KindOfByte(FIELD_U32);
    assert ReadN(content, 0, 4).0 == content;
    UnpackPackU32(v);
  }

  lemma PathKind(content: seq<byte>, name: seq<byte>)
    ensures ParseField(content, name, [KindByte(FIELD_PATH)]) == Ok(ParseFieldPath(name, Decode16(content)))
  {
    KindOfByte(FIELD_PATH);
  }

  lemma TextKind(content: seq<byte>, name: seq<byte>)
    ensures ParseField(content, name, [KindByte(FIELD_TEXT)]) == Ok(ParseFieldText(name, Decode16(content)))
  {
    KindOfByte(FIELD_TEXT);
  }

  lemma ContainerKind(content: seq<byte>, name: seq<byte>, fs: seq<Field>)
    requires TakeFieldsFrom(content, 0) == Ok(fs)
    ensures ParseField(content, name, [KindByte(FIELD_CONTAINER)]) == Ok(ParseFieldContainer(name, fs))
  {
    KindOfByte(FIELD_CONTAINER);
  }

  lemma BoolReads(n: BoolName, v: bool)
    ensures ParseFieldDesc([KindByte(FIELD_BOOL)] + Ascii(BoolNameText(n)), BoolBytes(v)[4..]) == Ok(BoolField(n, v))
  {
    var desc := [KindByte(FIELD_BOOL)] + Ascii(BoolNameText(n));
    var c := BoolBytes(v)[4..];
    assert c == [if v then 0x01 else 0x00];
    NamedDesc(FIELD_BOOL, BoolNameText(n));
    DescSplit(desc, c);
    BoolKind(c, desc[1..4]);
    NameTablesInvert(n, DateAdded, FilePath, Sorting);
  }

  lemma U32Reads(n: U32Name, v: int)
    requires U32Bytes(v).Ok?
    ensures ParseFieldDesc([KindByte(FIELD_U32)] + Ascii(U32NameText(n)), U32Bytes(v).value[4..]) == Ok(U32Field(n, v))
  {
    var desc := [KindByte(FIELD_U32)] + Ascii(U32NameText(n));
    var c := U32Bytes(v).value[4..];
    assert c == PackU32(v);
    NamedDesc(FIELD_U32, U32NameText(n));
    DescSplit(desc, c);
    U32Kind(c, desc[1..4], v);
    NameTablesInvert(BeatgridLocked, n, FilePath, Sorting);
  }

  /** The payload of written text, read as UTF-16BE, is the text. */
  lemma TextPayload(t: Text)
    requires U16TextBytes(t).Ok?
    ensures Decode16(U16TextBytes(t).value[4..]) == t
  {
    U16TextFrame(t);
    Decode16Encode16(t);
  }

  lemma PathReads(n: PathName, t: Text)
    requires U16TextBytes(t).Ok?
    ensures ParseFieldDesc([KindByte(FIELD_PATH)] + Ascii(PathNameText(n)), U16TextBytes(t).value[4..]) == Ok(PathField(n, t))
  {
    var desc := [KindByte(FIELD_PATH)] + Ascii(PathNameText(n));
    var c := U16TextBytes(t).value[4..];
    NamedDesc(FIELD_PATH, PathNameText(n));
    DescSplit(desc, c);
    PathKind(c, desc[1..4]);
    TextPayload(t);
    NameTablesInvert(BeatgridLocked, DateAdded, n, Sorting);
  }

  lemma TextReads(n: TextName, t: Text)
    requires n != Version && U16TextBytes(t).Ok?
    ensures ParseFieldDesc(TextDesc(n), U16TextBytes(t).value[4..]) == Ok(TextField(n, t))
  {
    var desc := TextDesc(n);
    var c := U16TextBytes(t).value[4..];
    NamedDesc(FIELD_TEXT, TextNameText(n));
    DescSplit(desc, c);
    TextKind(c, desc[1..4]);
    TextPayload(t);
    TextNameInverts(n);
  }

  /** vrsn comes back as Version through parse_field_desc's special case. */
  lemma VersionReads(t: Text)
    requires U16TextBytes(t).Ok?
    ensures ParseFieldDesc(TextDesc(Version), U16TextBytes(t).value[4..]) == Ok(TextField(Version, t))
  {
    var desc := Ascii("vrsn");
    var c := U16TextBytes(t).value[4..];
    CharsAscii("vrsn");
    DescVrsn(desc, c);
    TextKind(c, desc);
    TextPayload(t);
    TextNameInverts(Version);
  }

  lemma {:induction false} ContainerReads(n: ContainerName, fs: seq<Field>)
    requires WriteFieldsBytes(fs).Ok?
    ensures ParseFieldDesc([KindByte(FIELD_CONTAINER)] + Ascii(ContainerNameText(n)), WriteFieldsBytes(fs).value)
            == Ok(ContainerField(n, fs))
    decreases fs, 4
  {
    var desc := [KindByte(FIELD_CONTAINER)] + Ascii(ContainerNameText(n));
    var c := WriteFieldsBytes(fs).value;
    NamedDesc(FIELD_CONTAINER, ContainerNameText(n));
    DescSplit(desc, c);
    RoundTrip(fs);
    ContainerKind(c, desc[1..4], fs);
    NameTablesInvert(BeatgridLocked, DateAdded, FilePath, n);
  }

  // ----- the round trip -----

  /** The reads take_field makes over a framed field. */
  lemma FramedReads(buf: seq<byte>, pos: nat, b: seq<byte>)
    requires Framed(b) && pos + |b| <= |buf| && buf[pos..pos + |b|] == b
    ensures ReadN(buf, pos, 4) == (b[..4], pos + 4)
    ensures ReadN(buf, pos + 4, 4).0 == b[4..8] && ReadN(buf, pos + 4, 4).1 == pos + 8
    ensures UnpackU32(b[4..8]) == Ok(|b| - 8)
    ensures ReadN(buf, pos + 8, |b| - 8) == (b[8..], pos + |b|)
  {
    SliceWithin(buf, pos, b, 0, 4);
    SliceWithin(buf, pos, b, 4, 8);
    SliceWithin(buf, pos, b, 8, |b|);
    UnpackPackU32(|b| - 8);
  }

  /** The bytes of each piece in turn. */
  function Concat(pieces: seq<seq<byte>>): (b: seq<byte>)
  {
    if pieces == [] then [] else pieces[0] + Concat(pieces[1..])
  }

  /** A framed field whose descriptor and content parse as f. */
  predicate Holds(b: seq<byte>, f: Field)
  {
    Framed(b) && ParseFieldDesc(b[..4], b[8..]) == Ok(f)
  }

  /** Piece i holds field i, for every i. */
  predicate AllHold(pieces: seq<seq<byte>>, fs: seq<Field>)
    decreases fs
  {
    |pieces| == |fs| && (fs == [] || (Holds(pieces[0], fs[0]) && AllHold(pieces[1..], fs[1..])))
  }

  /** Framed pieces written at pos are read back in order, and reading goes
      on after them. */
  lemma {:induction false} PiecesReadBack(buf: seq<byte>, pos: nat, fs: seq<Field>, pieces: seq<seq<byte>>, end: nat)
    requires AllHold(pieces, fs)
    requires end == pos + |Concat(pieces)| <= |buf| && buf[pos..end] == Concat(pieces)
    ensures TakeFieldsFrom(buf, pos) == Prepend(fs, TakeFieldsFrom(buf, end))
    decreases |fs|
  {
    if fs == [] {
      PrependNone(TakeFieldsFrom(buf, pos));
    } else {
      var next := FirstPiece(buf, pos, fs, pieces, end);
      PiecesReadBack(buf, next, fs[1..], pieces[1..], end);
      ReadsFirst(buf, pos, fs, pieces, next, end);
    }
  }

  /** Reading from pos is reading the first field, then the rest from next. */
  lemma ReadsFirst(buf: seq<byte>, pos: nat, fs: seq<Field>, pieces: seq<seq<byte>>, next: nat, end: nat)
    requires fs != [] && |pieces| > 0 && Holds(pieces[0], fs[0])
    requires next == pos + |pieces[0]| <= end <= |buf| && buf[pos..next] == pieces[0]
    requires TakeFieldsFrom(buf, next) == Prepend(fs[1..], TakeFieldsFrom(buf, end))
    ensures TakeFieldsFrom(buf, pos) == Prepend(fs, TakeFieldsFrom(buf, end))
  {
    ConsReads(buf, pos, fs[0], pieces[0], fs[1..], next, end);
    HeadTail(fs);
  }

  /** The first piece is framed at pos, and the rest follow it up to end. */
  lemma FirstPiece(buf: seq<byte>, pos: nat, fs: seq<Field>, pieces: seq<seq<byte>>, end: nat) returns (next: nat)
    requires fs != [] && AllHold(pieces, fs)
    requires end == pos + |Concat(pieces)| <= |buf| && buf[pos..end] == Concat(pieces)
    ensures Holds(pieces[0], fs[0]) && AllHold(pieces[1..], fs[1..])
    ensures next == pos + |pieces[0]| <= end && buf[pos..next] == pieces[0]
    ensures end == next + |Concat(pieces[1..])| <= |buf| && buf[next..end] == Concat(pieces[1..])
  {
    var b := pieces[0];
    next := pos + |b|;
    assert Concat(pieces) == b + Concat(pieces[1..]);
    SliceSplit(buf, pos, b, Concat(pieces[1..]));
  }

  /** The writer's bytes for a list are the framed bytes of each field. */
  lemma {:induction false} WrittenPieces(fs: seq<Field>) returns (pieces: seq<seq<byte>>)
    requires WriteFieldsBytes(fs).Ok?
    ensures AllHold(pieces, fs)
    ensures WriteFieldsBytes(fs).value == Concat(pieces)
    decreases fs, 2
  {
    if fs == [] {
      pieces := [];
    } else {
      WriteFieldsCons(fs);
      FieldLayout(fs[0]);
      var tail := WrittenPieces(fs[1..]);
      pieces := [WriteFieldBytes(fs[0]).value] + tail;
      assert pieces[1..] == tail;
    }
  }

  /** The written list is its first field's bytes, then the rest's. */
  lemma WriteFieldsCons(fs: seq<Field>)
    requires fs != [] && WriteFieldsBytes(fs).Ok?
    ensures WriteFieldBytes(fs[0]).Ok? && WriteFieldsBytes(fs[1..]).Ok?
    ensures WriteFieldsBytes(fs).value == WriteFieldBytes(fs[0]).value + WriteFieldsBytes(fs[1..]).value
  {
  }

  /** A framed field followed by fields that read as rest reads as the
      field, then rest. */
  lemma ConsReads(buf: seq<byte>, pos: nat, f: Field, b: seq<byte>, rest: seq<Field>, next: nat, end: nat)
    requires Holds(b, f)
    requires next == pos + |b| <= end <= |buf| && buf[pos..next] == b
    requires TakeFieldsFrom(buf, next) == Prepend(rest, TakeFieldsFrom(buf, end))
    ensures TakeFieldsFrom(buf, pos) == Prepend([f] + rest, TakeFieldsFrom(buf, end))
  {
    FramedStep(buf, pos, b, f, next);
    PrependChain([f], rest, TakeFieldsFrom(buf, pos), TakeFieldsFrom(buf, next), TakeFieldsFrom(buf, end));
  }

  /** A framed field at pos is the first field read from pos on. */
  lemma FramedStep(buf: seq<byte>, pos: nat, b: seq<byte>, f: Field, next: nat)
    requires Holds(b, f) && next == pos + |b| <= |buf| && buf[pos..next] == b
    ensures TakeFieldsFrom(buf, pos) == Prepend([f], TakeFieldsFrom(buf, next))
  {
    FramedReads(buf, pos, b);
    assert TakeField(buf, pos) == Ok(Some((f, next)));
    TakeFieldsStep(buf, pos, f, next);
  }

  lemma HeadTail(fs: seq<Field>)
    requires fs != []
    ensures [fs[0]] + fs[1..] == fs
  {
  }

  /** Reading xs and then ys is reading xs + ys. */
  lemma PrependChain(xs: seq<Field>, ys: seq<Field>, a: Result<seq<Field>>, b: Result<seq<Field>>, c: Result<seq<Field>>)
    requires a == Prepend(xs, b) && b == Prepend(ys, c)
    ensures a == Prepend(xs + ys, c)
  {
    PrependAssoc(xs, ys, c);
  }

  /** Two pieces written one after the other are found one after the
      other. */
  lemma SliceSplit(buf: seq<byte>, pos: nat, x: seq<byte>, y: seq<byte>)
    requires pos + |x| + |y| <= |buf| && buf[pos..pos + |x| + |y|] == x + y
    ensures buf[pos..pos + |x|] == x && buf[pos + |x|..pos + |x| + |y|] == y
  {
    SliceWithin(buf, pos, x + y, 0, |x|);
    SliceWithin(buf, pos, x + y, |x|, |x| + |y|);
    assert (x + y)[..|x|] == x && (x + y)[|x|..] == y;
  }

  /** Part of bytes found at pos is found at the same offsets from pos. */
  lemma SliceWithin(buf: seq<byte>, pos: nat, b: seq<byte>, i: nat, j: nat)
    requires pos + |b| <= |buf| && buf[pos..pos + |b|] == b && i <= j <= |b|
    ensures buf[pos + i..pos + j] == b[i..j]
  {
    forall k | i <= k < j ensures buf[pos + k] == b[k] {
      assert buf[pos..pos + |b|][k] == buf[pos + k];
    }
  }

  /** One field taken, the rest read from where it ends. */
  lemma TakeFieldsStep(buf: seq<byte>, pos: nat, f: Field, next: nat)
    requires pos <= |buf| && TakeField(buf, pos) == Ok(Some((f, next)))
    ensures next <= |buf| && TakeFieldsFrom(buf, pos) == Prepend([f], TakeFieldsFrom(buf, next))
  {
  }

  /** take_fields(write_fields(xs)) == xs for every list the writer
      accepts. */
  lemma {:induction false} RoundTrip(fs: seq<Field>)
    requires WriteFieldsBytes(fs).Ok?
    ensures TakeFields(WriteFieldsBytes(fs).value) == Ok(fs)
    decreases fs, 3
  {
    var b := WriteFieldsBytes(fs).value;
    assert b[0..|b|] == b;
    var pieces := WrittenPieces(fs);
    PiecesReadBack(b, 0, fs, pieces, |b|);
    TakeFieldsEnd(b, |b|);
    assert fs + [] == fs;
  }

  // ----- the stream and the writers -----

  /** A writer's outcome: it succeeds exactly when the bytes it should
      append exist, and then it appended them and counted them; a failure
      is the same error. */
  predicate Appended(before: seq<byte>, after: seq<byte>, r: Result<nat>, spec: Result<seq<byte>>)
  {
    && (r.Ok? <==> spec.Ok?)
    && (r.Ok? ==> after == before + spec.value && r.value == |spec.value|)
    && (r.Err? ==> r.error == spec.error)
  }

  /** The BytesIO the writers append to. */
  class ByteStream {
    var data: seq<byte>

    constructor ()
      ensures data == []
    {
      data := [];
    }

    /** write: append and return the number of bytes written. */
    method Write(b: seq<byte>) returns (n: nat)
      modifies this
      ensures data == old(data) + b && n == |b|
    {
      data := data + b;
      n := |b|;
    }
  }

  /** dump_field_desc: struct's '>4s' cuts or pads the descriptor to four
      bytes. */
  method DumpFieldDesc(fp: ByteStream, desc: seq<byte>) returns (n: nat)
    modifies fp
    ensures fp.data == old(fp.data) + FixedBytes(desc, 4) && n == 4
  {
    n := fp.Write(FixedBytes(desc, 4));
  }

  method DumpFieldLength(fp: ByteStream, length: nat) returns (r: Result<nat>)
    modifies fp
    ensures Appended(old(fp.data), fp.data, r, LengthBytes(length))
    ensures r.Err? ==> fp.data == old(fp.data)
  {
    if length >= 0x1_0000_0000 {
      return Err(StructError);
    }
    var n := fp.Write(PackU32(length));
    return Ok(n);
  }

  method DumpBool(fp: ByteStream, v: bool) returns (n: nat)
    modifies fp
    ensures fp.data == old(fp.data) + BoolBytes(v) && n == |BoolBytes(v)|
  {
    var b: seq<byte> := [if v then 0x01 else 0x00];
    var l := DumpFieldLength(fp, |b|);
    var w := fp.Write(b);
    n := w + l.value;
  }

  method DumpU16Text(fp: ByteStream, t: Text) returns (r: Result<nat>)
    modifies fp
    ensures Appended(old(fp.data), fp.data, r, U16TextBytes(t))
    ensures r.Err? ==> fp.data == old(fp.data)
  {
    var data := Encode16(t);
    var l := DumpFieldLength(fp, |data|);
    if l.Err? {
      return Err(l.error);
    }
    var w := fp.Write(data);
    return Ok(w + l.value);
  }

  method DumpU16(fp: ByteStream, n: int) returns (r: Result<nat>)
    modifies fp
    ensures Appended(old(fp.data), fp.data, r, U16Bytes(n))
    ensures r.Err? ==> fp.data == old(fp.data)
  {
    if !(0 <= n < 0x1_0000) {
      return Err(StructError);
    }
    var data := PackU16(n);
    var l := DumpFieldLength(fp, |data|);
    var w := fp.Write(data);
    return Ok(w + l.value);
  }

  method DumpU32(fp: ByteStream, n: int) returns (r: Result<nat>)
    modifies fp
    ensures Appended(old(fp.data), fp.data, r, U32Bytes(n))
    ensures r.Err? ==> fp.data == old(fp.data)
  {
    if !(0 <= n < 0x1_0000_0000) {
      return Err(StructError);
    }
    var data := PackU32(n);
    var l := DumpFieldLength(fp, |data|);
    var w := fp.Write(data);
    return Ok(w + l.value);
  }

  method DumpFieldContent(fp: ByteStream, name: string, kind: CrateFieldKind, f: Field) returns (r: Result<nat>)
    requires IsKnown(f) && kind == FieldType(f) && IsAsciiText(name)
    modifies fp
    ensures Appended(old(fp.data), fp.data, r, FieldContentBytes(name, kind, f))
    ensures r.Err? ==> fp.data == old(fp.data)
  {
    match kind
    case FIELD_BOOL =>
      var n := DumpBool(fp, f.flag);
      r := Ok(n);
    case FIELD_U32 =>
      r := DumpU32(fp, f.number);
    case FIELD_PATH =>
      r := DumpU16Text(fp, f.path);
    case FIELD_TEXT =>
      r := DumpU16Text(fp, f.text);
    case FIELD_CONTAINER =>
      var n := DumpFieldDesc(fp, Ascii(name));
      r := Ok(n);
    case _ =>
      r := Err(ValueError);
  }

  /** write_field: appends the field and returns the number of bytes
      written. An unknown field fails before anything is written; any other
      failure comes after the descriptor was written. */
  method WriteField(fp: ByteStream, f: Field) returns (r: Result<nat>)
    modifies fp
    ensures Appended(old(fp.data), fp.data, r, WriteFieldBytes(f))
    ensures r.Err? ==> fp.data == if IsKnown(f) then old(fp.data) + Descriptor(f) else old(fp.data)
    decreases f, 2
  {
    var kind := FieldType(f);
    var name := FieldName(f);
    if name.Err? {
      return Err(name.error);
    }
    VrsnOnlyForVersion(f);
    if name.value == "vrsn" {
      r := WriteVersion(fp, f.text);
    } else if kind == FIELD_CONTAINER {
      r := WriteContainer(fp, [KindByte(kind)] + Ascii(name.value), f.fields);
    } else {
      r := WriteScalar(fp, [KindByte(kind)] + Ascii(name.value), name.value, kind, f);
    }
  }

  /** The vrsn branch of write_field: the raw descriptor, then the content
      as text. */
  method WriteVersion(fp: ByteStream, text: Text) returns (r: Result<nat>)
    modifies fp
    ensures Appended(old(fp.data), fp.data, r, ScalarBytes(Ascii("vrsn"), U16TextBytes(text)))
    ensures r.Err? ==> fp.data == old(fp.data) + Ascii("vrsn")
  {
    var dc := DumpFieldDesc(fp, Ascii("vrsn"));
    assert FixedBytes(Ascii("vrsn"), 4) == Ascii("vrsn");
    var cc := DumpU16Text(fp, text);
    if cc.Err? {
      return Err(cc.error);
    }
    return Ok(dc + cc.value);
  }

  /** The container branch of write_field: the descriptor, then the length
      of the children written to a fresh stream, then the children. */
  method WriteContainer(fp: ByteStream, desc: seq<byte>, fields: seq<Field>) returns (r: Result<nat>)
    requires |desc| == 4
    modifies fp
    ensures Appended(old(fp.data), fp.data, r, ContainerBytes(desc, WriteFieldsBytes(fields)))
    ensures r.Err? ==> fp.data == old(fp.data) + desc
    decreases fields, 1
  {
    var dc := DumpFieldDesc(fp, desc);
    assert FixedBytes(desc, 4) == desc by {
      assert desc[..4] == desc;
    }
    var sub := new ByteStream();
    var w := WriteFields(sub, fields);
    ghost var kids := WriteFieldsBytes(fields);
    assert fp.data == old(fp.data) + desc;
    if w.Err? {
      assert ContainerBytes(desc, kids) == Err(kids.error);
      return Err(w.error);
    }
    assert [] + kids.value == kids.value;
    assert kids == Ok(sub.data);
    r := WriteChildren(fp, old(fp.data), desc, sub.data, dc);
  }

  /** The rest of the container branch, once the children are written:
      their length, then the children themselves. */
  method WriteChildren(fp: ByteStream, ghost before: seq<byte>, ghost desc: seq<byte>, container: seq<byte>, dc: nat)
    returns (r: Result<nat>)
    requires fp.data == before + desc && dc == |desc|
    modifies fp
    ensures Appended(before, fp.data, r, ContainerBytes(desc, Ok(container)))
    ensures r.Err? ==> fp.data == before + desc
  {
    var lc := DumpFieldLength(fp, |container|);
    if lc.Err? {
      return Err(lc.error);
    }
    var n := fp.Write(container);
    return Ok(n + lc.value + dc);
  }

  /** The other branch of write_field: type byte and name, then the
      content. */
  method WriteScalar(fp: ByteStream, desc: seq<byte>, name: string, kind: CrateFieldKind, f: Field) returns (r: Result<nat>)
    requires IsKnown(f) && kind == FieldType(f) && IsAsciiText(name) && |desc| == 4
    modifies fp
    ensures Appended(old(fp.data), fp.data, r, ScalarBytes(desc, FieldContentBytes(name, kind, f)))
    ensures r.Err? ==> fp.data == old(fp.data) + desc
  {
    var dc := DumpFieldDesc(fp, desc);
    assert FixedBytes(desc, 4) == desc by {
      assert desc[..4] == desc;
    }
    var cc := DumpFieldContent(fp, name, kind, f);
    if cc.Err? {
      return Err(cc.error);
    }
    return Ok(dc + cc.value);
  }

  /** One step of write_fields: the first field's bytes, then the rest's. */
  lemma FieldsUnfold(gs: seq<Field>)
    requires gs != []
    ensures WriteFieldBytes(gs[0]).Err? ==> WriteFieldsBytes(gs) == Err(WriteFieldBytes(gs[0]).error)
    ensures WriteFieldBytes(gs[0]).Ok? ==>
      WriteFieldsBytes(gs) == Prepend(WriteFieldBytes(gs[0]).value, WriteFieldsBytes(gs[1..]))
  {
  }

  /** write_field on the first of the fields still to write, as write_fields
      sees it: the bytes it appends are the first piece of what is left. */
  method WriteNext(fp: ByteStream, rest: seq<Field>) returns (r: Result<nat>, ghost piece: seq<byte>)
    requires rest != []
    modifies fp
    ensures r.Ok? ==> fp.data == old(fp.data) + piece && r.value == |piece|
                      && WriteFieldsBytes(rest) == Prepend(piece, WriteFieldsBytes(rest[1..]))
    ensures r.Err? ==> WriteFieldsBytes(rest) == Err(r.error) && old(fp.data) <= fp.data
    decreases rest[0], 3
  {
    FieldsUnfold(rest);
    r := WriteField(fp, rest[0]);
    if r.Err? {
      if IsKnown(rest[0]) {
        assert old(fp.data) <= old(fp.data) + Descriptor(rest[0]);
      }
      piece := [];
    } else {
      piece := WriteFieldBytes(rest[0]).value;
    }
  }

  /** One round of write_fields' loop: field i is written after the bytes
      of the fields before it. */
  method WriteStep(fp: ByteStream, fs: seq<Field>, i: nat, ghost start: seq<byte>, ghost written: seq<byte>)
    returns (r: Result<nat>, ghost grown: seq<byte>)
    requires i < |fs| && fp.data == start + written
    requires WriteFieldsBytes(fs) == Prepend(written, WriteFieldsBytes(fs[i..]))
    modifies fp
    ensures r.Ok? ==> fp.data == start + grown && |grown| == |written| + r.value
    ensures r.Ok? ==> WriteFieldsBytes(fs) == Prepend(grown, WriteFieldsBytes(fs[i + 1..]))
    ensures r.Err? ==> WriteFieldsBytes(fs) == Err(r.error) && start <= fp.data
    decreases fs[i], 4
  {
    ghost var before := fp.data;
    assert fs[i..][0] == fs[i] && fs[i..][1..] == fs[i + 1..];
    ghost var piece;
    r, piece := WriteNext(fp, fs[i..]);
    if r.Err? {
      assert start <= before <= fp.data;
      grown := written;
    } else {
      PrependAssoc(written, piece, WriteFieldsBytes(fs[i + 1..]));
      grown := written + piece;
      ConcatAssoc(start, written, piece);
    }
  }

  /** write_fields: write each field in order and sum the counts; the first
      field that cannot be written stops the loop with its error. */
  method WriteFields(fp: ByteStream, fs: seq<Field>) returns (r: Result<nat>)
    modifies fp
    ensures Appended(old(fp.data), fp.data, r, WriteFieldsBytes(fs))
    ensures r.Err? ==> old(fp.data) <= fp.data
    decreases fs, 0
  {
    var b := 0;
    var i := 0;
    ghost var written: seq<byte> := [];
    assert fs[0..] == fs;
    PrependNone(WriteFieldsBytes(fs));
    while i < |fs|
      invariant 0 <= i <= |fs|
      invariant fp.data == old(fp.data) + written
      invariant b == |written|
      invariant WriteFieldsBytes(fs) == Prepend(written, WriteFieldsBytes(fs[i..]))
      decreases |fs| - i
    {
      var n;
      n, written := WriteStep(fp, fs, i, old(fp.data), written);
      if n.Err? {
        return Err(n.error);
      }
      b := b + n.value;
      i := i + 1;
    }
    assert fs[i..] == [];
    assert written + [] == written;
    return Ok(b);
  }
}
