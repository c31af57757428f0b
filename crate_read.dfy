// Reading Serato crate files: a tree of fields, each a four-byte
// descriptor (a type byte and a three-letter name, or the special `vrsn`),
// a big-endian u32 length and that many bytes of content.

module CrateRead {
  import opened Wrappers
  import opened Bytes

  /** Text as the crate stores it: UTF-16 code units. */
  type Text = seq<u16>

  /** The type byte of a descriptor. */
  datatype CrateFieldKind =
    | FIELD_BOOL | FIELD_CONTAINER | FIELD_CONTAINER_R | FIELD_PATH
    | FIELD_TEXT | FIELD_U16 | FIELD_U32

  function KindByte(k: CrateFieldKind): byte
  {
    match k
    case FIELD_BOOL => 0x62          // 'b'
    case FIELD_CONTAINER => 0x6F     // 'o'
    case FIELD_CONTAINER_R => 0x72   // 'r'
    case FIELD_PATH => 0x70          // 'p'
    case FIELD_TEXT => 0x74          // 't'
    case FIELD_U16 => 0x73           // 's'
    case FIELD_U32 => 0x75           // 'u'
  }

  /** The kind a one-byte type code stands for, if any. */
  function KindOf(t: seq<byte>): (k: Option<CrateFieldKind>)
    ensures k.Some? ==> t == [KindByte(k.value)]
  {
    if |t| != 1 then None
    else if t[0] == 0x62 then Some(FIELD_BOOL)
    else if t[0] == 0x6F then Some(FIELD_CONTAINER)
    else if t[0] == 0x72 then Some(FIELD_CONTAINER_R)
    else if t[0] == 0x70 then Some(FIELD_PATH)
    else if t[0] == 0x74 then Some(FIELD_TEXT)
    else if t[0] == 0x73 then Some(FIELD_U16)
    else if t[0] == 0x75 then Some(FIELD_U32)
    else None
  }

  lemma KindOfByte(k: CrateFieldKind)
    ensures KindOf([KindByte(k)]) == Some(k)
  {
  }

  // ----- the field classes -----

  datatype BoolName = BeatgridLocked | Missing | ReverseOrder
  datatype U32Name = DateAdded | FileTime
  datatype PathName = FilePath | TrackPath
  datatype TextName =
    | DateAddedStr | Album | Artist | Bitrate | BPM | Composer | Comment
    | Genre | Grouping | Key | Label | Length | FileSize | SampleRate
    | SongTitle | FileType | Year | ColumnName | ColumnWidth | Version
  datatype ContainerName = Sorting | Track | ColumnTitle

  /** A crate field: one of the named classes, grouped by the type of their
      value, or one of the Unknown* classes that keep the raw name. */
  datatype Field =
    | BoolField(bn: BoolName, flag: bool)
    | U32Field(un: U32Name, number: int)
    | PathField(pn: PathName, path: Text)
    | TextField(tn: TextName, text: Text)
    | ContainerField(cn: ContainerName, fields: seq<Field>)
    | UnknownBooleanField(name: seq<byte>, flag: bool)
    | UnknownU16Field(name: seq<byte>, number: int)
    | UnknownU32Field(name: seq<byte>, number: int)
    | UnknownPathField(name: seq<byte>, path: Text)
    | UnknownTextField(name: seq<byte>, text: Text)
    | UnknownContainerField(name: seq<byte>, fields: seq<Field>)
    | UnknownContainerRField(name: seq<byte>, fields: seq<Field>)
    | Unknown(fieldType: seq<byte>, name: seq<byte>, content: seq<byte>)

  predicate IsKnown(f: Field)
  {
    f.BoolField? || f.U32Field? || f.PathField? || f.TextField? || f.ContainerField?
  }

  /** Bytes read as Latin-1 characters, for comparing names with literals. */
  function Chars(b: seq<byte>): (s: string)
    ensures |s| == |b| && forall i :: 0 <= i < |b| ==> s[i] as int == b[i] as int
  {
    seq(|b|, i requires 0 <= i < |b| => b[i] as int as char)
  }

  predicate IsAsciiText(s: string)
  {
    forall i :: 0 <= i < |s| ==> s[i] as int < 128
  }

  lemma CharsAscii(s: string)
    requires IsAsciiText(s)
    ensures Chars(Ascii(s)) == s
  {
    var b := Ascii(s);
    forall i | 0 <= i < |s| ensures Chars(b)[i] == s[i] {
      ByteValue(s[i] as int);
    }
  }

  // ----- the parse_field_* lookup tables -----

  function BoolNameText(n: BoolName): (s: string)
    ensures IsAsciiText(s) && |s| == 3
  {
    match n
    case BeatgridLocked => "bgl"
    case Missing => "mis"
    case ReverseOrder => "rev"
  }

  function BoolNameOf(s: string): (n: Option<BoolName>)
    ensures n.Some? ==> BoolNameText(n.value) == s
  {
    if s == "bgl" then Some(BeatgridLocked)
    else if s == "mis" then Some(Missing)
    else if s == "rev" then Some(ReverseOrder)
    else None
  }

  function U32NameText(n: U32Name): (s: string)
    ensures IsAsciiText(s) && |s| == 3
  {
    match n
    case DateAdded => "add"
    case FileTime => "tme"
  }

  function U32NameOf(s: string): (n: Option<U32Name>)
    ensures n.Some? ==> U32NameText(n.value) == s
  {
    if s == "add" then Some(DateAdded)
    else if s == "tme" then Some(FileTime)
    else None
  }

  function PathNameText(n: PathName): (s: string)
    ensures IsAsciiText(s) && |s| == 3
  {
    match n
    case FilePath => "fil"
    case TrackPath => "trk"
  }

  function PathNameOf(s: string): (n: Option<PathName>)
    ensures n.Some? ==> PathNameText(n.value) == s
  {
    if s == "fil" then Some(FilePath)
    else if s == "trk" then Some(TrackPath)
    else None
  }

  function TextNameText(n: TextName): (s: string)
    ensures IsAsciiText(s) && |s| == if n == Version then 4 else 3
  {
    match n
    case DateAddedStr => "add"
    case Album => "alb"
    case Artist => "art"
    case Bitrate => "bit"
    case BPM => "bpm"
    case Composer => "cmp"
    case Comment => "com"
    case Genre => "gen"
    case Grouping => "grp"
    case Key => "key"
    case Label => "lbl"
    case Length => "len"
    case FileSize => "siz"
    case SampleRate => "smp"
    case SongTitle => "sng"
    case FileType => "typ"
    case Year => "tyr"
    case ColumnName => "vcn"
    case ColumnWidth => "vcw"
    case Version => "vrsn"
  }

  function TextNameOf(s: string): (n: Option<TextName>)
    ensures n.Some? ==> TextNameText(n.value) == s
  {
    if s == "add" then Some(DateAddedStr)
    else if s == "alb" then Some(Album)
    else if s == "art" then Some(Artist)
    else if s == "bit" then Some(Bitrate)
    else if s == "bpm" then Some(BPM)
    else if s == "cmp" then Some(Composer)
    else if s == "com" then Some(Comment)
    else if s == "gen" then Some(Genre)
    else if s == "grp" then Some(Grouping)
    else if s == "key" then Some(Key)
    else if s == "lbl" then Some(Label)
    else if s == "len" then Some(Length)
    else if s == "siz" then Some(FileSize)
    else if s == "smp" then Some(SampleRate)
    else if s == "sng" then Some(SongTitle)
    else if s == "typ" then Some(FileType)
    else if s == "tyr" then Some(Year)
    else if s == "vcn" then Some(ColumnName)
    else if s == "vcw" then Some(ColumnWidth)
    else if s == "vrsn" then Some(Version)
    else None
  }

  function ContainerNameText(n: ContainerName): (s: string)
    ensures IsAsciiText(s) && |s| == 3
  {
    match n
    case Sorting => "srt"
    case Track => "trk"
    case ColumnTitle => "vct"
  }

  function ContainerNameOf(s: string): (n: Option<ContainerName>)
    ensures n.Some? ==> ContainerNameText(n.value) == s
  {
    if s == "srt" then Some(Sorting)
    else if s == "trk" then Some(Track)
    else if s == "vct" then Some(ColumnTitle)
    else None
  }

  /** Each table maps a class's name back to that class: the tables are
      inverse to the names the writer gives. */
  lemma NameTablesInvert(b: BoolName, u: U32Name, p: PathName, c: ContainerName)
    ensures BoolNameOf(BoolNameText(b)) == Some(b)
    ensures U32NameOf(U32NameText(u)) == Some(u)
    ensures PathNameOf(PathNameText(p)) == Some(p)
    ensures ContainerNameOf(ContainerNameText(c)) == Some(c)
  {
  }

  lemma TextNameInverts(t: TextName)
    ensures TextNameOf(TextNameText(t)) == Some(t)
  {
    if t == DateAddedStr || t == Album || t == Artist || t == Bitrate || t == BPM || t == Composer || t == Comment {
      TextNamesInvert1(t);
    } else if t == Genre || t == Grouping || t == Key || t == Label || t == Length || t == FileSize {
      TextNamesInvert2(t);
    } else if t == SampleRate || t == SongTitle || t == FileType || t == Year {
      TextNamesInvert3(t);
    } else if t == ColumnName || t == ColumnWidth {
      TextNamesInvert4(t);
    } else {
      TextNamesInvert5();
    }
  }

  lemma TextNamesInvert1(t: TextName)
    requires t == DateAddedStr || t == Album || t == Artist || t == Bitrate || t == BPM || t == Composer || t == Comment
    ensures TextNameOf(TextNameText(t)) == Some(t)
  {
    match t
    case DateAddedStr =>
    case Album =>
    case Artist =>
    case Bitrate =>
    case BPM =>
    case Composer =>
    case Comment =>
  }

  lemma TextNamesInvert2(t: TextName)
    requires t == Genre || t == Grouping || t == Key || t == Label || t == Length || t == FileSize
    ensures TextNameOf(TextNameText(t)) == Some(t)
  {
    match t
    case Genre =>
    case Grouping =>
    case Key =>
    case Label =>
    case Length =>
    case FileSize =>
  }

  lemma TextNamesInvert3(t: TextName)
    requires t == SampleRate || t == SongTitle || t == FileType || t == Year
    ensures TextNameOf(TextNameText(t)) == Some(t)
  {
    match t
    case SampleRate =>
    case SongTitle =>
    case FileType =>
    case Year =>
  }

  lemma TextNamesInvert4(t: TextName)
    requires t == ColumnName || t == ColumnWidth
    ensures TextNameOf(TextNameText(t)) == Some(t)
  {
    match t
    case ColumnName =>
    case ColumnWidth =>
  }

  lemma TextNamesInvert5()
    ensures TextNameOf(TextNameText(Version)) == Some(Version)
  {
  }

  function ParseFieldBool(name: seq<byte>, value: bool): Field
  {
    match BoolNameOf(Chars(name))
    case Some(n) => BoolField(n, value)
    case None => UnknownBooleanField(name, value)
  }

  function ParseFieldU32(name: seq<byte>, value: int): Field
  {
    match U32NameOf(Chars(name))
    case Some(n) => U32Field(n, value)
    case None => UnknownU32Field(name, value)
  }

  function ParseFieldPath(name: seq<byte>, path: Text): Field
  {
    match PathNameOf(Chars(name))
    case Some(n) => PathField(n, path)
    case None => UnknownPathField(name, path)
  }

  function ParseFieldText(name: seq<byte>, text: Text): Field
  {
    match TextNameOf(Chars(name))
    case Some(n) => TextField(n, text)
    case None => UnknownTextField(name, text)
  }

  function ParseFieldContainer(name: seq<byte>, fields: seq<Field>): Field
  {
    match ContainerNameOf(Chars(name))
    case Some(n) => ContainerField(n, fields)
    case None => UnknownContainerField(name, fields)
  }

  /** The same name trk is a TrackPath under type p and a Track under type
      o. */
  lemma TrkTwoMeanings(path: Text, fields: seq<Field>)
    ensures ParseFieldPath(Ascii("trk"), path) == PathField(TrackPath, path)
    ensures ParseFieldContainer(Ascii("trk"), fields) == ContainerField(Track, fields)
  {
    CharsAscii("trk");
  }

  // ----- text content -----

  /** bytes.decode('utf-16be', errors='replace') on code units: each pair of
      bytes is a unit, and an odd trailing byte becomes U+FFFD. */
  function Decode16(b: seq<byte>): (t: Text)
    decreases |b|
  {
    if |b| == 0 then []
    else if |b| == 1 then [0xFFFD]
    else
      assert FromBE(b[..2]) < 0x1_0000 by { assert Pow256(2) == 0x1_0000; }
      [FromBE(b[..2]) as u16] + Decode16(b[2..])
  }

  // ----- take_field and take_fields -----

  /** take_field at pos: a descriptor shorter than four bytes gives None;
      otherwise a '>I' length (struct.error when cut short), up to that many
      bytes of content, and the field parsed from them alone. Returns the
      field and the position after its content. */
  function TakeField(buf: seq<byte>, pos: nat): (r: Result<Option<(Field, nat)>>)
    requires pos <= |buf|
    ensures r.Ok? && r.value.Some? ==> pos + 8 <= r.value.value.1 <= |buf|
    decreases |buf|, |buf| - pos
  {
    var (desc, p1) := ReadN(buf, pos, 4);
    if |desc| < 4 then Ok(None)
    else
      var (lengthBytes, p2) := ReadN(buf, p1, 4);
      var length :- UnpackU32(lengthBytes);
      var (content, p3) := ReadN(buf, p2, length);
      var f :- ParseFieldDesc(desc, content);
      Ok(Some((f, p3)))
  }

  /** The fields from pos on, until a descriptor is cut short. */
  function TakeFieldsFrom(buf: seq<byte>, pos: nat): (r: Result<seq<Field>>)
    requires pos <= |buf|
    decreases |buf|, |buf| - pos + 1
  {
    var t :- TakeField(buf, pos);
    if t.None? then Ok([])
    else Prepend([t.value.0], TakeFieldsFrom(buf, t.value.1))
  }

  /** take_fields on a whole buffer. */
  function TakeFields(buf: seq<byte>): (r: Result<seq<Field>>)
  {
    TakeFieldsFrom(buf, 0)
  }

  /** parse_field_desc: vrsn is read as a text field named vrsn; any other
      descriptor is type byte 0 and name bytes 1 to 3. */
  function ParseFieldDesc(desc: seq<byte>, content: seq<byte>): (r: Result<Field>)
    requires |desc| == 4
    decreases |content|, |content| + 3
  {
    if Chars(desc) == "vrsn" then ParseField(content, desc, [KindByte(FIELD_TEXT)])
    else ParseField(content, desc[1..4], desc[..1])
  }

  /** parse_field: the content read according to the type byte. Booleans,
      u16 and u32 need their bytes (struct.error otherwise); text and paths
      take all of it; containers are parsed as fields of their own; any
      other type keeps the raw content. */
  function ParseField(content: seq<byte>, name: seq<byte>, fieldType: seq<byte>): (r: Result<Field>)
    decreases |content|, |content| + 2
  {
    match KindOf(fieldType)
    case Some(FIELD_BOOL) =>
      if |content| < 1 then Err(StructError) else Ok(ParseFieldBool(name, content[0] != 0))
    case Some(FIELD_U16) =>
      var v :- UnpackU16(ReadN(content, 0, 2).0);
      Ok(UnknownU16Field(name, v))
    case Some(FIELD_U32) =>
      var v :- UnpackU32(ReadN(content, 0, 4).0);
      Ok(ParseFieldU32(name, v))
    case Some(FIELD_PATH) => Ok(ParseFieldPath(name, Decode16(content)))
    case Some(FIELD_TEXT) => Ok(ParseFieldText(name, Decode16(content)))
    case Some(FIELD_CONTAINER) =>
      var fields :- TakeFieldsFrom(content, 0);
      Ok(ParseFieldContainer(name, fields))
    case Some(FIELD_CONTAINER_R) =>
      var fields :- TakeFieldsFrom(content, 0);
      Ok(UnknownContainerRField(name, fields))
    case None => Ok(Unknown(fieldType, name, content))
  }

  /** take_fields with its loop: take_field until it gives None. */
  method TakeFieldsLoop(buf: seq<byte>) returns (r: Result<seq<Field>>)
    ensures r == TakeFields(buf)
  {
    var pos: nat := 0;
    var parsed: seq<Field> := [];
    PrependNone(TakeFieldsFrom(buf, 0));
    while true
      invariant pos <= |buf|
      invariant TakeFields(buf) == Prepend(parsed, TakeFieldsFrom(buf, pos))
      decreases |buf| - pos
    {
      var field := TakeField(buf, pos);
      if field.Err? {
        return Err(field.error);
      }
      if field.value.None? {
        assert parsed + [] == parsed;
        return Ok(parsed);
      }
      var (f, next) := field.value.value;
      PrependAssoc(parsed, [f], TakeFieldsFrom(buf, next));
      parsed := parsed + [f];
      pos := next;
    }
  }

  /** A descriptor cut short is the only normal end: at the end of the
      buffer, or with fewer than four bytes left, take_fields gives []. */
  lemma TakeFieldsEnd(buf: seq<byte>, pos: nat)
    requires pos <= |buf| && |buf| - pos < 4
    ensures TakeFieldsFrom(buf, pos) == Ok([])
  {
  }

  /** A descriptor with a cut-short length is an error, not an end. */
  lemma TakeFieldsShortLength(buf: seq<byte>, pos: nat)
    requires pos + 4 <= |buf| < pos + 8
    ensures TakeFieldsFrom(buf, pos) == Err(StructError)
  {
  }

  // ----- get_track_paths -----

  /** The path a field contributes: a Track whose value is exactly one
      TrackPath. */
  function TrackPathOf(f: Field): Option<Text>
  {
    if f.ContainerField? && f.cn == Track && |f.fields| == 1
       && f.fields[0].PathField? && f.fields[0].pn == TrackPath
    then Some(f.fields[0].path)
    else None
  }

  /** get_track_paths: reduce over the fields from the left, appending each
      contributed path. */
  function GetTrackPaths(fields: seq<Field>): seq<Text>
  {
    CollectPaths([], fields)
  }

  function CollectPaths(acc: seq<Text>, fields: seq<Field>): seq<Text>
    decreases |fields|
  {
    if fields == [] then acc
    else
      var p := TrackPathOf(fields[0]);
      CollectPaths(if p.Some? then acc + [p.value] else acc, fields[1..])
  }

  /** The contributed paths in file order, as a plain right-to-left
      definition. */
  function Paths(fields: seq<Field>): seq<Text>
    decreases |fields|
  {
    if fields == [] then []
    else
      var p := TrackPathOf(fields[0]);
      (if p.Some? then [p.value] else []) + Paths(fields[1..])
  }

  lemma {:induction false} CollectPathsSpec(acc: seq<Text>, fields: seq<Field>)
    ensures CollectPaths(acc, fields) == acc + Paths(fields)
    decreases |fields|
  {
    if fields != [] {
      var p := TrackPathOf(fields[0]);
      var pre := if p.Some? then [p.value] else [];
      var acc' := if p.Some? then acc + [p.value] else acc;
      assert acc' == acc + pre;
      CollectPathsSpec(acc', fields[1..]);
      ConcatAssoc(acc, pre, Paths(fields[1..]));
    } else {
      assert acc + [] == acc;
    }
  }

  /** get_track_paths keeps, in order, exactly the paths of the Track
      fields that hold one TrackPath. */
  lemma GetTrackPathsSpec(fields: seq<Field>)
    ensures GetTrackPaths(fields) == Paths(fields)
  {
    CollectPathsSpec([], fields);
  }

  lemma {:induction false} PathsAppend(a: seq<Field>, b: seq<Field>)
    ensures Paths(a + b) == Paths(a) + Paths(b)
    decreases |a|
  {
    if a != [] {
      assert (a + b)[1..] == a[1..] + b;
      PathsAppend(a[1..], b);
    } else {
      assert a + b == b;
    }
  }

  /** A path is returned exactly when some field contributes it. */
  lemma {:induction false} PathsMembers(fields: seq<Field>, p: Text)
    ensures p in Paths(fields) <==> exists i :: 0 <= i < |fields| && TrackPathOf(fields[i]) == Some(p)
    decreases |fields|
  {
    if fields != [] {
      PathsMembers(fields[1..], p);
      if exists i :: 0 <= i < |fields| && TrackPathOf(fields[i]) == Some(p) {
        var i :| 0 <= i < |fields| && TrackPathOf(fields[i]) == Some(p);
        if i > 0 {
          assert TrackPathOf(fields[1..][i - 1]) == Some(p);
        }
      }
      if exists j :: 0 <= j < |fields[1..]| && TrackPathOf(fields[1..][j]) == Some(p) {
        var j :| 0 <= j < |fields[1..]| && TrackPathOf(fields[1..][j]) == Some(p);
        assert TrackPathOf(fields[j + 1]) == Some(p);
      }
    }
  }
}
