// The Serato tag table (one tag name per audio format and one envelope
// marker per tag) and the attribute-setting constructor shared by the
// Serato entry classes.

module SeratoTypes {
  import opened Wrappers
  import opened Bytes
  import opened Canonical

  /** The members of the SeratoTags enumeration, in declaration order. */
  datatype SeratoTag = AUTOTAGS | BEATGRID | MARKERS | MARKERS2 | OVERVIEW | ANALYSIS | RELVOL

  const ALL_TAGS: seq<SeratoTag> := [AUTOTAGS, BEATGRID, MARKERS, MARKERS2, OVERVIEW, ANALYSIS, RELVOL]

  /** STag.names: the metadata key under which each format stores the tag. */
  function TagName(tag: SeratoTag, fmt: AFormat): string
  {
    match (tag, fmt)
    case (AUTOTAGS, MP3) => "GEOB:Serato Autotags"
    case (AUTOTAGS, M4A) => "----:com.serato.dj:autgain"
    case (AUTOTAGS, FLAC) => "serato_autogain"
    case (BEATGRID, MP3) => "GEOB:Serato BeatGrid"
    case (BEATGRID, M4A) => "----:com.serato.dj:beatgrid"
    case (BEATGRID, FLAC) => "serato_beatgrid"
    case (MARKERS, MP3) => "GEOB:Serato Markers_"
    case (MARKERS, M4A) => "----:com.serato.dj:markers"
    case (MARKERS, FLAC) => "serato_markers"
    case (MARKERS2, MP3) => "GEOB:Serato Markers2"
    case (MARKERS2, M4A) => "----:com.serato.dj:markersv2"
    case (MARKERS2, FLAC) => "serato_markers_v2"
    case (OVERVIEW, MP3) => "GEOB:Serato Overview"
    case (OVERVIEW, M4A) => "----:com.serato.dj:overview"
    case (OVERVIEW, FLAC) => "serato_overview"
    case (ANALYSIS, MP3) => "GEOB:Serato Analysis"
    case (ANALYSIS, M4A) => "----:com.serato.dj:analysisVersion"
    case (ANALYSIS, FLAC) => "serato_analysis"
    case (RELVOL, MP3) => "RVA2:SeratoGain"
    case (RELVOL, M4A) => "----:com.serato.dj:relvol"
    case (RELVOL, FLAC) => "serato_relvol"
  }

  /** STag.marker as text; every marker is "Serato " and eight ASCII letters. */
  function MarkerText(tag: SeratoTag): string
  {
    match tag
    case AUTOTAGS => "Serato Autotags"
    case BEATGRID => "Serato BeatGrid"
    case MARKERS => "Serato Markers_"
    case MARKERS2 => "Serato Markers2"
    case OVERVIEW => "Serato Overview"
    case ANALYSIS => "Serato Analysis"
    case RELVOL => "Serato RelVolAd"
  }

  /** STag.marker, the envelope marker as bytes. */
  function Marker(tag: SeratoTag): (m: seq<byte>)
    ensures |m| == 15
  {
    MarkerTextPrintable(tag);
    Ascii(MarkerText(tag))
  }

  /** The marker texts are fifteen printable ASCII characters. */
  lemma MarkerTextPrintable(tag: SeratoTag)
    ensures |MarkerText(tag)| == 15 && MarkerText(tag)[0] == 'S'
    ensures forall i :: 0 <= i < |MarkerText(tag)| ==> 32 <= MarkerText(tag)[i] as int < 128
  {
  }

  /** serato_tag_name: the key of a tag in a given format. */
  function SeratoTagName(tag: SeratoTag, fmt: AFormat): (name: string)
    ensures |name| > 0
  {
    TagName(tag, fmt)
  }

  /** serato_tag_marker. */
  function SeratoTagMarker(tag: SeratoTag): (m: seq<byte>)
    ensures |m| == 15 && m[0] == 0x53 && NUL !in m
  {
    MarkerTextPrintable(tag);
    AsciiNoNul(MarkerText(tag));
    Marker(tag)
  }

  function At(s: string, i: nat): char
  {
    if i < |s| then s[i] else ' '
  }

  /** A few characters that tell the keys of one format apart. */
  function NameKey(s: string): (int, char, char, char, char)
  {
    (|s|, At(s, 12), At(s, 13), At(s, 19), if |s| > 0 then s[|s| - 1] else ' ')
  }

  lemma NameKeyValues(fmt: AFormat)
    ensures NameKey(TagName(AUTOTAGS, fmt)) == if fmt == MP3 then (20, 'A', 'u', 's', 's') else if fmt == M4A then (26, 'a', 't', 'a', 'n') else (15, 'a', 'i', ' ', 'n')
    ensures NameKey(TagName(BEATGRID, fmt)) == if fmt == MP3 then (20, 'B', 'e', 'd', 'd') else if fmt == M4A then (27, 'a', 't', 'b', 'd') else (15, 'r', 'i', ' ', 'd')
    ensures NameKey(TagName(MARKERS, fmt)) == if fmt == MP3 then (20, 'M', 'a', '_', '_') else if fmt == M4A then (26, 'a', 't', 'm', 's') else (14, 'r', 's', ' ', 's')
    ensures NameKey(TagName(MARKERS2, fmt)) == if fmt == MP3 then (20, 'M', 'a', '2', '2') else if fmt == M4A then (28, 'a', 't', 'm', '2') else (17, 'r', 's', ' ', '2')
    ensures NameKey(TagName(OVERVIEW, fmt)) == if fmt == MP3 then (20, 'O', 'v', 'w', 'w') else if fmt == M4A then (27, 'a', 't', 'o', 'w') else (15, 'i', 'e', ' ', 'w')
    ensures NameKey(TagName(ANALYSIS, fmt)) == if fmt == MP3 then (20, 'A', 'n', 's', 's') else if fmt == M4A then (34, 'a', 't', 'a', 'n') else (15, 's', 'i', ' ', 's')
    ensures NameKey(TagName(RELVOL, fmt)) == if fmt == MP3 then (15, 'a', 'i', ' ', 'n') else if fmt == M4A then (25, 'a', 't', 'r', 'l') else (13, 'l', ' ', ' ', 'l')
  {
  }

  /** Every tag has a key in every format, and within one format no two tags
      share a key, so reading one tag never picks up another. */
  lemma TagNamesDistinct(a: SeratoTag, b: SeratoTag, fmt: AFormat)
    ensures |TagName(a, fmt)| > 0
    ensures TagName(a, fmt) == TagName(b, fmt) <==> a == b
  {
    NameKeyValues(fmt);
    if a != b {
      assert NameKey(TagName(a, fmt)) != NameKey(TagName(b, fmt));
    }
  }

  /** The letters at positions 7, 8 and 14 tell the markers apart. */
  function MarkerKey(t: string): (char, char, char)
    requires |t| == 15
  {
    (t[7], t[8], t[14])
  }

  lemma MarkerKeyValues()
    ensures MarkerKey(MarkerText(AUTOTAGS)) == ('A', 'u', 's')
    ensures MarkerKey(MarkerText(BEATGRID)) == ('B', 'e', 'd')
    ensures MarkerKey(MarkerText(MARKERS)) == ('M', 'a', '_')
    ensures MarkerKey(MarkerText(MARKERS2)) == ('M', 'a', '2')
    ensures MarkerKey(MarkerText(OVERVIEW)) == ('O', 'v', 'w')
    ensures MarkerKey(MarkerText(ANALYSIS)) == ('A', 'n', 's')
    ensures MarkerKey(MarkerText(RELVOL)) == ('R', 'e', 'd')
  {
  }

  /** The seven envelope markers are pairwise distinct. */
  lemma MarkersDistinct(a: SeratoTag, b: SeratoTag)
    ensures Marker(a) == Marker(b) <==> a == b
  {
    if a != b {
      MarkerKeyValues();
      assert MarkerText(a) != MarkerText(b) by {
        assert MarkerKey(MarkerText(a)) != MarkerKey(MarkerText(b));
      }
      MarkerTextPrintable(a);
      MarkerTextPrintable(b);
      AsciiInjective(MarkerText(a), MarkerText(b));
    }
  }

  /** The object behind EntryBase(*args): FIELDS names the attributes, set
      from the constructor arguments in order. */
  class EntryBase<V> {
    const fields: seq<string>
    var attrs: map<string, V>

    constructor(fields: seq<string>)
      ensures this.fields == fields && attrs == map[]
    {
      this.fields := fields;
      attrs := map[];
    }

    /** __init__(*args): asserts one argument per field, then assigns them
        pairwise in field order (a repeated field name keeps the later value). */
    method Init(args: seq<V>) returns (r: Result<()>)
      modifies this
      ensures |args| != |fields| ==> r == Err(AssertionError) && attrs == old(attrs)
      ensures |args| == |fields| ==> r == Ok(()) && attrs == Assign(old(attrs), fields, args)
    {
      if |args| != |fields| {
        return Err(AssertionError);
      }
      var i := 0;
      while i < |fields|
        invariant 0 <= i <= |fields|
        invariant attrs == Assign(old(attrs), fields[..i], args[..i])
      {
        AssignSnoc(old(attrs), fields[..i], args[..i], fields[i], args[i]);
        assert fields[..i + 1] == fields[..i] + [fields[i]];
        assert args[..i + 1] == args[..i] + [args[i]];
        attrs := attrs[fields[i] := args[i]];
        i := i + 1;
      }
      assert fields[..i] == fields && args[..i] == args;
      return Ok(());
    }
  }

  /** setattr over zip(fields, args), from the left. */
  function Assign<V>(m: map<string, V>, fields: seq<string>, args: seq<V>): map<string, V>
    requires |fields| == |args|
    decreases |fields|
  {
    if fields == [] then m else Assign(m[fields[0] := args[0]], fields[1..], args[1..])
  }

  lemma {:induction false} AssignSnoc<V>(m: map<string, V>, fs: seq<string>, xs: seq<V>, f: string, x: V)
    requires |fs| == |xs|
    ensures Assign(m, fs + [f], xs + [x]) == Assign(m, fs, xs)[f := x]
    decreases |fs|
  {
    if fs != [] {
      assert (fs + [f])[1..] == fs[1..] + [f];
      assert (xs + [x])[1..] == xs[1..] + [x];
      AssignSnoc(m[fs[0] := xs[0]], fs[1..], xs[1..], f, x);
    }
  }

  /** After the assignments, every field holds its argument when the field
      names are distinct, and nothing but the fields was added. */
  lemma {:induction false} AssignFields<V>(m: map<string, V>, fields: seq<string>, args: seq<V>)
    requires |fields| == |args|
    requires forall i, j :: 0 <= i < j < |fields| ==> fields[i] != fields[j]
    ensures forall i :: 0 <= i < |fields| ==> fields[i] in Assign(m, fields, args) && Assign(m, fields, args)[fields[i]] == args[i]
    ensures forall k :: k in Assign(m, fields, args) <==> k in m || k in fields
    ensures forall k :: k in m && k !in fields ==> Assign(m, fields, args)[k] == m[k]
    decreases |fields|
  {
    if fields != [] {
      var m' := m[fields[0] := args[0]];
      AssignFields(m', fields[1..], args[1..]);
      var r := Assign(m, fields, args);
      assert r == Assign(m', fields[1..], args[1..]);
      forall i | 0 <= i < |fields| ensures fields[i] in r && r[fields[i]] == args[i] {
        if i > 0 {
          assert fields[1..][i - 1] == fields[i];
        } else {
          assert fields[0] !in fields[1..];
        }
      }
      forall k ensures k in r <==> k in m || k in fields {
        assert k in fields <==> k == fields[0] || k in fields[1..];
      }
    }
  }
}
