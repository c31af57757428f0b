// djbabel/traktor/utils.py: the tables of a Traktor NML collection (marker
// codes and field names), the predicates that say which element of an ENTRY
// holds a field, traktor_attr_name, traktor_path, and the search through the
// block-device tree for the volume a file lies on.

module TraktorUtils {
  import opened Wrappers
  import opened Canonical
  import opened Strings
  import opened Normalize
  import opened Paths

  // ----- tables -----

  /** The CUE_V2 TYPE code of each marker kind; "4" is the beatgrid anchor
      and belongs to no kind. */
  const MARKERTYPE_MAP: Dict<AMarkerType, string> := [
    (CUE, "0"),
    (FADE_IN, "1"),
    (FADE_OUT, "2"),
    (CUE_LOAD, "3"),
    (LOOP, "5")
  ]

  /** The canonical field names whose NML attribute is not their upper-case
      form; None marks a field Traktor does not store. */
  const FIELD_NAMES_MAP: Dict<string, Option<string>> := [
    ("album", Some("TITLE")),
    ("grouping", None),
    ("size", Some("FILESIZE")),
    ("total_time", Some("PLAYTIME")),
    ("track_number", Some("TRACK")),
    ("average_bpm", Some("BPM")),
    ("date_added", Some("IMPORT_DATE")),
    ("bit_rate", Some("BITRATE")),
    ("sample_rate", None),
    ("comments", Some("COMMENT")),
    ("play_count", Some("PLAYCOUNT")),
    ("tonality", Some("VALUE")),
    ("mix", None),
    ("locked", Some("LOCK")),
    ("trackID", None)
  ]

  /** Every marker kind has a code, no two kinds share one, and the inverse
      table the reader builds gives each code's kind back. */
  lemma MarkerTypeInjective(k: AMarkerType)
    ensures Get(MARKERTYPE_MAP, k).Ok?
    ensures var c := Get(MARKERTYPE_MAP, k).value;
      c in InverseDict(MARKERTYPE_MAP) && InverseDict(MARKERTYPE_MAP)[c] == k
  {
    var d := MARKERTYPE_MAP;
    var i: nat := match k
      case CUE => 0 case FADE_IN => 1 case FADE_OUT => 2 case CUE_LOAD => 3 case LOOP => 4;
    assert d[i].0 == k;
    GetFirst(d, i);
    InverseDictLast(d, i);
  }

  /** Every code the reader knows is the code of the kind it reads as. */
  lemma MarkerTypeCodeOf(c: string)
    requires c in InverseDict(MARKERTYPE_MAP)
    ensures Get(MARKERTYPE_MAP, InverseDict(MARKERTYPE_MAP)[c]) == Ok(c)
  {
    MarkerTypeKeys(MARKERTYPE_MAP);
    InverseDictGet(MARKERTYPE_MAP, c);
  }

  lemma MarkerTypeKeys(d: Dict<AMarkerType, string>)
    requires d == MARKERTYPE_MAP
    ensures forall i, j :: 0 <= i < j < |d| ==> d[i].0 != d[j].0
  {
  }

  /** Loops are written with code "5" ... */
  lemma LoopCode()
    ensures Get(MARKERTYPE_MAP, LOOP) == Ok("5")
  {
    GetFirst(MARKERTYPE_MAP, 4);
  }

  /** ... and the beatgrid code "4" reads as no marker kind. */
  lemma GridCodeUnknown(d: Dict<AMarkerType, string>)
    requires d == MARKERTYPE_MAP
    ensures "4" !in InverseDict(d)
  {
  }

  // ----- field names -----

  /** traktor_attr_name: the table's entry, which may be None, or the name in
      upper case. */
  function TraktorAttrName(s: string): (r: Option<string>)
    ensures Get(FIELD_NAMES_MAP, s).Err? ==> r.Some? && |r.value| == |s|
  {
    match Get(FIELD_NAMES_MAP, s)
    case Ok(n) => n
    case Err(_) => Some(Upper(s))
  }

  /** The entry at i is the first with its name, so it gives the name's
      NML attribute. */
  lemma TraktorAttrNameAt(d: Dict<string, Option<string>>, i: nat)
    requires d == FIELD_NAMES_MAP && i < |d|
    requires forall j :: 0 <= j < i ==> d[j].0 != d[i].0
    ensures TraktorAttrName(d[i].0) == d[i].1
  {
    GetFirst(d, i);
  }

  /** Only the four names the table maps to None have no attribute ... */
  lemma TraktorAttrNameNone(s: string, d: Dict<string, Option<string>>)
    requires d == FIELD_NAMES_MAP
    ensures TraktorAttrName(s).None? ==> s in [d[1].0, d[8].0, d[12].0, d[14].0]
  {
    if TraktorAttrName(s).None? {
      var i :| 0 <= i < |d| && d[i] == (s, None);
      NoneAt(d, i);
    }
  }

  /** The four names of the table without an attribute. */
  lemma UnusedNames(d: Dict<string, Option<string>>)
    requires d == FIELD_NAMES_MAP
    ensures [d[1].0, d[8].0, d[12].0, d[14].0] == ["grouping", "sample_rate", "mix", "trackID"]
  {
  }

  lemma NoneAt(d: Dict<string, Option<string>>, i: nat)
    requires d == FIELD_NAMES_MAP && i < |d| && d[i].1.None?
    ensures i in {1, 8, 12, 14}
  {
  }

  /** ... and each of them has none. */
  lemma Unused(d: Dict<string, Option<string>>, i: nat)
    requires d == FIELD_NAMES_MAP && i in {1, 8, 12, 14}
    ensures TraktorAttrName(d[i].0).None?
  {
    if i == 1 {
      TraktorAttrNameAt(d, 1);
    } else if i == 8 {
      TraktorAttrNameAt(d, 8);
    } else if i == 12 {
      TraktorAttrNameAt(d, 12);
    } else {
      TraktorAttrNameAt(d, 14);
    }
  }

  /** A name outside the table is read and written in upper case, with no
      lower-case ASCII letter left. */
  lemma TraktorAttrNameUpper(s: string)
    requires Get(FIELD_NAMES_MAP, s).Err?
    ensures TraktorAttrName(s) == Some(Upper(s))
    ensures forall i :: 0 <= i < |s| ==> !IsLowerAscii(TraktorAttrName(s).value[i])
  {
  }

  /** The names the tests check: the bit rate is BITRATE ... */
  lemma TraktorAttrNameBitRate(d: Dict<string, Option<string>>)
    requires d == FIELD_NAMES_MAP
    ensures d[7].0 == "bit_rate" && TraktorAttrName(d[7].0) == Some("BITRATE")
  {
    TraktorAttrNameAt(d, 7);
  }

  /** ... the album's title is TITLE ... */
  lemma TraktorAttrNameAlbum(d: Dict<string, Option<string>>)
    requires d == FIELD_NAMES_MAP
    ensures d[0].0 == "album" && TraktorAttrName(d[0].0) == Some("TITLE")
  {
    TraktorAttrNameAt(d, 0);
  }

  /** ... and the key is the VALUE of MUSICAL_KEY. */
  lemma TraktorAttrNameTonality(d: Dict<string, Option<string>>)
    requires d == FIELD_NAMES_MAP
    ensures d[11].0 == "tonality" && TraktorAttrName(d[11].0) == Some("VALUE")
  {
    TraktorAttrNameAt(d, 11);
  }

  /** "genre" is not in the table and becomes "GENRE". */
  lemma TraktorAttrNameGenre(s: string, d: Dict<string, Option<string>>)
    requires d == FIELD_NAMES_MAP && s == "genre"
    ensures TraktorAttrName(s) == Some("GENRE")
  {
    assert forall j :: 0 <= j < |d| ==> d[j].0 != s;
    assert Upper(s) == "GENRE" by {
      assert Upper(s)[0] == 'G' && Upper(s)[1] == 'E' && Upper(s)[2] == 'N';
      assert Upper(s)[3] == 'R' && Upper(s)[4] == 'E';
    }
  }

  // ----- which element holds a field -----

  /** The fields stored in each element of an ENTRY (a dataclass Field is
      given by its name). The CUE_V2 group names "marker", while the track
      field is "markers". */
  const ALBUM_ATTRS: seq<string> := ["track_number", "disc_number", "album"]
  const ENTRY_ATTRS: seq<string> := ["title", "artist", "locked"]
  const LOCATION_ATTRS: seq<string> := ["location"]
  const TEMPO_ATTRS: seq<string> := ["average_bpm"]
  const MUSICAL_KEY_ATTRS: seq<string> := ["tonality"]
  const LOUDNESS_ATTRS: seq<string> := ["loudness"]
  const CUE_V2_ATTRS: seq<string> := ["marker", "beatgrid"]

  predicate IsAlbumTagAttr(n: string) { n in ALBUM_ATTRS }
  predicate IsEntryTagAttr(n: string) { n in ENTRY_ATTRS }
  predicate IsLocationTagAttr(n: string) { n in LOCATION_ATTRS }
  predicate IsTempoTagAttr(n: string) { n in TEMPO_ATTRS }
  predicate IsMusicalKeyAttr(n: string) { n in MUSICAL_KEY_ATTRS }
  predicate IsLoudnessTagAttr(n: string) { n in LOUDNESS_ATTRS }
  predicate IsCueV2TagAttr(n: string) { n in CUE_V2_ATTRS }

  /** is_info_tag_attr: a field of none of the groups above lives in INFO. */
  predicate IsInfoTagAttr(n: string)
  {
    !(IsAlbumTagAttr(n) || IsEntryTagAttr(n) || IsLocationTagAttr(n) || IsTempoTagAttr(n)
      || IsMusicalKeyAttr(n) || IsLoudnessTagAttr(n) || IsCueV2TagAttr(n))
  }

  function Holds(b: bool): nat { if b then 1 else 0 }

  /** How many of the eight predicates hold for n. */
  function GroupCount(n: string): nat
  {
    Holds(IsAlbumTagAttr(n)) + Holds(IsEntryTagAttr(n)) + Holds(IsLocationTagAttr(n))
    + Holds(IsTempoTagAttr(n)) + Holds(IsMusicalKeyAttr(n)) + Holds(IsLoudnessTagAttr(n))
    + Holds(IsCueV2TagAttr(n)) + Holds(IsInfoTagAttr(n))
  }

  /** The groups are disjoint and INFO takes the rest, so every field lives
      in exactly one element. */
  lemma OneGroup(n: string)
    ensures GroupCount(n) == 1
  {
  }

  /** The track's "markers" field is not in the CUE_V2 group, so it is
      classed as an INFO attribute. */
  lemma MarkersIsInfo(n: string)
    requires n == "markers"
    ensures IsInfoTagAttr(n)
  {
    assert |n| == 7;
  }

  // ----- traktor_path -----

  /** The directory text of an NML LOCATION: "/", the directories each
      behind ':' and joined with '/', then "/:". */
  function TraktorDir(dirs: seq<string>): string
  {
    "/" + Join(Colons(dirs), '/') + "/:"
  }

  function Colons(ds: seq<string>): (r: seq<string>)
    ensures |r| == |ds|
    ensures forall i :: 0 <= i < |ds| ==> r[i] == ":" + ds[i]
  {
    if ds == [] then [] else [":" + ds[0]] + Colons(ds[1..])
  }

  /** traktor_path for an absolute path: the directories after the anchor
      in TraktorDir form, then the file name; the anchor (the root, or a
      Windows drive and root) does not appear. */
  function TraktorPath(p: APath): string
    requires IsAbsolute(p)
  {
    if p.parts == [] then TraktorDir([])
    else TraktorDir(p.parts[..|p.parts| - 1]) + p.parts[|p.parts| - 1]
  }

  /** "/:" followed by each part, run together. */
  function ColonSegments(cs: seq<string>): string
  {
    if cs == [] then "" else "/:" + cs[0] + ColonSegments(cs[1..])
  }

  lemma {:induction false} JoinColons(ds: seq<string>)
    requires |ds| >= 1
    ensures "/" + Join(Colons(ds), '/') == ColonSegments(ds)
  {
    if |ds| > 1 {
      JoinColons(ds[1..]);
      assert Colons(ds)[1..] == Colons(ds[1..]);
    }
  }

  lemma ColonSegmentsLast(ds: seq<string>, name: string)
    ensures ColonSegments(ds) + "/:" + name == ColonSegments(ds + [name])
  {
    if ds != [] {
      ColonSegmentsLast(ds[1..], name);
      assert (ds + [name])[1..] == ds[1..] + [name];
    }
  }

  /** A file below at least one directory is "/:" before every part of its
      path; the anchor does not matter. */
  lemma TraktorPathSegments(p: APath)
    requires IsAbsolute(p) && |p.parts| >= 2
    ensures TraktorPath(p) == ColonSegments(p.parts)
  {
    var dirs := p.parts[..|p.parts| - 1];
    var name := p.parts[|p.parts| - 1];
    JoinColons(dirs);
    ColonSegmentsLast(dirs, name);
    assert dirs + [name] == p.parts;
  }

  /** The anchor is dropped: a Windows drive gives the same text as the
      POSIX root. */
  lemma TraktorPathDropsAnchor(p: APath, q: APath)
    requires IsAbsolute(p) && IsAbsolute(q) && p.parts == q.parts
    ensures TraktorPath(p) == TraktorPath(q)
  {
  }

  /** The shape of the tests' example, a file in one directory:
      "/:" + dir + "/:" + name. */
  lemma TraktorPathExample(p: APath, dir: string, name: string)
    requires IsAbsolute(p) && p.parts == [dir, name]
    ensures TraktorPath(p) == "/:" + dir + "/:" + name
  {
    TraktorPathSegments(p);
    assert ColonSegments(p.parts[1..]) == "/:" + name by {
      assert p.parts[1..][1..] == [];
    }
  }

  // ----- find_longest_matching_uuid -----

  /** A node of the device tree lsblk prints: its mount point text, if any,
      its uuid, its name and its children (no "children" key is an empty
      list). */
  datatype Device = Device(mountpoint: Option<string>, uuid: Option<string>, name: string, children: seq<Device>)

  /** The best match so far: mount point length, uuid and device name. */
  type Best = (int, string, string)

  /** The node is mounted at a directory containing the path and has a
      non-empty uuid. */
  predicate Matches(path: APath, d: Device)
  {
    d.mountpoint.Some? && IsRelativeTo(path, Parse(d.mountpoint.value))
    && d.uuid.Some? && d.uuid.value != ""
  }

  /** len(str(Path(mountpoint))). */
  function MountLength(d: Device): nat
    requires d.mountpoint.Some?
  {
    |Str(Parse(d.mountpoint.value))|
  }

  /** The triple a matching node offers. */
  function Offer(path: APath, d: Device): Best
    requires Matches(path, d)
  {
    (MountLength(d), d.uuid.value, d.name)
  }

  /** Some node of the tree rooted at d matches the path and offers b. */
  predicate Offered(path: APath, d: Device, b: Best)
    decreases d
  {
    (Matches(path, d) && b == Offer(path, d))
    || exists i :: 0 <= i < |d.children| && Offered(path, d.children[i], b)
  }

  /** find_longest_matching_uuid: a matching node with a longer mount point
      than the best so far is the answer at once; otherwise its children are
      searched in order, each with the best its elder siblings left. The
      result never shortens the best, and any new best is a strictly longer
      offer of a node in the tree. */
  function Longest(path: APath, d: Device, best: Best): (r: Best)
    ensures r.0 >= best.0
    ensures r != best ==> r.0 > best.0 && Offered(path, d, r)
    decreases d, 1, 0
  {
    if Matches(path, d) && MountLength(d) > best.0 then Offer(path, d)
    else LongestFrom(path, d, 0, best)
  }

  /** The loop over d's children from position i. */
  function LongestFrom(path: APath, d: Device, i: nat, best: Best): (r: Best)
    requires i <= |d.children|
    ensures r.0 >= best.0
    ensures r != best ==> r.0 > best.0 && exists j :: i <= j < |d.children| && Offered(path, d.children[j], r)
    decreases d, 0, |d.children| - i
  {
    if i == |d.children| then best
    else
      var b := Longest(path, d.children[i], best);
      var r := LongestFrom(path, d, i + 1, b);
      assert r != b ==> exists j :: i <= j < |d.children| && Offered(path, d.children[j], r);
      r
  }

  /** A node that becomes the new best is the answer whatever its children
      hold, even a longer mount point below it. */
  lemma LongestStops(path: APath, d: Device, best: Best, c: Device)
    requires Matches(path, d) && MountLength(d) > best.0
    ensures Longest(path, d.(children := d.children + [c]), best) == Offer(path, d)
  {
  }

  /** find_longest_matching_uuid as the source runs it: recursion into each
      child inside a loop that threads the best triple. */
  method FindLongestMatchingUuid(path: APath, d: Device, best: Best) returns (r: Best)
    ensures r == Longest(path, d, best)
    decreases d
  {
    if d.mountpoint.Some? {
      var mount := Parse(d.mountpoint.value);
      if IsRelativeTo(path, mount) {
        if d.uuid.Some? && d.uuid.value != "" {
          if |Str(mount)| > best.0 {
            return (|Str(mount)|, d.uuid.value, d.name);
          }
        }
      }
    }
    r := best;
    for i := 0 to |d.children|
      invariant LongestFrom(path, d, i, r) == LongestFrom(path, d, 0, best)
    {
      r := FindLongestMatchingUuid(path, d.children[i], r);
    }
  }
}
