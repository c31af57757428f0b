// djbabel/traktor/read.py without the XML parser: an NML ENTRY is its own
// attributes, the first of each child element the reader looks up, and its
// CUE_V2 children in order. The attribute readers, the LOCATION reader and
// adjust_location, the musical key conversion, the CUE_V2 readers and the
// collection lookup.

module TraktorRead {
  import opened Wrappers
  import opened Canonical
  import opened Strings
  import opened Normalize
  import Decimal
  import Dates
  import opened Elements
  import opened Paths
  import opened TraktorUtils

  /** A CUE_V2 element: its attributes and its GRID child, if any. */
  datatype CueV2 = CueV2(attrs: Attrs, grid: Option<Attrs>)

  /** An ENTRY of the collection: its attributes, its ALBUM, INFO, TEMPO,
      MUSICAL_KEY, LOCATION and LOUDNESS children (the first of each, as
      element.find gives it) and its CUE_V2 children. */
  datatype Entry = Entry(attrs: Attrs, album: Option<Attrs>, info: Option<Attrs>,
                         tempo: Option<Attrs>, musicalKey: Option<Attrs>,
                         location: Option<Attrs>, loudness: Option<Attrs>,
                         cues: seq<CueV2>)

  // ----- get_tag_attr and the attribute readers -----

  /** get_tag_attr: nothing for a field Traktor does not store, the
      attribute named after the field otherwise, except that a BITRATE of
      "-1" (a variable bit rate) reads as nothing. */
  function GetTagAttr(fn: string, tag: Attrs): (r: Option<string>)
    ensures TraktorAttrName(fn).None? ==> r.None?
    ensures r.Some? ==> Attr(tag, TraktorAttrName(fn).value) == r
    ensures TraktorAttrName(fn) == Some("BITRATE") ==> r != Some("-1")
    ensures TraktorAttrName(fn).Some? && TraktorAttrName(fn) != Some("BITRATE") ==>
      r == Attr(tag, TraktorAttrName(fn).value)
  {
    match TraktorAttrName(fn)
    case None => None
    case Some(tn) =>
      var v := Attr(tag, tn);
      if tn == "BITRATE" && v == Some("-1") then None else v
  }

  /** make_get_subtag: get_tag_attr on the child element, if there is one. */
  function GetSubtag(fn: string, tag: Option<Attrs>): Option<string>
  {
    if tag.None? then None else GetTagAttr(fn, tag.value)
  }

  /** get_str_attr: the field read from the element its group names. */
  function GetStrAttr(fn: string, e: Entry): Option<string>
  {
    if IsEntryTagAttr(fn) then GetTagAttr(fn, e.attrs)
    else if IsAlbumTagAttr(fn) then GetSubtag(fn, e.album)
    else if IsInfoTagAttr(fn) then GetSubtag(fn, e.info)
    else if IsTempoTagAttr(fn) then GetSubtag(fn, e.tempo)
    else if IsMusicalKeyAttr(fn) then GetSubtag(fn, e.musicalKey)
    else None
  }

  /** Since the groups are disjoint, INFO being checked before TEMPO and
      MUSICAL_KEY does not hide them: every field is read from the element
      of its own group, and the LOCATION, LOUDNESS and CUE_V2 fields are not
      read as text at all. */
  lemma GetStrAttrElement(fn: string, e: Entry)
    ensures IsTempoTagAttr(fn) ==> GetStrAttr(fn, e) == GetSubtag(fn, e.tempo)
    ensures IsMusicalKeyAttr(fn) ==> GetStrAttr(fn, e) == GetSubtag(fn, e.musicalKey)
    ensures IsAlbumTagAttr(fn) ==> GetStrAttr(fn, e) == GetSubtag(fn, e.album)
    ensures IsInfoTagAttr(fn) ==> GetStrAttr(fn, e) == GetSubtag(fn, e.info)
    ensures IsLocationTagAttr(fn) || IsLoudnessTagAttr(fn) || IsCueV2TagAttr(fn) ==> GetStrAttr(fn, e).None?
  {
    OneGroup(fn);
  }

  /** to_date: "%Y/%m/%d"; None stays None. */
  function ToDate(d: Option<string>): (r: Result<Option<Date>>)
    ensures d.None? <==> r == Ok(None)
    ensures r.Err? ==> r.error == ValueError
    ensures d.Some? && r.Ok? ==> Dates.StrptimeYmd(d.value, '/') == Ok(r.value.value)
  {
    if d.None? then Ok(None)
    else
      var x :- Dates.StrptimeYmd(d.value, '/');
      Ok(Some(x))
  }

  /** IMPORT_DATE reads back every valid date written as "%Y/%m/%d". */
  lemma ToDateRoundTrip(x: Date)
    requires Dates.IsValid(x)
    ensures ToDate(Some(Dates.Format(x, '/'))) == Ok(Some(x))
  {
    Dates.StrptimeRoundTrip(x, '/');
  }

  /** to_bool: "0" is false, "1" true, anything else false. */
  function ToBool(l: Option<string>): (r: bool)
    ensures r <==> l == Some("1")
  {
    if l == Some("0") then false
    else if l == Some("1") then true
    else false
  }

  // ----- LOCATION -----

  /** str.replace("/:", "/"), scanning from the left. */
  function Unescape(s: string): string
  {
    if s == [] then []
    else if |s| >= 2 && s[0] == '/' && s[1] == ':' then "/" + Unescape(s[2..])
    else [s[0]] + Unescape(s[1..])
  }

  /** get_location: Path(VOLUME) / Path(DIR with "/:" replaced by "/") /
      FILE; a missing LOCATION fails its assert, a missing attribute is a
      ValueError. */
  function GetLocation(e: Entry): (r: Result<APath>)
    ensures r == Err(AssertionError) <==> e.location.None?
    ensures r == Err(ValueError) <==>
      (e.location.Some? &&
       (Attr(e.location.value, "VOLUME").None? || Attr(e.location.value, "DIR").None? || Attr(e.location.value, "FILE").None?))
  {
    if e.location.None? then Err(AssertionError)
    else
      var loc := e.location.value;
      match (Attr(loc, "VOLUME"), Attr(loc, "DIR"), Attr(loc, "FILE"))
      case (Some(vol), Some(d), Some(name)) => Ok(Div(Div(Parse(vol), Parse(Unescape(d))), Parse(name)))
      case _ => Err(ValueError)
  }

  /** Each part followed by "/", run together. */
  function Terminated(cs: seq<string>): string
  {
    if cs == [] then "" else cs[0] + "/" + Terminated(cs[1..])
  }

  lemma {:induction false} UnescapePlain(c: string, rest: string)
    requires '/' !in c
    ensures Unescape(c + rest) == c + Unescape(rest)
  {
    var s := c + rest;
    if c != [] {
      assert s[0] == c[0] && c[0] != '/';
      assert s[1..] == c[1..] + rest;
      assert Unescape(s) == [c[0]] + Unescape(c[1..] + rest);
      UnescapePlain(c[1..], rest);
      assert c == [c[0]] + c[1..];
    } else {
      assert s == rest;
    }
  }

  lemma UnescapeColon(c: string, rest: string)
    requires '/' !in c
    ensures Unescape("/:" + c + rest) == "/" + c + Unescape(rest)
  {
    var s := "/:" + c + rest;
    assert s[2..] == c + rest;
    UnescapePlain(c, rest);
  }

  /** Replacing "/:" by "/" in the text traktor_path writes for some
      directories gives them back, each followed by "/", after a leading
      "/". */
  lemma {:induction false} UnescapeSegments(cs: seq<string>)
    requires forall i :: 0 <= i < |cs| ==> '/' !in cs[i]
    ensures Unescape(ColonSegments(cs) + "/:") == "/" + Terminated(cs)
  {
    if cs == [] {
      assert Unescape("/:") == "/" + Unescape("/:"[2..]);
    } else {
      var rest := ColonSegments(cs[1..]) + "/:";
      calc {
        Unescape(ColonSegments(cs) + "/:");
        { assert ColonSegments(cs) + "/:" == "/:" + cs[0] + rest; }
        Unescape("/:" + cs[0] + rest);
        { UnescapeColon(cs[0], rest); }
        "/" + cs[0] + Unescape(rest);
        { UnescapeSegments(cs[1..]); }
        "/" + cs[0] + ("/" + Terminated(cs[1..]));
        { assert "/" + cs[0] + ("/" + Terminated(cs[1..])) == "/" + (cs[0] + "/" + Terminated(cs[1..])); }
        "/" + Terminated(cs);
      }
    }
  }

  lemma SplitAfter(c: string, rest: string)
    requires '/' !in c
    ensures Split(c + "/" + rest, '/') == [c] + Split(rest, '/')
  {
    var s := c + "/" + rest;
    IndexOfAfter(c, '/', rest);
    assert s[..|c|] == c;
    assert s[|c| + 1..] == rest;
  }

  lemma {:induction false} SplitTerminated(cs: seq<string>)
    requires forall i :: 0 <= i < |cs| ==> '/' !in cs[i]
    ensures Split(Terminated(cs), '/') == cs + [""]
  {
    if cs == [] {
      assert IndexOf("", '/') == 0;
    } else {
      calc {
        Split(Terminated(cs), '/');
        { SplitAfter(cs[0], Terminated(cs[1..])); }
        [cs[0]] + Split(Terminated(cs[1..]), '/');
        { SplitTerminated(cs[1..]); }
        [cs[0]] + (cs[1..] + [""]);
        { assert cs == [cs[0]] + cs[1..]; }
        cs + [""];
      }
    }
  }

  /** The DIR text of some directories, with "/:" replaced by "/". */
  lemma UnescapeDir(dirs: seq<string>)
    requires |dirs| >= 1
    requires forall i :: 0 <= i < |dirs| ==> '/' !in dirs[i]
    ensures Unescape(TraktorDir(dirs)) == "/" + Terminated(dirs)
  {
    JoinColons(dirs);
    assert TraktorDir(dirs) == ColonSegments(dirs) + "/:";
    UnescapeSegments(dirs);
  }

  lemma SplitDir(dirs: seq<string>)
    requires forall i :: 0 <= i < |dirs| ==> '/' !in dirs[i]
    ensures Split("/" + Terminated(dirs), '/') == [""] + (dirs + [""])
  {
    SplitTerminated(dirs);
    SplitLead(Terminated(dirs), dirs + [""]);
  }

  lemma SplitLead(t: string, parts: seq<string>)
    requires Split(t, '/') == parts
    ensures Split("/" + t, '/') == [""] + parts
  {
    SplitLeading(t, '/');
  }

  lemma ComponentsDir(dirs: seq<string>)
    requires forall i :: 0 <= i < |dirs| ==> dirs[i] != "" && dirs[i] != "." && '/' !in dirs[i]
    ensures Components([""] + (dirs + [""])) == dirs
  {
    ComponentsAppend([""], dirs + [""]);
    ComponentsAppend(dirs, [""]);
    ComponentsOfParts(dirs);
    assert dirs + [] == dirs;
  }

  /** A LOCATION DIR in traktor_path form names the directories as an
      absolute POSIX path. */
  lemma ParseDir(dirs: seq<string>)
    requires |dirs| >= 1
    requires forall i :: 0 <= i < |dirs| ==> dirs[i] != "" && dirs[i] != "." && '/' !in dirs[i]
    ensures Parse(Unescape(TraktorDir(dirs))) == APath("/", dirs)
  {
    UnescapeDir(dirs);
    var s := "/" + Terminated(dirs);
    assert s[0] == '/';
    SplitDir(dirs);
    ComponentsDir(dirs);
  }

  /** A file name is a relative path of one part. */
  lemma ParsePart(c: string)
    requires IsPart(c)
    ensures Parse(c) == APath("", [c])
  {
    assert IndexOf(c, '/') == |c|;
    assert c[..|c|] == c;
    assert Split(c, '/') == [c];
    assert c[0] != '/';
    ComponentsOfParts([c]);
  }

  /** The parent directories and the name of a path with parts. */
  function Dirs(p: APath): seq<string>
    requires |p.parts| >= 1
  {
    p.parts[..|p.parts| - 1]
  }

  function Name(p: APath): string
    requires |p.parts| >= 1
  {
    p.parts[|p.parts| - 1]
  }

  /** A LOCATION whose DIR and FILE split traktor_path(p) after the
      directories reads back as p on the POSIX root: the volume is dropped,
      because the directory text is absolute. Its collection key is the
      volume followed by traktor_path(p). */
  lemma GetLocationOfTraktorPath(e: Entry, vol: string, p: APath)
    requires IsAbsolute(p) && WellFormed(p) && |p.parts| >= 2
    requires e.location.Some?
    requires Attr(e.location.value, "VOLUME") == Some(vol)
    requires Attr(e.location.value, "DIR") == Some(TraktorDir(Dirs(p)))
    requires Attr(e.location.value, "FILE") == Some(Name(p))
    ensures GetLocation(e) == Ok(APath("/", p.parts))
    ensures LocationKey(e) == Some(vol + TraktorPath(p))
  {
    var dirs := Dirs(p);
    ParseDir(dirs);
    ParsePart(Name(p));
    assert dirs + [Name(p)] == p.parts;
    assert TraktorPath(p) == TraktorDir(dirs) + Name(p);
    assert LocationKey(e) == Some(vol + TraktorDir(dirs) + Name(p));
    assert vol + TraktorDir(dirs) + Name(p) == vol + TraktorPath(p);
  }

  /** path_anchor: the given anchor, or the root of the running system,
      which is a parameter here. */
  function PathAnchor(anchor: Option<APath>, osRoot: APath): APath
  {
    if anchor.Some? then anchor.value else osRoot
  }

  /** adjust_location: the path after `relative` (or after its own anchor)
      moved under `anchor`. */
  function AdjustLocation(loc: APath, anchor: Option<APath>, relative: Option<APath>, osRoot: APath): (r: Result<APath>)
    ensures var root := PathAnchor(anchor, osRoot);
      relative.None? ==> r == Ok(APath(root.anchor, root.parts + loc.parts))
    ensures relative.Some? ==> (r.Ok? <==> IsRelativeTo(loc, relative.value))
    ensures var root := PathAnchor(anchor, osRoot);
      relative.Some? && r.Ok? ==> r.value == APath(root.anchor, root.parts + loc.parts[|relative.value.parts|..])
    ensures r.Err? ==> r.error == ValueError
  {
    var rel :- if relative.Some? then RelativeTo(loc, relative.value) else RelativeTo(loc, APath(loc.anchor, []));
    Ok(Div(PathAnchor(anchor, osRoot), rel))
  }

  /** Moving a path from one directory to another and back gives it back. */
  lemma AdjustLocationBack(loc: APath, from: APath, to: APath, osRoot: APath)
    requires IsRelativeTo(loc, from)
    ensures AdjustLocation(loc, Some(to), Some(from), osRoot).Ok?
    ensures AdjustLocation(AdjustLocation(loc, Some(to), Some(from), osRoot).value, Some(from), Some(to), osRoot) == Ok(loc)
  {
    var moved := AdjustLocation(loc, Some(to), Some(from), osRoot).value;
    var tail := loc.parts[|from.parts|..];
    assert moved.parts == to.parts + tail;
    assert moved.parts[..|to.parts|] == to.parts;
    assert moved.parts[|to.parts|..] == tail;
    assert from.parts + tail == loc.parts;
  }

  // ----- LOUDNESS -----

  /** get_loudness: PERCEIVED_DB as the autogain, with no gain; nothing
      without a LOUDNESS element or without the attribute. */
  function GetLoudness(e: Entry): (r: Result<Option<ALoudness>>)
    ensures r.Ok? && r.value.Some? ==> r.value.value.gainDb == 0.0
    ensures r.Ok? && r.value.Some? ==>
      (e.loudness.Some? && "PERCEIVED_DB" in e.loudness.value &&
       Decimal.ParseFloat(e.loudness.value["PERCEIVED_DB"]) == Ok(r.value.value.autogain))
    ensures r == Ok(None) <==> e.loudness.None? || "PERCEIVED_DB" !in e.loudness.value
    ensures r.Err? ==> r.error == ValueError
  {
    if e.loudness.None? then Ok(None)
    else
      match Attr(e.loudness.value, "PERCEIVED_DB")
      case None => Ok(None)
      case Some(db) =>
        var autogain :- Decimal.ParseFloat(db);
        Ok(Some(ALoudness(autogain, 0.0)))
  }

  // ----- MUSICAL_KEY -----

  /** musical_key_to_classic_key: a numeric key goes back through the two
      inverse tables (Traktor number to Open Key to classic name), where a
      value held by several keys maps to the last of them; anything else
      has no key. */
  function MusicalKeyToClassicKey(mk: Option<string>): (r: Result<Option<string>>)
    ensures mk.None? || !IsNumeric(mk.value) ==> r == Ok(None)
    ensures r.Err? ==> r.error == KeyError && mk.Some? && IsNumeric(mk.value)
    ensures r.Ok? && r.value.Some? ==>
      (mk.Some? && IsNumeric(mk.value) &&
       exists i, j :: 0 <= i < |OPEN_KEY2MUSICAL_KEY_MAP| && 0 <= j < |CLASSIC2OPEN_KEY_MAP| &&
         OPEN_KEY2MUSICAL_KEY_MAP[i].1 == Decimal.Value(mk.value) &&
         CLASSIC2OPEN_KEY_MAP[j] == (r.value.value, OPEN_KEY2MUSICAL_KEY_MAP[i].0))
  {
    if mk.None? || !IsNumeric(mk.value) then Ok(None)
    else
      var m2o := InverseDict(OPEN_KEY2MUSICAL_KEY_MAP);
      var n: int := Decimal.Value(mk.value);
      if n !in m2o then Err(KeyError)
      else
        var o2c := InverseDict(CLASSIC2OPEN_KEY_MAP);
        if m2o[n] !in o2c then Err(KeyError)
        else
          InverseDictPair(OPEN_KEY2MUSICAL_KEY_MAP, n);
          InverseDictPair(CLASSIC2OPEN_KEY_MAP, m2o[n]);
          Ok(Some(o2c[m2o[n]]))
  }

  /** Traktor numbers its keys 1 to 24. */
  lemma OpenKeyNumbers(d: Dict<string, int>)
    requires d == OPEN_KEY2MUSICAL_KEY_MAP
    ensures forall i :: 0 <= i < |d| ==> 1 <= d[i].1 <= 24
  {
  }

  /** A number outside 1 to 24 is no Traktor key: KeyError. */
  lemma MusicalKeyOutOfRange(mk: Option<string>, d: Dict<string, int>)
    requires d == OPEN_KEY2MUSICAL_KEY_MAP
    requires mk.Some? && IsNumeric(mk.value) && !(1 <= Decimal.Value(mk.value) <= 24)
    ensures MusicalKeyToClassicKey(mk) == Err(KeyError)
  {
    OpenKeyNumbers(d);
  }

  lemma TwentyOne(s: string)
    requires s == "21"
    ensures IsNumeric(s) && Decimal.Value(s) == 21
  {
    assert s[..1] == "2";
    assert Decimal.Value(s[..1]) == 2 by {
      assert s[..1][..0] == [];
    }
  }

  lemma OpenKeyTwentyOne(d1: Dict<string, int>)
    requires d1 == OPEN_KEY2MUSICAL_KEY_MAP
    ensures 21 in InverseDict(d1) && InverseDict(d1)[21] == "9m"
  {
    assert d1[20] == ("9m", 21);
    InverseDictLast(d1, 20);
  }

  /** Both "Fmi" and "Fmin" are 9m, "Fmin" last ... */
  lemma NineMinorNames(d2: Dict<string, string>)
    requires d2 == CLASSIC2OPEN_KEY_MAP
    ensures d2[30] == ("Fmi", "9m") && d2[31] == ("Fmin", "9m")
  {
  }

  /** ... so the inverse table gives "Fmin" for 9m. */
  lemma NineMinorClassic(d2: Dict<string, string>)
    requires d2 == CLASSIC2OPEN_KEY_MAP
    ensures "9m" in InverseDict(d2) && InverseDict(d2)["9m"] == "Fmin"
  {
    NineMinorNames(d2);
    InverseDictLast(d2, 31);
  }

  /** The key the tests check: Traktor's 21 reads as "Fmin". */
  lemma MusicalKeyExample(mk: Option<string>)
    requires mk == Some("21")
    ensures MusicalKeyToClassicKey(mk) == Ok(Some("Fmin"))
  {
    TwentyOne(mk.value);
    OpenKeyTwentyOne(OPEN_KEY2MUSICAL_KEY_MAP);
    NineMinorClassic(CLASSIC2OPEN_KEY_MAP);
  }

  // ----- CUE_V2 -----

  /** findall('./CUE_V2[@TYPE="4"]'): the beatgrid anchors. */
  function GridMarkers(cs: seq<CueV2>): (r: seq<CueV2>)
    ensures forall i :: 0 <= i < |r| ==> Attr(r[i].attrs, "TYPE") == Some("4")
  {
    if cs == [] then []
    else
      var rest := GridMarkers(cs[..|cs| - 1]);
      if Attr(cs[|cs| - 1].attrs, "TYPE") == Some("4") then rest + [cs[|cs| - 1]] else rest
  }

  /** findall('./CUE_V2[@TYPE!="4"]'): the elements with a TYPE other than
      "4". */
  function CueMarkers(cs: seq<CueV2>): (r: seq<CueV2>)
    ensures forall i :: 0 <= i < |r| ==> Attr(r[i].attrs, "TYPE").Some? && Attr(r[i].attrs, "TYPE") != Some("4")
  {
    if cs == [] then []
    else
      var rest := CueMarkers(cs[..|cs| - 1]);
      var t := Attr(cs[|cs| - 1].attrs, "TYPE");
      if t.Some? && t != Some("4") then rest + [cs[|cs| - 1]] else rest
  }

  /** Every element with a TYPE goes to exactly one of the two lists. */
  lemma {:induction false} MarkersPartition(cs: seq<CueV2>)
    requires forall i :: 0 <= i < |cs| ==> "TYPE" in cs[i].attrs
    ensures |GridMarkers(cs)| + |CueMarkers(cs)| == |cs|
  {
    if cs != [] {
      MarkersPartition(cs[..|cs| - 1]);
    }
  }

  /** One beatgrid anchor: START in milliseconds and the GRID's BPM, each
      asserted present. */
  function GetGridPoint(m: CueV2): (r: Result<ABeatGridBPM>)
    ensures r.Err? ==> r.error in {AssertionError, ValueError}
    ensures r.Ok? ==> r.value.metro == (4, 4)
    ensures r.Ok? ==> "START" in m.attrs && Decimal.ParseFloat(m.attrs["START"]) == Ok(SToMs(r.value.position))
    ensures r.Ok? ==> m.grid.Some? && "BPM" in m.grid.value && Decimal.ParseFloat(m.grid.value["BPM"]) == Ok(r.value.bpm)
  {
    match (Attr(m.attrs, "START"), m.grid)
    case (Some(pos), Some(grid)) =>
      (match Attr(grid, "BPM")
       case Some(bpm) =>
         var p :- Decimal.ParseFloat(pos);
         var b :- Decimal.ParseFloat(bpm);
         Ok(BeatGridPoint(MsToS(p), b))
       case None => Err(AssertionError))
    case _ => Err(AssertionError)
  }

  /** get_cue_v2_beatgrid: the points of the anchors in order, or the error
      of the first one that fails. */
  function GetCueV2Beatgrid(e: Entry): (r: Result<seq<ABeatGridBPM>>)
    ensures r.Ok? ==> |r.value| == |GridMarkers(e.cues)|
  {
    MapResult(GetGridPoint, GridMarkers(e.cues))
  }

  /** Each point is the reading of its anchor, and the grid fails exactly
      when one of the anchors does. */
  lemma GetCueV2BeatgridEach(e: Entry, ms: seq<CueV2>)
    requires ms == GridMarkers(e.cues)
    ensures GetCueV2Beatgrid(e).Ok? ==> forall i :: 0 <= i < |ms| ==> GetGridPoint(ms[i]) == Ok(GetCueV2Beatgrid(e).value[i])
    ensures GetCueV2Beatgrid(e).Ok? <==> forall i :: 0 <= i < |ms| ==> GetGridPoint(ms[i]).Ok?
  {
    MapResultEach(GetGridPoint, ms);
  }

  /** get_cue_v2_beatgrid as the source runs it, appending one point per
      anchor. */
  method GetCueV2BeatgridLoop(e: Entry) returns (r: Result<seq<ABeatGridBPM>>)
    ensures r == GetCueV2Beatgrid(e)
  {
    var mkrs := GridMarkers(e.cues);
    var out: seq<ABeatGridBPM> := [];
    for i := 0 to |mkrs|
      invariant MapResult(GetGridPoint, mkrs[..i]) == Ok(out)
    {
      assert mkrs[..i + 1][..i] == mkrs[..i];
      var p := GetGridPoint(mkrs[i]);
      if p.Err? {
        assert MapResult(GetGridPoint, mkrs[..i + 1]) == Err(p.error);
        MapResultFails(GetGridPoint, mkrs, i + 1);
        return Err(p.error);
      }
      out := out + [p.value];
    }
    assert mkrs[..|mkrs|] == mkrs;
    r := Ok(out);
  }

  /** One cue: NAME, START, LEN, TYPE and HOTCUE are each asserted present,
      in that order. */
  function GetCue(m: CueV2): (r: Result<AMarker>)
    ensures r.Err? ==> r.error in {AssertionError, ValueError, KeyError}
    ensures r.Ok? ==> "NAME" in m.attrs && "START" in m.attrs && "LEN" in m.attrs && "TYPE" in m.attrs && "HOTCUE" in m.attrs
    ensures r.Ok? ==> MakeCue(m.attrs["NAME"], m.attrs["START"], m.attrs["LEN"], m.attrs["TYPE"], m.attrs["HOTCUE"]) == r
  {
    match (Attr(m.attrs, "NAME"), Attr(m.attrs, "START"), Attr(m.attrs, "LEN"), Attr(m.attrs, "TYPE"), Attr(m.attrs, "HOTCUE"))
    case (Some(name), Some(start), Some(length), Some(kind), Some(idx)) => MakeCue(name, start, length, kind, idx)
    case _ => Err(AssertionError)
  }

  /** The cue of the five attributes: START and LEN are milliseconds, a zero
      LEN means no end, TYPE goes back through the marker table and HOTCUE
      is the index. */
  function MakeCue(name: string, start: string, length: string, kind: string, idx: string): (r: Result<AMarker>)
    ensures r.Err? ==> r.error in {ValueError, KeyError}
  {
    var s :- Decimal.ParseFloat(start);
    var l :- Decimal.ParseFloat(length);
    var types := InverseDict(TraktorUtils.MARKERTYPE_MAP);
    if kind !in types then Err(KeyError)
    else
      var index :- Decimal.ParseInt(idx);
      Ok(AMarker(name, None, MsToS(s), if l != 0.0 then Some(MsToS(s + l)) else None, types[kind], index, false))
  }

  /** A cue that reads starts at START / 1000 and ends at (START + LEN) /
      1000, or has no end when LEN is zero. */
  lemma MakeCueTimes(name: string, start: string, length: string, kind: string, idx: string)
    requires MakeCue(name, start, length, kind, idx).Ok?
    ensures var c := MakeCue(name, start, length, kind, idx).value;
      && Decimal.ParseFloat(start) == Ok(SToMs(c.start))
      && (Decimal.ParseFloat(length) == Ok(0.0) <==> c.end.None?)
      && (c.end.Some? ==> Decimal.ParseFloat(length) == Ok(SToMs(c.end.value) - SToMs(c.start)))
  {
    var c := MakeCue(name, start, length, kind, idx).value;
    var s := Decimal.ParseFloat(start).value;
    var l := Decimal.ParseFloat(length).value;
    assert c.start == MsToS(s);
    assert c.end == if l != 0.0 then Some(MsToS(s + l)) else None;
    MsSRoundTrip(s);
    MsSRoundTrip(s + l);
  }

  /** A cue that reads has the kind whose code is TYPE, the index HOTCUE
      and the name NAME, and is neither coloured nor locked. */
  lemma MakeCueKind(name: string, start: string, length: string, kind: string, idx: string)
    requires MakeCue(name, start, length, kind, idx).Ok?
    ensures var c := MakeCue(name, start, length, kind, idx).value;
      && c.name == name
      && Get(TraktorUtils.MARKERTYPE_MAP, c.kind) == Ok(kind)
      && Decimal.ParseInt(idx) == Ok(c.index)
      && c.color.None? && !c.locked
  {
    var types := InverseDict(TraktorUtils.MARKERTYPE_MAP);
    assert kind in types;
    assert MakeCue(name, start, length, kind, idx).value.kind == types[kind];
    MarkerTypeCodeOf(kind);
  }

  /** get_cue_v2_cues: the cues of the non-anchor elements in order, or the
      error of the first one that fails. */
  function GetCueV2Cues(e: Entry): (r: Result<seq<AMarker>>)
    ensures r.Ok? ==> |r.value| == |CueMarkers(e.cues)|
  {
    MapResult(GetCue, CueMarkers(e.cues))
  }

  /** Each cue is the reading of its element, and the list fails exactly
      when one of its elements does. */
  lemma GetCueV2CuesEach(e: Entry, ms: seq<CueV2>)
    requires ms == CueMarkers(e.cues)
    ensures GetCueV2Cues(e).Ok? ==> forall i :: 0 <= i < |ms| ==> GetCue(ms[i]) == Ok(GetCueV2Cues(e).value[i])
    ensures GetCueV2Cues(e).Ok? <==> forall i :: 0 <= i < |ms| ==> GetCue(ms[i]).Ok?
  {
    MapResultEach(GetCue, ms);
  }

  /** get_cue_v2_cues as the source runs it, appending one cue per
      element. */
  method GetCueV2CuesLoop(e: Entry) returns (r: Result<seq<AMarker>>)
    ensures r == GetCueV2Cues(e)
  {
    var mkrs := CueMarkers(e.cues);
    var out: seq<AMarker> := [];
    for i := 0 to |mkrs|
      invariant MapResult(GetCue, mkrs[..i]) == Ok(out)
    {
      assert mkrs[..i + 1][..i] == mkrs[..i];
      var c := GetCue(mkrs[i]);
      if c.Err? {
        assert MapResult(GetCue, mkrs[..i + 1]) == Err(c.error);
        MapResultFails(GetCue, mkrs, i + 1);
        return Err(c.error);
      }
      out := out + [c.value];
    }
    assert mkrs[..|mkrs|] == mkrs;
    r := Ok(out);
  }

  // ----- find_collection_entry -----

  /** VOLUME + DIR + FILE of the entry's LOCATION, when all three are
      there. */
  function LocationKey(e: Entry): Option<string>
  {
    if e.location.None? then None
    else
      var loc := e.location.value;
      match (Attr(loc, "VOLUME"), Attr(loc, "DIR"), Attr(loc, "FILE"))
      case (Some(vol), Some(d), Some(name)) => Some(vol + d + name)
      case _ => None
  }

  /** The first entry at or after `from` whose location key is `key`. */
  function FirstWithKey(col: seq<Entry>, key: string, from: nat): (r: Option<nat>)
    requires from <= |col|
    ensures r.Some? ==> from <= r.value < |col| && LocationKey(col[r.value]) == Some(key)
    ensures r.Some? ==> forall j :: from <= j < r.value ==> LocationKey(col[j]) != Some(key)
    ensures r.None? ==> forall j :: from <= j < |col| ==> LocationKey(col[j]) != Some(key)
    decreases |col| - from
  {
    if from == |col| then None
    else if LocationKey(col[from]) == Some(key) then Some(from)
    else FirstWithKey(col, key, from + 1)
  }

  /** find_collection_entry, with the collection's ENTRY elements as a list
      and the entry found given by its position: none for a missing key,
      else the first entry whose location key equals the key. */
  function FindCollectionEntry(col: seq<Entry>, key: Option<string>): (r: Option<nat>)
    ensures key.None? ==> r.None?
    ensures r.Some? ==> r.value < |col| && LocationKey(col[r.value]) == key
    ensures r.Some? ==> forall j :: 0 <= j < r.value ==> LocationKey(col[j]) != key
    ensures r.None? && key.Some? ==> forall j :: 0 <= j < |col| ==> LocationKey(col[j]) != key
  {
    if key.None? then None else FirstWithKey(col, key.value, 0)
  }

  /** find_collection_entry as the source runs it: entries without a
      LOCATION are skipped, and the loop stops at the first match. */
  method FindCollectionEntryLoop(col: seq<Entry>, key: Option<string>) returns (r: Option<nat>)
    ensures r == FindCollectionEntry(col, key)
  {
    if key.None? {
      return None;
    }
    r := None;
    var i := 0;
    while i < |col|
      invariant 0 <= i <= |col|
      invariant FirstWithKey(col, key.value, i) == FirstWithKey(col, key.value, 0)
    {
      if col[i].location.None? {
        i := i + 1;
        continue;
      }
      if LocationKey(col[i]) == key {
        r := Some(i);
        break;
      }
      i := i + 1;
    }
  }
}
