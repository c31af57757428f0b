// djbabel/rekordbox/read.py without the XML parser: an element is the map of
// its attributes. The value readers (to_date, get_tag_attr, get_color,
// get_tonality), the TEMPO and POSITION_MARK readers, the playlist key type,
// the collection lookup and the playlist loop, and what each reader gives
// back for the text rekordbox/write.py writes.

module RekordboxRead {
  import opened Wrappers
  import opened Canonical
  import opened Strings
  import opened Normalize
  import Decimal
  import Dates
  import opened RekordboxUtils
  import opened RekordboxWrite
  import opened Elements

  // ----- to_date -----

  /** to_date: four characters are a year ("%Y", January 1st), anything else
      a full "%Y-%m-%d" date; None stays None. */
  function ToDate(d: Option<string>): (r: Result<Option<Date>>)
    ensures d.None? <==> r == Ok(None)
    ensures r.Err? ==> r.error == ValueError
    ensures r.Ok? && d.Some? && |d.value| == 4 ==> r.value.value.month == 1 && r.value.value.day == 1
  {
    if d.None? then Ok(None)
    else if |d.value| == 4 then
      var x :- Dates.StrptimeYear(d.value);
      Ok(Some(x))
    else
      var x :- Dates.StrptimeYmd(d.value, '-');
      Ok(Some(x))
  }

  // ----- get_tag_attr -----

  /** get_tag_attr: the attribute named after the field, with an empty value
      read as None. */
  function GetTagAttr(fn: string, el: Attrs): (r: Option<string>)
    ensures r.Some? ==> r.value != ""
    ensures r.None? <==> RbAttrName(fn) !in el || el[RbAttrName(fn)] == ""
    ensures r.Some? ==> r.value == el[RbAttrName(fn)]
  {
    var v := Attr(el, RbAttrName(fn));
    if v == Some("") then None else v
  }

  // ----- get_color -----

  /** The value of a hexadecimal digit of either case. */
  function HexValue(c: char): (r: Option<nat>)
    ensures r.Some? ==> r.value < 16
  {
    if '0' <= c <= '9' then Some(c as int - '0' as int)
    else if 'a' <= c <= 'f' then Some(c as int - 'a' as int + 10)
    else if 'A' <= c <= 'F' then Some(c as int - 'A' as int + 10)
    else None
  }

  /** binascii.unhexlify: two digits per byte; an odd length or a character
      that is not a digit is an error (binascii.Error, a ValueError). */
  function Unhexlify(s: string): (r: Result<seq<int>>)
    ensures r.Ok? ==> 2 * |r.value| == |s|
    ensures r.Ok? ==> forall i :: 0 <= i < |r.value| ==> 0 <= r.value[i] < 256
    ensures r.Err? ==> r.error == ValueError
  {
    if |s| % 2 == 1 then Err(ValueError)
    else if s == [] then Ok([])
    else
      var hi, lo := HexValue(s[0]), HexValue(s[1]);
      if hi.None? || lo.None? then Err(ValueError)
      else
        var rest :- Unhexlify(s[2..]);
        Ok([16 * hi.value + lo.value] + rest)
  }

  /** get_color: "0x" and six hexadecimal digits are the three colour bytes;
      any other text, or none, is no colour. Six characters that are not
      all digits raise. */
  function GetColor(el: Attrs): (r: Result<Option<Rgb>>)
    ensures r.Ok? && r.value.Some? ==> IsRgb(r.value.value)
    ensures r.Err? ==> r.error == ValueError
    ensures var c := GetTagAttr("color", el);
      (c.None? || |c.value| != 8 || c.value[..2] != "0x") ==> r == Ok(None)
  {
    var c := GetTagAttr("color", el);
    if c.Some? && |c.value| == 8 && c.value[..2] == "0x" then
      var bs :- Unhexlify(c.value[2..]);
      Ok(Some((bs[0], bs[1], bs[2])))
    else Ok(None)
  }

  lemma HexValueOfDigit(d: nat)
    requires d < 16
    ensures HexValue(UpperChar(HexDigit(d))) == Some(d)
  {
  }

  /** The upper-cased two digits of a byte. */
  function HexPair(x: int): string
    requires 0 <= x < 256
  {
    [UpperChar(HexDigit(x / 16)), UpperChar(HexDigit(x % 16))]
  }

  lemma UnhexlifyPair(x: int, rest: string, bs: seq<int>)
    requires 0 <= x < 256
    requires Unhexlify(rest) == Ok(bs)
    ensures Unhexlify(HexPair(x) + rest) == Ok([x] + bs)
  {
    var s := HexPair(x) + rest;
    HexValueOfDigit(x / 16);
    HexValueOfDigit(x % 16);
    assert s[2..] == rest;
  }

  /** The hexadecimal text ColorHex writes is the three pairs. */
  lemma ColorHexPairs(c: Rgb)
    requires IsRgb(c)
    ensures ColorHex(c) == "0x" + (HexPair(c.0) + (HexPair(c.1) + HexPair(c.2)))
  {
    Format02xByte(c.0);
    Format02xByte(c.1);
    Format02xByte(c.2);
    var t := Format02x(c.0) + Format02x(c.1) + Format02x(c.2);
    assert Upper(t) == HexPair(c.0) + (HexPair(c.1) + HexPair(c.2));
  }

  /** Every colour written in hexadecimal is read back. */
  lemma GetColorOfHex(c: Rgb, el: Attrs)
    requires IsRgb(c)
    requires GetTagAttr("color", el) == Some(ColorHex(c))
    ensures GetColor(el) == Ok(Some(c))
  {
    ColorHexPairs(c);
    var s := ColorHex(c);
    UnhexlifyPair(c.2, [], []);
    assert HexPair(c.2) + [] == HexPair(c.2) && [c.2] + [] == [c.2];
    UnhexlifyPair(c.1, HexPair(c.2), [c.2]);
    assert [c.1] + [c.2] == [c.1, c.2];
    UnhexlifyPair(c.0, HexPair(c.1) + HexPair(c.2), [c.1, c.2]);
    assert s[2..] == HexPair(c.0) + (HexPair(c.1) + HexPair(c.2));
    assert s[..2] == "0x";
  }

  /** Lemon is the hexadecimal text of (255, 255, 0). */
  lemma DefaultColorHex()
    ensures ColorHex((255, 255, 0)) == RB_DEFAULT_COLOR
  {
    Format02xByte(255);
    Format02xByte(0);
  }

  /** The colour rb_attr_color writes reads back as the track's colour when
      it is one of the eight Rekordbox colours of a Rekordbox track, and as
      Lemon otherwise. */
  lemma RbAttrColorReadBack(c: Option<Rgb>, source: ASoftware, el: Attrs)
    requires c.Some? ==> IsRgb(c.value)
    requires RbAttrColor(c, source).Ok?
    requires GetTagAttr("color", el) == Some(RbAttrColor(c, source).value)
    ensures GetColor(el) == Ok(Some(
      if source == REKORDBOX && ColorHex(c.value) in RB_COLORS then c.value else (255, 255, 0)))
  {
    if source == REKORDBOX && ColorHex(c.value) in RB_COLORS {
      GetColorOfHex(c.value, el);
    } else {
      DefaultColorHex();
      GetColorOfHex((255, 255, 0), el);
    }
  }

  // ----- get_beatgrid -----

  /** One TEMPO element: tempo and start are required numbers, the metre
      text must have exactly one '/', and it is kept only when both sides
      are digit strings; otherwise the point gets the 4/4 default. */
  function GetTempo(t: Attrs): (r: Result<ABeatGridBPM>)
    ensures r.Ok? ==> ToFloat(Attr(t, "Bpm")) == Ok(Some(r.value.bpm))
    ensures r.Ok? ==> ToFloat(Attr(t, "Inizio")) == Ok(Some(r.value.position))
    ensures r.Ok? ==> r.value.metro.0 >= 0 && r.value.metro.1 >= 0
    ensures r.Err? ==> r.error in {AssertionError, ValueError}
  {
    var bpm :- ToFloat(Attr(t, "Bpm"));
    if bpm.None? then Err(AssertionError)
    else
      var position :- ToFloat(Attr(t, "Inizio"));
      if position.None? then Err(AssertionError)
      else if "Metro" !in t then Err(AssertionError)
      else
        var parts := Split(t["Metro"], '/');
        if |parts| != 2 then Err(ValueError)
        else if IsNumeric(parts[0]) && IsNumeric(parts[1]) then
          Ok(ABeatGridBPM(position.value, bpm.value, (ToInt(Some(parts[0])), ToInt(Some(parts[1])))))
        else Ok(BeatGridPoint(position.value, bpm.value))
  }

  /** get_beatgrid: the points of the TEMPO elements in order, or the error
      of the first one that fails. */
  function GetBeatgrid(ts: seq<Attrs>): (r: Result<seq<ABeatGridBPM>>)
    ensures r.Ok? ==> |r.value| == |ts|
  {
    MapResult(GetTempo, ts)
  }

  /** Each point is the reading of its element, and the grid fails exactly
      when one of its elements does. */
  lemma GetBeatgridEach(ts: seq<Attrs>)
    ensures GetBeatgrid(ts).Ok? ==> forall i :: 0 <= i < |ts| ==> GetTempo(ts[i]) == Ok(GetBeatgrid(ts).value[i])
    ensures GetBeatgrid(ts).Ok? <==> forall i :: 0 <= i < |ts| ==> GetTempo(ts[i]).Ok?
  {
    MapResultEach(GetTempo, ts);
  }

  /** get_beatgrid as the source runs it, appending one point per element. */
  method GetBeatgridLoop(ts: seq<Attrs>) returns (r: Result<seq<ABeatGridBPM>>)
    ensures r == GetBeatgrid(ts)
  {
    var bg: seq<ABeatGridBPM> := [];
    for i := 0 to |ts|
      invariant GetBeatgrid(ts[..i]) == Ok(bg)
    {
      assert ts[..i + 1][..i] == ts[..i];
      var p := GetTempo(ts[i]);
      if p.Err? {
        assert GetBeatgrid(ts[..i + 1]) == Err(p.error);
        MapResultFails(GetTempo, ts, i + 1);
        return Err(p.error);
      }
      bg := bg + [p.value];
    }
    assert ts[..|ts|] == ts;
    r := Ok(bg);
  }

  /** The decimal text of an integer is a digit string exactly when the
      integer is not negative. */
  lemma ShowIntNumeric(i: int)
    ensures IsNumeric(Decimal.ShowInt(i)) <==> i >= 0
    ensures i >= 0 ==> ToInt(Some(Decimal.ShowInt(i))) == i
    ensures i < 0 ==> ToInt(Some(Decimal.ShowInt(i))) == 0
  {
    if i >= 0 {
      ToIntShow(i);
    } else {
      assert !Decimal.IsDigit(Decimal.ShowInt(i)[0]);
    }
  }

  /** A TEMPO element rb_tempo writes reads back as its point, provided the
      decimal text of the two numbers reads back as them; a metre with a
      negative number falls back to 4/4. */
  lemma TempoReadBack(p: ABeatGridBPM, battito: int, showReal: real -> string)
    requires Decimal.ParseFloat(showReal(p.bpm)) == Ok(p.bpm)
    requires Decimal.ParseFloat(showReal(p.position)) == Ok(p.position)
    ensures GetTempo(TempoAttrs(p, battito, showReal)) ==
      Ok(ABeatGridBPM(p.position, p.bpm, if p.metro.0 >= 0 && p.metro.1 >= 0 then p.metro else (4, 4)))
  {
    ShowIntNumeric(p.metro.0);
    ShowIntNumeric(p.metro.1);
  }

  // ----- get_markers -----

  /** One POSITION_MARK element: name, type and start are required, the type
      must be a known code (KeyError otherwise), an empty or missing end is
      no end, and the number and colour components are read with to_int, so
      anything but a digit string is 0. The colour is the palette colour
      nearest to the components; markers are never locked. */
  function GetMark(dist: (Rgb, Rgb) -> real, pm: Attrs): (r: Result<AMarker>)
    ensures r.Ok? ==> Attr(pm, "Name") == Some(r.value.name)
    ensures r.Ok? ==> "Type" in pm && Get(MARKERTYPE_MAP, r.value.kind) == Ok(pm["Type"])
    ensures r.Ok? ==> r.value.index >= 0 && !r.value.locked && r.value.color.Some?
    ensures r.Ok? ==> (r.value.end.None? <==> Attr(pm, "End") in {None, Some("")})
  {
    var name := Attr(pm, "Name");
    var ty := Attr(pm, "Type");
    if name.None? || ty.None? then Err(AssertionError)
    else if ty.value !in InverseDict(MARKERTYPE_MAP) then Err(KeyError)
    else
      var kind := InverseDict(MARKERTYPE_MAP)[ty.value];
      var start :- ToFloat(Attr(pm, "Start"));
      if start.None? then Err(AssertionError)
      else
        var endText := Attr(pm, "End");
        var end :- if endText == Some("") then Ok(None) else ToFloat(endText);
        var index := ToInt(Attr(pm, "Num"));
        var rgb := (ToInt(Attr(pm, "Red")), ToInt(Attr(pm, "Green")), ToInt(Attr(pm, "Blue")));
        MarkerTypeCodes(ty.value);
        Ok(AMarker(name.value, Some(Closest(dist, rgb)), start.value, end, kind, index, false))
  }

  /** get_markers: the markers of the POSITION_MARK elements in order, or the
      error of the first one that fails. */
  function GetMarkers(dist: (Rgb, Rgb) -> real, pms: seq<Attrs>): (r: Result<seq<AMarker>>)
    ensures r.Ok? ==> |r.value| == |pms|
  {
    MapResult(pm => GetMark(dist, pm), pms)
  }

  /** Each marker is the reading of its element, and the list fails exactly
      when one of its elements does. */
  lemma GetMarkersEach(dist: (Rgb, Rgb) -> real, pms: seq<Attrs>)
    ensures GetMarkers(dist, pms).Ok? ==> forall i :: 0 <= i < |pms| ==> GetMark(dist, pms[i]) == Ok(GetMarkers(dist, pms).value[i])
    ensures GetMarkers(dist, pms).Ok? <==> forall i :: 0 <= i < |pms| ==> GetMark(dist, pms[i]).Ok?
  {
    MapResultEach(pm => GetMark(dist, pm), pms);
  }

  /** get_markers as the source runs it, appending one marker per element. */
  method GetMarkersLoop(dist: (Rgb, Rgb) -> real, pms: seq<Attrs>) returns (r: Result<seq<AMarker>>)
    ensures r == GetMarkers(dist, pms)
  {
    var mks: seq<AMarker> := [];
    for i := 0 to |pms|
      invariant GetMarkers(dist, pms[..i]) == Ok(mks)
    {
      assert pms[..i + 1][..i] == pms[..i];
      var m := GetMark(dist, pms[i]);
      if m.Err? {
        assert GetMarkers(dist, pms[..i + 1]) == Err(m.error);
        MapResultFails(pm => GetMark(dist, pm), pms, i + 1);
        return Err(m.error);
      }
      mks := mks + [m.value];
    }
    assert pms[..|pms|] == pms;
    r := Ok(mks);
  }


  /** The colour components a POSITION_MARK carries: Rekordbox's colour of
      the marker, or none, which to_int reads as 0. */
  function MarkRgb(m: AMarker): (c: Rgb)
    ensures IsRgb(c)
  {
    if m.color.Some? then RbMarkerColor(m.color.value) else (0, 0, 0)
  }

  /** A POSITION_MARK rb_position_mark writes reads back as its marker, up to
      three things: the colour is snapped to the palette colour nearest to
      Rekordbox's shade of it (or to black when there was none), a memory
      cue's number -1 becomes 0, and the lock is dropped. */
  lemma PositionMarkReadBack(dist: (Rgb, Rgb) -> real, m: AMarker, showReal: real -> string)
    requires Decimal.ParseFloat(showReal(m.start)) == Ok(m.start)
    requires m.end.Some? ==> Decimal.ParseFloat(showReal(m.end.value)) == Ok(m.end.value)
    ensures GetMark(dist, PositionMarkAttrs(m, showReal)) ==
      Ok(AMarker(m.name, Some(Closest(dist, MarkRgb(m))), m.start, m.end, m.kind,
                 if m.index >= 0 then m.index else 0, false))
  {
    var pm := PositionMarkAttrs(m, showReal);
    MarkAttrsText(m, showReal);
    MarkAttrsCodes(m, showReal);
    MarkAttrsColor(m, showReal);
    MarkerTypeInjective(m.kind);
    ShowIntNumeric(m.index);
    var c := MarkRgb(m);
    ToIntShow(c.0);
    ToIntShow(c.1);
    ToIntShow(c.2);
    assert Decimal.ParseFloat("").Err?;
    GetMarkOf(dist, pm, m, if m.index >= 0 then m.index else 0, c);
  }

  /** The text attributes of a written POSITION_MARK. */
  lemma MarkAttrsText(m: AMarker, showReal: real -> string)
    ensures var pm := PositionMarkAttrs(m, showReal);
      Attr(pm, "Name") == Some(m.name) && Attr(pm, "Start") == Some(showReal(m.start)) &&
      Attr(pm, "End") == Some(if m.end.Some? then showReal(m.end.value) else "")
  {
  }

  /** The number and type code of a written POSITION_MARK. */
  lemma MarkAttrsCodes(m: AMarker, showReal: real -> string)
    ensures var pm := PositionMarkAttrs(m, showReal);
      Attr(pm, "Num") == Some(Decimal.ShowInt(m.index)) &&
      Attr(pm, "Type") == Some(MarkerCode(m.kind))
  {
  }

  /** The colour attributes of a written POSITION_MARK. */
  lemma MarkAttrsColor(m: AMarker, showReal: real -> string)
    ensures var pm := PositionMarkAttrs(m, showReal);
      var c := MarkRgb(m);
      ToInt(Attr(pm, "Red")) == c.0 && ToInt(Attr(pm, "Green")) == c.1 && ToInt(Attr(pm, "Blue")) == c.2
  {
    var c := MarkRgb(m);
    ToIntShow(c.0);
    ToIntShow(c.1);
    ToIntShow(c.2);
  }

  /** GetMark of an element whose attributes read as the parts of m. */
  lemma GetMarkOf(dist: (Rgb, Rgb) -> real, pm: Attrs, m: AMarker, index: int, c: Rgb)
    requires Attr(pm, "Name") == Some(m.name)
    requires "Type" in pm && pm["Type"] in InverseDict(MARKERTYPE_MAP) && InverseDict(MARKERTYPE_MAP)[pm["Type"]] == m.kind
    requires ToFloat(Attr(pm, "Start")) == Ok(Some(m.start))
    requires m.end.None? ==> Attr(pm, "End") == Some("")
    requires m.end.Some? ==> Attr(pm, "End") != Some("") && ToFloat(Attr(pm, "End")) == Ok(m.end)
    requires ToInt(Attr(pm, "Num")) == index
    requires ToInt(Attr(pm, "Red")) == c.0 && ToInt(Attr(pm, "Green")) == c.1 && ToInt(Attr(pm, "Blue")) == c.2
    ensures GetMark(dist, pm) == Ok(AMarker(m.name, Some(Closest(dist, c)), m.start, m.end, m.kind, index, false))
  {
  }

  // ----- get_tonality -----

  /** get_tonality: the element's key text, read back by ClassicKey. */
  function GetTonality(el: Attrs): (r: Option<string>)
    ensures GetTagAttr("tonality", el).None? <==> r.None?
  {
    ClassicKey(GetTagAttr("tonality", el))
  }

  /** A Rekordbox abbreviation back to a classic key name; any other text is
      kept, and a missing key stays None. */
  function ClassicKey(t: Option<string>): (r: Option<string>)
    ensures t.None? <==> r.None?
    ensures t.Some? && t.value !in InverseDict(CLASSIC2ABBREV_KEY_MAP) ==> r == t
    ensures t.Some? && t.value in InverseDict(CLASSIC2ABBREV_KEY_MAP) ==>
      exists i :: 0 <= i < |CLASSIC2ABBREV_KEY_MAP| && CLASSIC2ABBREV_KEY_MAP[i] == (r.value, t.value)
  {
    var a2c := InverseDict(CLASSIC2ABBREV_KEY_MAP);
    if t.None? then None
    else if t.value in a2c then
      InverseDictPair(CLASSIC2ABBREV_KEY_MAP, t.value);
      Some(a2c[t.value])
    else t
  }

  /** The abbreviation the tests check: "Bb" is read as "Bbmaj". */
  lemma ClassicKeyExample(t: Option<string>, d: Dict<string, string>)
    requires d == CLASSIC2ABBREV_KEY_MAP
    requires t == Some("Bb")
    ensures ClassicKey(t) == Some("Bbmaj")
  {
    assert d[15] == ("Bbmaj", "Bb");
    InverseDictLast(d, 15);
  }

  /** A duplicated abbreviation: "Cm" abbreviates both "Cmin" and "Cmi",
      and the inverse table keeps the later one, "Cmi". */
  lemma ClassicKeyDuplicate(t: Option<string>, d: Dict<string, string>)
    requires d == CLASSIC2ABBREV_KEY_MAP
    requires t == Some("Cm")
    ensures ClassicKey(t) == Some("Cmi")
  {
    assert d[18] == ("Cmi", "Cm");
    InverseDictLast(d, 18);
  }

  /** The classic name the tests check is written as "B". */
  lemma TonalityWriteExample(t: Option<string>, d: Dict<string, string>)
    requires d == CLASSIC2ABBREV_KEY_MAP
    requires t == Some("Bmaj")
    ensures RbAttrTonality(t) == Some("B")
  {
    assert d[16] == ("Bmaj", "B");
    GetFirst(d, 16);
    RbAttrTonalityOf(t.value);
  }

  /** The names read back above are written as the abbreviations they were
      read from. */
  lemma TonalityRewritten(t: Option<string>, d: Dict<string, string>)
    requires d == CLASSIC2ABBREV_KEY_MAP
    requires t == Some("Bbmaj")
    ensures RbAttrTonality(t) == Some("Bb")
  {
    assert d[15] == ("Bbmaj", "Bb");
    GetFirst(d, 15);
    RbAttrTonalityOf(t.value);
  }

  lemma TonalityRewrittenDuplicate(t: Option<string>, d: Dict<string, string>)
    requires d == CLASSIC2ABBREV_KEY_MAP
    requires t == Some("Cmi")
    ensures RbAttrTonality(t) == Some("Cm")
  {
    assert d[18] == ("Cmi", "Cm");
    GetFirst(d, 18);
    RbAttrTonalityOf(t.value);
  }

  /** A key text that is neither a classic name nor an abbreviation is
      written and read back as it is. */
  lemma TonalityUnknownReadBack(t: string)
    requires Get(CLASSIC2ABBREV_KEY_MAP, t).Err? && t !in InverseDict(CLASSIC2ABBREV_KEY_MAP)
    ensures ClassicKey(RbAttrTonality(Some(t))) == Some(t)
  {
    RbAttrTonalityOf(t);
  }

  // ----- playlists -----

  /** RBPlaylistKeyType: how a playlist's TRACK entries name collection
      tracks. */
  datatype KeyType = TRACK_ID | LOCATION

  /** get_playlist_key_type: "0" is by track id, "1" by location, anything
      else (or nothing) a ValueError. */
  function PlaylistKeyType(pl: Attrs): (r: Result<KeyType>)
    ensures r == Ok(TRACK_ID) <==> Attr(pl, "KeyType") == Some("0")
    ensures r == Ok(LOCATION) <==> Attr(pl, "KeyType") == Some("1")
    ensures r.Err? ==> r.error == ValueError
  {
    match Attr(pl, "KeyType")
    case Some("0") => Ok(TRACK_ID)
    case Some("1") => Ok(LOCATION)
    case _ => Err(ValueError)
  }

  /** get_element_key: the attribute the key type names. */
  function GetElementKey(el: Attrs, kt: KeyType): Option<string>
  {
    Attr(el, if kt == TRACK_ID then "TrackID" else "Location")
  }

  /** The first collection track at or after `from` whose key is `key`. */
  function FirstWithKey(col: seq<Attrs>, key: string, kt: KeyType, from: nat): (r: Option<nat>)
    requires from <= |col|
    ensures r.Some? ==> from <= r.value < |col| && GetElementKey(col[r.value], kt) == Some(key)
    ensures r.Some? ==> forall j :: from <= j < r.value ==> GetElementKey(col[j], kt) != Some(key)
    ensures r.None? ==> forall j :: from <= j < |col| ==> GetElementKey(col[j], kt) != Some(key)
    decreases |col| - from
  {
    if from == |col| then None
    else if GetElementKey(col[from], kt) == Some(key) then Some(from)
    else FirstWithKey(col, key, kt, from + 1)
  }

  /** find_collection_entry, with the collection's TRACK elements as a list
      and the entry found given by its position: none for a missing key,
      else the first track whose key attribute equals the key. */
  function FindCollectionEntry(col: seq<Attrs>, key: Option<string>, kt: KeyType): (r: Option<nat>)
    ensures key.None? ==> r.None?
    ensures r.Some? ==> r.value < |col| && GetElementKey(col[r.value], kt) == key
    ensures r.Some? ==> forall j :: 0 <= j < r.value ==> GetElementKey(col[j], kt) != key
    ensures r.None? && key.Some? ==> forall j :: 0 <= j < |col| ==> GetElementKey(col[j], kt) != key
  {
    if key.None? then None else FirstWithKey(col, key.value, kt, 0)
  }

  /** find_collection_entry as the source runs it: a loop that stops at the
      first match. */
  method FindCollectionEntryLoop(col: seq<Attrs>, key: Option<string>, kt: KeyType) returns (r: Option<nat>)
    ensures r == FindCollectionEntry(col, key, kt)
  {
    if key.None? {
      return None;
    }
    r := None;
    var i := 0;
    while i < |col|
      invariant 0 <= i <= |col|
      invariant FirstWithKey(col, key.value, kt, i) == FirstWithKey(col, key.value, kt, 0)
    {
      if GetElementKey(col[i], kt) != key {
        i := i + 1;
        continue;
      } else {
        r := Some(i);
        break;
      }
    }
  }

  /** The tracks of the playlist loop: each TRACK key looked up in the
      collection, and every track found converted and moved to the
      software-neutral time reference (normalize_time); keys not found are
      skipped. The conversion of a collection element, which reads the audio
      file, is a parameter. */
  function PlaylistTracks(col: seq<Attrs>, keys: seq<Option<string>>, kt: KeyType,
                          fromRb: Attrs -> ATrack, trans: ATransformation): (r: seq<ATrack>)
    ensures |r| <= |keys|
  {
    if keys == [] then []
    else
      var ats := PlaylistTracks(col, keys[..|keys| - 1], kt, fromRb, trans);
      match FindCollectionEntry(col, keys[|keys| - 1], kt)
      case Some(i) => ats + [Adjusted(fromRb(col[i]), trans, -1)]
      case None => ats
  }

  /** The playlist loop of read_rekordbox_playlist. */
  method ReadPlaylistTracks(col: seq<Attrs>, keys: seq<Option<string>>, kt: KeyType,
                            fromRb: Attrs -> ATrack, trans: ATransformation) returns (ats: seq<ATrack>)
    ensures ats == PlaylistTracks(col, keys, kt, fromRb, trans)
  {
    ats := [];
    for n := 0 to |keys|
      invariant ats == PlaylistTracks(col, keys[..n], kt, fromRb, trans)
    {
      assert keys[..n + 1][..n] == keys[..n];
      var e := FindCollectionEntryLoop(col, keys[n], kt);
      if e.Some? {
        var at := NormalizeTime(fromRb(col[e.value]), trans);
        ats := ats + [at];
      }
    }
    assert keys[..|keys|] == keys;
  }

  /** The playlist has as many tracks as keys exactly when every key is
      found, which is when read_rekordbox_playlist does not warn (for a
      playlist whose Entries count is right). */
  lemma {:induction false} PlaylistTracksAllFound(col: seq<Attrs>, keys: seq<Option<string>>, kt: KeyType,
                                                  fromRb: Attrs -> ATrack, trans: ATransformation)
    ensures |PlaylistTracks(col, keys, kt, fromRb, trans)| == |keys| <==>
      forall k :: 0 <= k < |keys| ==> FindCollectionEntry(col, keys[k], kt).Some?
  {
    if keys != [] {
      var pre := keys[..|keys| - 1];
      PlaylistTracksAllFound(col, pre, kt, fromRb, trans);
      assert forall k :: 0 <= k < |pre| ==> pre[k] == keys[k];
    }
  }

  // ----- reading back what rb_attr writes -----

  /** The element carries the attribute rb_attr writes for field f. */
  predicate Written(el: Attrs, at: ATrack, f: Field, tid: int, showReal: real -> string,
                    url: string -> string, today: Dates.Date)
    requires !IsUnwritten(f)
    requires at.dateAdded.Some? ==> Dates.IsValid(at.dateAdded.value)
    requires Dates.IsValid(today)
  {
    var n := RbAttrName(FieldName(f));
    n in el && AttrValue(at, f, tid, showReal, url, today) == Ok(Some(el[n]))
  }

  /** get_tag_attr's view of a written text: the empty text is None. */
  function Tag(s: string): (r: Option<string>)
    ensures r.None? <==> s == ""
    ensures r.Some? ==> r.value == s
  {
    if s == "" then None else Some(s)
  }

  /** get_tag_attr gives back the text rb_attr wrote for the field. */
  lemma WrittenTag(el: Attrs, at: ATrack, f: Field, tid: int, showReal: real -> string,
                   url: string -> string, today: Dates.Date)
    requires !IsUnwritten(f)
    requires at.dateAdded.Some? ==> Dates.IsValid(at.dateAdded.value)
    requires Dates.IsValid(today)
    requires Written(el, at, f, tid, showReal, url, today)
    ensures AttrValue(at, f, tid, showReal, url, today).Ok?
    ensures AttrValue(at, f, tid, showReal, url, today).value.Some?
    ensures GetTagAttr(FieldName(f), el) == Tag(AttrValue(at, f, tid, showReal, url, today).value.value)
  {
  }

  /** to_int of a tag is to_int of its text: both give 0 for "". */
  lemma ToIntTag(s: string)
    ensures ToInt(Tag(s)) == ToInt(Some(s))
  {
    if s == "" {
      assert !IsNumeric(s);
    }
  }

  /** A text field reads back as written, except that an empty text becomes
      None. */
  lemma StrFieldReadBack(el: Attrs, at: ATrack, f: Field, tid: int, showReal: real -> string,
                         url: string -> string, today: Dates.Date)
    requires IsStrField(f)
    requires at.dateAdded.Some? ==> Dates.IsValid(at.dateAdded.value)
    requires Dates.IsValid(today)
    requires Written(el, at, f, tid, showReal, url, today)
    ensures GetTagAttr(FieldName(f), el) == if StrValue(at, f) == Some("") then None else StrValue(at, f)
  {
    WritesStr(at, f, tid, showReal, url, today);
    var v := StrValue(at, f);
    assert GetTagAttr(FieldName(f), el) == Tag(OrDefault(v, "")) by {
      WrittenTag(el, at, f, tid, showReal, url, today);
    }
  }

  /** An integer field reads back as written when it is not negative; a
      negative or missing one reads as 0. */
  lemma IntFieldReadBack(el: Attrs, at: ATrack, f: Field, tid: int, showReal: real -> string,
                         url: string -> string, today: Dates.Date)
    requires IsIntField(f)
    requires at.dateAdded.Some? ==> Dates.IsValid(at.dateAdded.value)
    requires Dates.IsValid(today)
    requires Written(el, at, f, tid, showReal, url, today)
    ensures var v := IntValue(at, f);
      ToInt(GetTagAttr(FieldName(f), el)) == if v.Some? && v.value >= 0 then v.value else 0
  {
    WrittenTag(el, at, f, tid, showReal, url, today);
    var v := IntValue(at, f);
    var s := if v.Some? then Decimal.ShowInt(v.value) else "0";
    WritesInt(at, f, tid, showReal, url, today);
    ToIntTag(s);
    if v.Some? {
      ShowIntNumeric(v.value);
    } else {
      ToIntShow(0);
    }
  }

  /** A float field reads back as written, given that str() of the value
      reads back as it; a missing one reads as 0.0. */
  lemma FloatFieldReadBack(el: Attrs, at: ATrack, f: Field, tid: int, showReal: real -> string,
                           url: string -> string, today: Dates.Date)
    requires IsFloatField(f)
    requires at.dateAdded.Some? ==> Dates.IsValid(at.dateAdded.value)
    requires Dates.IsValid(today)
    requires Written(el, at, f, tid, showReal, url, today)
    requires FloatValue(at, f).Some? ==> Decimal.ParseFloat(showReal(FloatValue(at, f).value)) == Ok(FloatValue(at, f).value)
    ensures var v := FloatValue(at, f);
      ToFloat(GetTagAttr(FieldName(f), el)) == Ok(Some(if v.Some? then v.value else 0.0))
  {
    WrittenTag(el, at, f, tid, showReal, url, today);
    var v := FloatValue(at, f);
    var s := if v.Some? then showReal(v.value) else "0";
    WritesFloat(at, f, tid, showReal, url, today);
    ParseFloatEmpty("");
    if v.None? {
      ParseFloatZero("0");
    }
  }

  lemma ParseFloatEmpty(s: string)
    requires s == ""
    ensures Decimal.ParseFloat(s).Err?
  {
  }

  lemma ParseFloatZero(s: string)
    requires s == "0"
    ensures Decimal.ParseFloat(s) == Ok(0.0)
  {
    assert Decimal.SplitSign(s) == (false, s);
    assert s[0] == '0' && s[1..] == [];
    assert Decimal.SplitPoint(s[1..]) == ([], []);
    assert [s[0]] + [] == s;
    assert Decimal.SplitPoint(s) == (s, "");
    Decimal.ValueShow(0);
  }

  /** The rating reads back as rb_attr_rating writes it: a star count k
      in 0..5 as the byte value 51 k, anything else as 0. */
  lemma RatingReadBack(el: Attrs, at: ATrack, f: Field, tid: int, showReal: real -> string,
                       url: string -> string, today: Dates.Date)
    requires f == Rating
    requires at.dateAdded.Some? ==> Dates.IsValid(at.dateAdded.value)
    requires Dates.IsValid(today)
    requires Written(el, at, f, tid, showReal, url, today)
    ensures ToInt(GetTagAttr(FieldName(f), el)) ==
      if at.rating.Some? && 0 <= at.rating.value <= 5 then 51 * at.rating.value else 0
  {
    WrittenTag(el, at, f, tid, showReal, url, today);
    var s := RbAttrRatingAsWritten(at.rating);
    WritesRating(at, f, tid, showReal, url, today);
    ToIntTag(s);
    RatingAsWrittenValue(at.rating);
  }

  /** kbps_to_bps(to_int(...)) of the bit rate gives the written rate
      rounded down to whole kilobits; a missing or negative rate reads as
      0. */
  lemma BitRateReadBack(el: Attrs, at: ATrack, f: Field, tid: int, showReal: real -> string,
                        url: string -> string, today: Dates.Date)
    requires f == BitRate
    requires at.dateAdded.Some? ==> Dates.IsValid(at.dateAdded.value)
    requires Dates.IsValid(today)
    requires Written(el, at, f, tid, showReal, url, today)
    ensures 1000 * ToInt(GetTagAttr(FieldName(f), el)) ==
      if at.bitRate.Some? && at.bitRate.value >= 0 then at.bitRate.value - at.bitRate.value % 1000 else 0
  {
    WrittenTag(el, at, f, tid, showReal, url, today);
    var s := if at.bitRate.Some? then Decimal.ShowInt(TruncDiv1000(at.bitRate.value)) else "0";
    WritesBitRate(at, f, tid, showReal, url, today);
    ToIntTag(s);
    if at.bitRate.Some? {
      ShowIntNumeric(TruncDiv1000(at.bitRate.value));
    } else {
      ToIntShow(0);
    }
  }

  /** A four-digit release year reads back as January 1st of that year. */
  lemma ReleaseDateReadBack(el: Attrs, at: ATrack, f: Field, tid: int, showReal: real -> string,
                            url: string -> string, today: Dates.Date)
    requires f == ReleaseDate
    requires at.dateAdded.Some? ==> Dates.IsValid(at.dateAdded.value)
    requires Dates.IsValid(today)
    requires Written(el, at, f, tid, showReal, url, today)
    requires at.releaseDate.Some? && 1000 <= at.releaseDate.value.year <= 9999
    ensures ToDate(GetTagAttr(FieldName(f), el)) == Ok(Some(Date(at.releaseDate.value.year, 1, 1)))
  {
    WrittenTag(el, at, f, tid, showReal, url, today);
    var y := at.releaseDate.value.year;
    WritesReleaseDate(at, f, tid, showReal, url, today);
    Dates.StrptimeYearOf(y);
    Dates.ShowLength(y);
  }

  /** A missing release date is written as the year "0", which to_date
      cannot read: reading the track back raises ValueError. */
  lemma ReleaseDateMissing(el: Attrs, at: ATrack, f: Field, tid: int, showReal: real -> string,
                           url: string -> string, today: Dates.Date)
    requires f == ReleaseDate
    requires at.dateAdded.Some? ==> Dates.IsValid(at.dateAdded.value)
    requires Dates.IsValid(today)
    requires Written(el, at, f, tid, showReal, url, today)
    requires at.releaseDate.None?
    ensures ToDate(GetTagAttr(FieldName(f), el)) == Err(ValueError)
  {
    WrittenTag(el, at, f, tid, showReal, url, today);
    WritesReleaseDate(at, f, tid, showReal, url, today);
  }

  /** The date added reads back as written: the track's date, or today's
      when it had none. */
  lemma DateAddedReadBack(el: Attrs, at: ATrack, f: Field, tid: int, showReal: real -> string,
                          url: string -> string, today: Dates.Date)
    requires f == DateAdded
    requires at.dateAdded.Some? ==> Dates.IsValid(at.dateAdded.value)
    requires Dates.IsValid(today)
    requires Written(el, at, f, tid, showReal, url, today)
    ensures ToDate(GetTagAttr(FieldName(f), el)) ==
      Ok(Some(if at.dateAdded.Some? then at.dateAdded.value else today))
  {
    WrittenTag(el, at, f, tid, showReal, url, today);
    var d := if at.dateAdded.Some? then at.dateAdded.value else today;
    WritesDateAdded(at, f, tid, showReal, url, today);
    Dates.StrptimeRoundTrip(d, '-');
  }

  /** The colour reads back as the track's colour when it is one of the
      eight Rekordbox colours of a Rekordbox track, and as Lemon otherwise. */
  lemma ColorReadBack(el: Attrs, at: ATrack, f: Field, tid: int, showReal: real -> string,
                      url: string -> string, today: Dates.Date)
    requires f == Color
    requires at.dateAdded.Some? ==> Dates.IsValid(at.dateAdded.value)
    requires Dates.IsValid(today)
    requires at.color.Some? ==> IsRgb(at.color.value)
    requires Written(el, at, f, tid, showReal, url, today)
    ensures GetColor(el) == Ok(Some(
      if at.dataSource.software == REKORDBOX && ColorHex(at.color.value) in RB_COLORS
      then at.color.value else (255, 255, 0)))
  {
    WrittenTag(el, at, f, tid, showReal, url, today);
    var c := RbAttrColor(at.color, at.dataSource.software);
    WritesColor(at, f, tid, showReal, url, today);
    ColorsNotEmpty(c.value);
    ColorName(f);
    RbAttrColorReadBack(at.color, at.dataSource.software, el);
  }

  lemma ColorsNotEmpty(v: string)
    requires v in RB_COLORS
    ensures v != ""
  {
  }

  lemma ColorName(f: Field)
    requires f == Color
    ensures FieldName(f) == "color"
  {
  }

  /** The key reads back as what the classic-key table makes of the written
      abbreviation: a classic name that abbreviates to it, or the text
      itself when it is no abbreviation. */
  lemma TonalityReadBack(el: Attrs, at: ATrack, f: Field, tid: int, showReal: real -> string,
                         url: string -> string, today: Dates.Date)
    requires f == Tonality
    requires at.dateAdded.Some? ==> Dates.IsValid(at.dateAdded.value)
    requires Dates.IsValid(today)
    requires Written(el, at, f, tid, showReal, url, today)
    requires at.tonality.Some? && at.tonality.value != ""
    ensures GetTonality(el) == ClassicKey(RbAttrTonality(at.tonality))
  {
    WrittenTag(el, at, f, tid, showReal, url, today);
    var t := RbAttrTonality(at.tonality);
    WritesTonality(at, f, tid, showReal, url, today, t);
    TonalityName(f);
    TonalityNotEmpty(at.tonality.value, t);
    assert GetTagAttr("tonality", el) == t;
  }

  /** rb_attr_tonality never writes an empty key for a non-empty one. */
  lemma TonalityNotEmpty(k: string, t: Option<string>)
    requires k != "" && t == RbAttrTonality(Some(k))
    ensures t.Some? && t.value != ""
  {
    var d := CLASSIC2ABBREV_KEY_MAP;
    RbAttrTonalityOf(k);
    if Get(d, k).Ok? {
      var a := Get(d, k).value;
      var i :| 0 <= i < |d| && d[i] == (k, a);
      AbbreviationsNotEmpty(d, i);
    }
  }

  lemma TonalityName(f: Field)
    requires f == Tonality
    ensures FieldName(f) == "tonality"
  {
  }

  // Each of the following states the text rb_attr writes for one field.

  lemma WritesStr(at: ATrack, f: Field, tid: int, showReal: real -> string, url: string -> string, today: Dates.Date)
    requires at.dateAdded.Some? ==> Dates.IsValid(at.dateAdded.value)
    requires Dates.IsValid(today)
    requires IsStrField(f)
    ensures AttrValue(at, f, tid, showReal, url, today) == Ok(Some(OrDefault(StrValue(at, f), "")))
  {
  }

  lemma WritesInt(at: ATrack, f: Field, tid: int, showReal: real -> string, url: string -> string, today: Dates.Date)
    requires at.dateAdded.Some? ==> Dates.IsValid(at.dateAdded.value)
    requires Dates.IsValid(today)
    requires IsIntField(f)
    ensures AttrValue(at, f, tid, showReal, url, today) == Ok(Some(if IntValue(at, f).Some? then Decimal.ShowInt(IntValue(at, f).value) else "0"))
  {
  }

  lemma WritesFloat(at: ATrack, f: Field, tid: int, showReal: real -> string, url: string -> string, today: Dates.Date)
    requires at.dateAdded.Some? ==> Dates.IsValid(at.dateAdded.value)
    requires Dates.IsValid(today)
    requires IsFloatField(f)
    ensures AttrValue(at, f, tid, showReal, url, today) == Ok(Some(if FloatValue(at, f).Some? then showReal(FloatValue(at, f).value) else "0"))
  {
  }

  lemma WritesRating(at: ATrack, f: Field, tid: int, showReal: real -> string, url: string -> string, today: Dates.Date)
    requires at.dateAdded.Some? ==> Dates.IsValid(at.dateAdded.value)
    requires Dates.IsValid(today)
    requires f == Rating
    ensures AttrValue(at, f, tid, showReal, url, today) == Ok(Some(RbAttrRatingAsWritten(at.rating)))
  {
  }

  lemma WritesBitRate(at: ATrack, f: Field, tid: int, showReal: real -> string, url: string -> string, today: Dates.Date)
    requires at.dateAdded.Some? ==> Dates.IsValid(at.dateAdded.value)
    requires Dates.IsValid(today)
    requires f == BitRate
    ensures AttrValue(at, f, tid, showReal, url, today) == Ok(Some(if at.bitRate.Some? then Decimal.ShowInt(TruncDiv1000(at.bitRate.value)) else "0"))
  {
  }

  lemma WritesReleaseDate(at: ATrack, f: Field, tid: int, showReal: real -> string, url: string -> string, today: Dates.Date)
    requires at.dateAdded.Some? ==> Dates.IsValid(at.dateAdded.value)
    requires Dates.IsValid(today)
    requires f == ReleaseDate
    ensures AttrValue(at, f, tid, showReal, url, today) == Ok(Some(if at.releaseDate.Some? then Decimal.ShowInt(at.releaseDate.value.year) else "0"))
  {
  }

  lemma WritesDateAdded(at: ATrack, f: Field, tid: int, showReal: real -> string, url: string -> string, today: Dates.Date)
    requires at.dateAdded.Some? ==> Dates.IsValid(at.dateAdded.value)
    requires Dates.IsValid(today)
    requires f == DateAdded
    ensures AttrValue(at, f, tid, showReal, url, today) == Ok(Some(Dates.Format(if at.dateAdded.Some? then at.dateAdded.value else today, '-')))
  {
  }

  lemma WritesColor(at: ATrack, f: Field, tid: int, showReal: real -> string, url: string -> string, today: Dates.Date)
    requires at.dateAdded.Some? ==> Dates.IsValid(at.dateAdded.value)
    requires Dates.IsValid(today)
    requires f == Color
    ensures AttrValue(at, f, tid, showReal, url, today) == (var c := RbAttrColor(at.color, at.dataSource.software); if c.Ok? then Ok(Some(c.value)) else Err(c.error))
  {
  }

  lemma WritesTonality(at: ATrack, f: Field, tid: int, showReal: real -> string, url: string -> string, today: Dates.Date,
                       t: Option<string>)
    requires at.dateAdded.Some? ==> Dates.IsValid(at.dateAdded.value)
    requires Dates.IsValid(today)
    requires f == Tonality && t == RbAttrTonality(at.tonality)
    ensures AttrValue(at, f, tid, showReal, url, today) == Ok(t)
  {
  }

  /** No abbreviation is empty. */
  lemma AbbreviationsNotEmpty(d: Dict<string, string>, i: int)
    requires d == CLASSIC2ABBREV_KEY_MAP && 0 <= i < |d|
    ensures d[i].1 != ""
  {
  }
}
