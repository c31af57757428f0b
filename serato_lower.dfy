// Lowering a canonical track to the Serato tag entries: the Analysis
// version, the Autotags values, the Markers2 entries (track colour, cues and
// loops, BPM lock), the fifteen slots of the legacy Markers_ tag and the
// BeatGrid markers; the tag-name split and the overwrite decision. The
// colour encoder of the Serato utilities is a parameter.

module SeratoLower {
  import opened Wrappers
  import opened Bytes
  import opened Canonical
  import opened Strings
  import Decimal
  import Normalize
  import Analysis
  import Autotags
  import Markers2
  import Markers
  import Beatgrid
  import SeratoTypes
  import SeratoRead

  // ----- Analysis -----

  /** to_serato_analysis: version 2.1 for MP3, 0.1.0 for FLAC and M4A. */
  function ToSeratoAnalysis(f: AFormat): (an: Analysis.Analysis)
  {
    if f == MP3 then Analysis.Analysis([2, 1]) else Analysis.Analysis([0, 1, 0])
  }

  /** dump_serato_analysis: bytes(version); a value outside 0..255 is a
      ValueError. */
  function DumpSeratoAnalysis(an: Analysis.Analysis): (r: Result<seq<byte>>)
    ensures r.Ok? <==> forall i :: 0 <= i < |an.version| ==> 0 <= an.version[i] < 256
    ensures r.Ok? ==> Analysis.Ints(r.value) == an.version
    ensures r.Err? ==> r.error == ValueError
  {
    var v := an.version;
    if forall i :: 0 <= i < |v| ==> 0 <= v[i] < 256 then
      var b := seq(|v|, i requires 0 <= i < |v| => v[i] as bv8);
      assert forall i :: 0 <= i < |v| ==> b[i] as int == v[i] by {
        forall i | 0 <= i < |v| ensures b[i] as int == v[i] {
          ByteValue(v[i]);
        }
      }
      Ok(b)
    else Err(ValueError)
  }

  /** The Analysis tag written for a track reads back as version 2.1 for
      MP3 and 0.1 for FLAC and M4A (the reader drops the trailing 0). */
  lemma AnalysisReadBack(f: AFormat)
    ensures DumpSeratoAnalysis(ToSeratoAnalysis(f)).Ok?
    ensures Analysis.Parse(DumpSeratoAnalysis(ToSeratoAnalysis(f)).value)
            == Ok([Analysis.Analysis(if f == MP3 then [2, 1] else [0, 1])])
  {
    var b := DumpSeratoAnalysis(ToSeratoAnalysis(f)).value;
    Analysis.ParseCases(b);
    assert Analysis.Ints(b) == ToSeratoAnalysis(f).version;
    if f != MP3 {
      assert Analysis.Ints(b[..2]) == [0, 1];
    } else {
      assert b[..2] == b;
    }
  }

  // ----- Autotags -----

  /** to_serato_autotags: the average BPM and the loudness, None when either
      is missing. */
  function ToSeratoAutotags(at: ATrack): (r: Option<Autotags.AutoTags>)
    ensures r.Some? <==> at.averageBpm.Some? && at.loudness.Some?
  {
    if at.averageBpm.None? || at.loudness.None? then None
    else Some(Autotags.AutoTags(at.averageBpm.value, at.loudness.value.autogain, at.loudness.value.gainDb))
  }

  /** The Autotags tag written for a track reads back as its BPM to two
      decimals and its gains to three. */
  lemma AutotagsReadBack(at: ATrack)
    requires at.averageBpm.Some? && at.loudness.Some?
    ensures var a := ToSeratoAutotags(at).value;
      Autotags.Parse(Autotags.Dump(a.bpm, a.autogain, a.gainDb))
      == Ok([Decimal.Rounded(at.averageBpm.value, 2), Decimal.Rounded(at.loudness.value.autogain, 3),
             Decimal.Rounded(at.loudness.value.gainDb, 3)])
  {
    var a := ToSeratoAutotags(at).value;
    Autotags.ParseDump(a.bpm, a.autogain, a.gainDb);
  }

  // ----- Markers2 -----

  /** What the to_serato converters accept: a marker, the track colour
      tuple or the BPM-lock flag. */
  datatype Lowerable = AsMarker(marker: AMarker) | AsColor(rgb: Rgb) | AsLock(flag: bool)

  /** The colour Serato gives a track without one. */
  const DEFAULT_TRACK_COLOR: Rgb := (255, 255, 255)

  function TrackColor(at: ATrack): (c: Rgb)
    ensures at.color.Some? ==> c == at.color.value
    ensures at.color.None? ==> c == DEFAULT_TRACK_COLOR
  {
    if at.color.Some? then at.color.value else DEFAULT_TRACK_COLOR
  }

  /** The packed colour of a marker; BLUE when it has none. */
  function CueColor(pack: Rgb -> seq<byte>, c: Option<AMarkerColor>): seq<byte>
  {
    pack(RgbOf(if c.Some? then c.value else BLUE))
  }

  /** round(s_to_ms(x)): a time in seconds to whole milliseconds, halves
      to even. */
  function Ms(x: real): (n: int)
    ensures Decimal.Abs(n as real - x * 1000.0) <= 0.5
  {
    Decimal.RoundHalfEven(Normalize.SToMs(x))
  }

  /** A time that is a whole number of milliseconds. */
  predicate WholeMs(x: real)
  {
    Normalize.SToMs(x) == (Normalize.SToMs(x).Floor) as real
  }

  /** A time of whole milliseconds survives the conversion to milliseconds
      and back. */
  lemma MsExact(x: real)
    requires WholeMs(x)
    ensures Normalize.MsToS(Ms(x) as real) == x
  {
    Decimal.RoundWhole(Normalize.SToMs(x).Floor);
  }

  /** to_markers_v2's to_serato on one value: a cue (CUE or CUE_LOAD) or a
      loop becomes an entry with its times in milliseconds; a fade is a
      ValueError, a loop without end a TypeError (None * 1000). */
  function ToSeratoV2(pack: Rgb -> seq<byte>, v: Lowerable): (r: Result<Markers2.Entry>)
    ensures r.Ok? <==> !v.AsMarker? || v.marker.kind in {CUE, CUE_LOAD} || (v.marker.kind == LOOP && v.marker.end.Some?)
    ensures r.Err? ==> r.error == (if v.marker.kind == LOOP then TypeError else ValueError)
    ensures r.Ok? && v.AsMarker? ==> SeratoRead.IsCueOrLoop(r.value)
    ensures r.Ok? && v.AsColor? ==> r.value.ColorEntry?
    ensures r.Ok? && v.AsLock? ==> r.value == Markers2.BpmLockEntry(v.flag)
  {
    match v
    case AsMarker(m) =>
      (match m.kind
       case CUE => Ok(Markers2.CueEntry(NUL, m.index, Ms(m.start), NUL, CueColor(pack, m.color), [NUL, NUL], m.name))
       case CUE_LOAD => Ok(Markers2.CueEntry(NUL, m.index, Ms(m.start), NUL, CueColor(pack, m.color), [NUL, NUL], m.name))
       case LOOP =>
         if m.end.None? then Err(TypeError)
         else Ok(Markers2.LoopEntry(NUL, m.index, Ms(m.start), Ms(m.end.value), [0xFF, 0xFF, 0xFF, 0xFF], NUL,
                                    CueColor(pack, m.color), NUL, m.locked, m.name))
       case _ => Err(ValueError))
    case AsColor(c) => Ok(Markers2.ColorEntry(NUL, pack(c)))
    case AsLock(b) => Ok(Markers2.BpmLockEntry(b))
  }

  /** list(map(to_serato, vs)): every value converted, or the first error. */
  function MapV2(pack: Rgb -> seq<byte>, vs: seq<Lowerable>): (r: Result<seq<Markers2.Entry>>)
    ensures r.Ok? <==> forall i :: 0 <= i < |vs| ==> ToSeratoV2(pack, vs[i]).Ok?
    ensures r.Ok? ==> |r.value| == |vs| && forall i :: 0 <= i < |vs| ==> ToSeratoV2(pack, vs[i]) == Ok(r.value[i])
  {
    if vs == [] then Ok([])
    else
      var e :- ToSeratoV2(pack, vs[0]);
      var rest := MapV2(pack, vs[1..]);
      assert forall i :: 1 <= i < |vs| ==> vs[i] == vs[1..][i - 1];
      Prepend([e], rest)
  }

  /** The markers as values to convert. */
  function MarkerItems(ms: seq<AMarker>): (vs: seq<Lowerable>)
    ensures |vs| == |ms| && forall i :: 0 <= i < |ms| ==> vs[i] == AsMarker(ms[i])
  {
    seq(|ms|, i requires 0 <= i < |ms| => AsMarker(ms[i]))
  }

  /** The list to_serato_markers_v2 converts: the track colour, the
      markers, the BPM lock. */
  function ItemsV2(at: ATrack): seq<Lowerable>
  {
    [AsColor(TrackColor(at))] + MarkerItems(at.markers) + [AsLock(at.locked)]
  }

  /** A marker to_serato_markers_v2 accepts: a cue, or a loop with an end. */
  predicate LowerableV2(m: AMarker)
  {
    m.kind in {CUE, CUE_LOAD} || (m.kind == LOOP && m.end.Some?)
  }

  /** to_serato_markers_v2: the colour entry, one entry per marker in order,
      the BPM-lock entry. It fails exactly when a marker is a fade or a loop
      without end. */
  function ToSeratoMarkersV2(pack: Rgb -> seq<byte>, at: ATrack): (r: Result<seq<Markers2.Entry>>)
    ensures r.Ok? <==> forall i :: 0 <= i < |at.markers| ==> LowerableV2(at.markers[i])
    ensures r.Ok? ==> (&& |r.value| == |at.markers| + 2
                       && r.value[0] == Markers2.ColorEntry(NUL, pack(TrackColor(at)))
                       && r.value[|r.value| - 1] == Markers2.BpmLockEntry(at.locked)
                       && forall i :: 0 <= i < |at.markers| ==> ToSeratoV2(pack, AsMarker(at.markers[i])) == Ok(r.value[i + 1]))
  {
    var vs := ItemsV2(at);
    assert forall i :: 0 <= i < |at.markers| ==> vs[i + 1] == AsMarker(at.markers[i]);
    assert vs[0] == AsColor(TrackColor(at)) && vs[|vs| - 1] == AsLock(at.locked);
    assert (forall i :: 0 <= i < |vs| ==> ToSeratoV2(pack, vs[i]).Ok?)
       <==> (forall i :: 0 <= i < |at.markers| ==> LowerableV2(at.markers[i])) by {
      if forall i :: 0 <= i < |at.markers| ==> LowerableV2(at.markers[i]) {
        forall i | 0 <= i < |vs| ensures ToSeratoV2(pack, vs[i]).Ok? {
          if 0 < i < |vs| - 1 {
            assert vs[i] == AsMarker(at.markers[i - 1]);
          }
        }
      }
      if forall i :: 0 <= i < |vs| ==> ToSeratoV2(pack, vs[i]).Ok? {
        forall i | 0 <= i < |at.markers| ensures LowerableV2(at.markers[i]) {
          assert ToSeratoV2(pack, vs[i + 1]).Ok?;
        }
      }
    }
    MapV2(pack, vs)
  }

  /** The marker get_markers reads back from the entry a marker was lowered
      to: times rounded to whole milliseconds, the colour after packing,
      decoding and quantising, CUE_LOAD read as CUE, and a cue never locked. */
  function ReadBack(pack: Rgb -> seq<byte>, parse: seq<byte> -> Rgb, dist: (Rgb, Rgb) -> real, m: AMarker): AMarker
    requires LowerableV2(m)
  {
    AMarker(m.name, Some(Normalize.Closest(dist, parse(CueColor(pack, m.color)))),
            Normalize.MsToS(Ms(m.start) as real),
            if m.kind == LOOP then Some(Normalize.MsToS(Ms(m.end.value) as real)) else None,
            if m.kind == LOOP then LOOP else CUE, m.index, m.kind == LOOP && m.locked)
  }

  lemma MarkerReadBack(pack: Rgb -> seq<byte>, parse: seq<byte> -> Rgb, dist: (Rgb, Rgb) -> real, m: AMarker)
    requires LowerableV2(m)
    ensures SeratoRead.MarkerOf(parse, dist, ToSeratoV2(pack, AsMarker(m)).value) == ReadBack(pack, parse, dist, m)
  {
  }

  /** get_markers of a list of cues and loops lifts each in turn. */
  lemma {:induction false} GetMarkersAll(parse: seq<byte> -> Rgb, dist: (Rgb, Rgb) -> real, es: seq<Markers2.Entry>)
    requires forall i :: 0 <= i < |es| ==> SeratoRead.IsCueOrLoop(es[i])
    ensures |SeratoRead.GetMarkers(parse, dist, es)| == |es|
    ensures forall i :: 0 <= i < |es| ==> SeratoRead.GetMarkers(parse, dist, es)[i] == SeratoRead.MarkerOf(parse, dist, es[i])
  {
    if es != [] {
      GetMarkersAll(parse, dist, es[1..]);
      var rest := SeratoRead.GetMarkers(parse, dist, es[1..]);
      assert SeratoRead.GetMarkers(parse, dist, es) == [SeratoRead.MarkerOf(parse, dist, es[0])] + rest;
    }
  }

  /** get_markers skips a leading entry that is neither cue nor loop. */
  lemma GetMarkersSkip(parse: seq<byte> -> Rgb, dist: (Rgb, Rgb) -> real, e: Markers2.Entry, es: seq<Markers2.Entry>)
    requires !SeratoRead.IsCueOrLoop(e)
    ensures SeratoRead.GetMarkers(parse, dist, [e] + es) == SeratoRead.GetMarkers(parse, dist, es)
  {
    assert ([e] + es)[1..] == es;
  }

  /** get_markers ignores a trailing entry that is neither cue nor loop. */
  lemma {:induction false} GetMarkersDropLast(parse: seq<byte> -> Rgb, dist: (Rgb, Rgb) -> real, es: seq<Markers2.Entry>, e: Markers2.Entry)
    requires !SeratoRead.IsCueOrLoop(e)
    ensures SeratoRead.GetMarkers(parse, dist, es + [e]) == SeratoRead.GetMarkers(parse, dist, es)
  {
    if es == [] {
      assert ([] + [e])[1..] == [];
    } else {
      assert (es + [e])[1..] == es[1..] + [e];
      GetMarkersDropLast(parse, dist, es[1..], e);
    }
  }

  /** get_markers of the lowered entries sees only the entries between the
      colour and the lock, all of them cues or loops. */
  lemma MarkersV2Middle(pack: Rgb -> seq<byte>, parse: seq<byte> -> Rgb, dist: (Rgb, Rgb) -> real, at: ATrack)
    requires ToSeratoMarkersV2(pack, at).Ok?
    ensures var es := ToSeratoMarkersV2(pack, at).value;
      && (forall i :: 1 <= i < |es| - 1 ==> SeratoRead.IsCueOrLoop(es[i]))
      && SeratoRead.GetMarkers(parse, dist, es) == SeratoRead.GetMarkers(parse, dist, es[1..|es| - 1])
  {
    var es := ToSeratoMarkersV2(pack, at).value;
    var mid := es[1..|es| - 1];
    assert es == [es[0]] + (mid + [es[|es| - 1]]);
    forall i | 1 <= i < |es| - 1 ensures SeratoRead.IsCueOrLoop(es[i]) {
      assert ToSeratoV2(pack, AsMarker(at.markers[i - 1])) == Ok(es[i]);
    }
    GetMarkersSkip(parse, dist, es[0], mid + [es[|es| - 1]]);
    GetMarkersDropLast(parse, dist, mid, es[|es| - 1]);
  }

  /** Reading the Markers2 entries a track was lowered to gives back its
      markers, each as ReadBack describes. */
  lemma MarkersV2ReadBack(pack: Rgb -> seq<byte>, parse: seq<byte> -> Rgb, dist: (Rgb, Rgb) -> real, at: ATrack)
    requires ToSeratoMarkersV2(pack, at).Ok?
    ensures var ms := SeratoRead.GetMarkers(parse, dist, ToSeratoMarkersV2(pack, at).value);
      |ms| == |at.markers| &&
      forall i :: 0 <= i < |ms| ==> ms[i] == ReadBack(pack, parse, dist, at.markers[i])
  {
    var es := ToSeratoMarkersV2(pack, at).value;
    var mid := es[1..|es| - 1];
    MarkersV2Middle(pack, parse, dist, at);
    assert forall i :: 0 <= i < |mid| ==> mid[i] == es[i + 1];
    GetMarkersAll(parse, dist, mid);
    var ms := SeratoRead.GetMarkers(parse, dist, mid);
    forall i | 0 <= i < |mid| ensures ms[i] == ReadBack(pack, parse, dist, at.markers[i]) {
      assert ToSeratoV2(pack, AsMarker(at.markers[i])) == Ok(mid[i]);
      MarkerReadBack(pack, parse, dist, at.markers[i]);
    }
  }

  /** A colour encoder that the decoder inverts on the palette. */
  predicate PaletteInverse(pack: Rgb -> seq<byte>, parse: seq<byte> -> Rgb)
  {
    forall c: AMarkerColor :: parse(pack(RgbOf(c))) == RgbOf(c)
  }

  /** A marker that survives the trip unchanged: a cue without end that is
      not locked, or a loop with an end; times of whole milliseconds; a
      palette colour. */
  predicate Exact(m: AMarker)
  {
    && m.color.Some? && WholeMs(m.start)
    && (m.kind == CUE ==> m.end.None? && !m.locked)
    && (m.kind == LOOP ==> m.end.Some? && WholeMs(m.end.value))
    && m.kind in {CUE, LOOP}
  }

  /** Lowering then reading gives the markers back unchanged when the colour
      codec round-trips, the distance separates the palette and every marker
      is exact. */
  lemma MarkersV2RoundTrip(pack: Rgb -> seq<byte>, parse: seq<byte> -> Rgb, dist: (Rgb, Rgb) -> real, at: ATrack)
    requires PaletteInverse(pack, parse) && Normalize.SeparatesPalette(dist)
    requires forall i :: 0 <= i < |at.markers| ==> Exact(at.markers[i])
    ensures ToSeratoMarkersV2(pack, at).Ok?
    ensures SeratoRead.GetMarkers(parse, dist, ToSeratoMarkersV2(pack, at).value) == at.markers
  {
    assert forall i :: 0 <= i < |at.markers| ==> LowerableV2(at.markers[i]);
    MarkersV2ReadBack(pack, parse, dist, at);
    var ms := SeratoRead.GetMarkers(parse, dist, ToSeratoMarkersV2(pack, at).value);
    forall i | 0 <= i < |ms| ensures ms[i] == at.markers[i] {
      var m := at.markers[i];
      Normalize.ClosestOfPalette(dist, m.color.value);
      MsExact(m.start);
      if m.kind == LOOP {
        MsExact(m.end.value);
      }
    }
  }

  /** The BPM lock read back from the lowered entries is the track's. */
  lemma LockedReadBack(pack: Rgb -> seq<byte>, at: ATrack)
    requires ToSeratoMarkersV2(pack, at).Ok?
    ensures SeratoRead.Locked(ToSeratoMarkersV2(pack, at).value) == at.locked
  {
    var es := ToSeratoMarkersV2(pack, at).value;
    forall j | 0 <= j < |es| - 1 ensures !es[j].BpmLockEntry? {
      if j > 0 {
        assert ToSeratoV2(pack, AsMarker(at.markers[j - 1])) == Ok(es[j]);
      }
    }
    SeratoRead.LockedFirst(es, |es| - 1);
  }

  /** The track colour read back from the lowered entries is the track's,
      white when it had none, provided the decoder inverts the encoder on it. */
  lemma ColorReadBack(pack: Rgb -> seq<byte>, parse: seq<byte> -> Rgb, at: ATrack)
    requires ToSeratoMarkersV2(pack, at).Ok?
    requires parse(pack(TrackColor(at))) == TrackColor(at)
    ensures SeratoRead.Color(parse, ToSeratoMarkersV2(pack, at).value) == Some(TrackColor(at))
  {
    SeratoRead.ColorFirst(parse, ToSeratoMarkersV2(pack, at).value, 0);
  }

  // ----- Markers_ (legacy) -----

  /** markers_dummies: the six field5 bytes, 00 7F.. except 00 FF.. for M4A. */
  function MarkersDummies(f: AFormat): (d: seq<byte>)
    ensures |d| == 6 && d[0] == 0x00
  {
    if f != M4A then [0x00, 0x7F, 0x7F, 0x7F, 0x7F, 0x7F] else [0x00, 0xFF, 0xFF, 0xFF, 0xFF, 0xFF]
  }

  /** An unused slot of the given type: no positions, a black colour. */
  function EmptySlot(f: AFormat, kind: Markers.EntryType): (e: Markers.LegacyEntry)
    ensures e.Entry? && e.start.None? && Markers.WellFormed(e)
  {
    Markers.Entry(false, None, false, None, MarkersDummies(f), [0, 0, 0], kind, 0)
  }

  /** The table to_serato_markers starts from: five empty cue slots, nine
      empty loop slots, a black colour record. */
  function EmptySlots(f: AFormat): (out: seq<Markers.LegacyEntry>)
    ensures |out| == 15 && Markers.Table(out) && out[14] == Markers.Color([0, 0, 0])
    ensures forall k :: 0 <= k < 5 ==> out[k] == EmptySlot(f, Markers.INVALID)
    ensures forall k :: 5 <= k < 14 ==> out[k] == EmptySlot(f, Markers.LOOP)
  {
    seq(5, _ => EmptySlot(f, Markers.INVALID)) + seq(9, _ => EmptySlot(f, Markers.LOOP)) + [Markers.Color([0, 0, 0])]
  }

  /** Where to_serato sends a value: nowhere, or the slot index and entry. */
  datatype Placement = Skip | Place(slot: int, entry: Markers.LegacyEntry)

  /** The is_locked byte struct packs for a bool. */
  function LockByte(b: bool): (n: int)
    ensures n == 0 || n == 1
  {
    if b then 1 else 0
  }

  /** to_serato_markers's to_serato: a cue with index below 5 goes to slot
      index, a loop with index below 9 to slot 5 + index, other cues and
      loops nowhere, the track colour to slot 14; a loop without end is a
      TypeError, anything else a ValueError. */
  function LegacyPlacement(pack: Rgb -> seq<byte>, f: AFormat, v: Lowerable): (r: Result<Placement>)
    ensures r.Ok? <==> (v.AsMarker? && LowerableV2(v.marker)) || (v.AsMarker? && v.marker.kind == LOOP && v.marker.index >= 9) || v.AsColor?
    ensures r.Ok? && r.value.Place? && v.AsMarker? ==> r.value.entry.Entry? && r.value.entry.startSet && r.value.entry.start.Some?
    ensures r.Ok? && r.value.Place? && v.AsMarker? ==> r.value.entry.Entry? && r.value.slot < 14
    ensures v.AsColor? ==> r == Ok(Place(14, Markers.Color(pack(v.rgb))))
  {
    match v
    case AsMarker(m) =>
      if m.kind == CUE || m.kind == CUE_LOAD then
        if m.index < 5 then
          Ok(Place(m.index, Markers.Entry(true, Some(Ms(m.start)), false, None, MarkersDummies(f), CueColor(pack, m.color), Markers.CUE, LockByte(m.locked))))
        else Ok(Skip)
      else if m.kind == LOOP then
        if m.index < 9 then
          if m.end.None? then Err(TypeError)
          else Ok(Place(5 + m.index, Markers.Entry(true, Some(Ms(m.start)), true, Some(Ms(m.end.value)), MarkersDummies(f),
                                                   CueColor(pack, m.color), Markers.LOOP, LockByte(m.locked))))
        else Ok(Skip)
      else Err(ValueError)
    case AsColor(c) => Ok(Place(14, Markers.Color(pack(c))))
    case AsLock(_) => Err(ValueError)
  }

  /** The list slot a Python index names in a list of n: negative indices
      count from the end. */
  function Norm(slot: int, n: nat): int
  {
    if slot < 0 then n + slot else slot
  }

  /** out[index] = entry: an index outside -n..n-1 is an IndexError. */
  function Store(out: seq<Markers.LegacyEntry>, p: Placement): (r: Result<seq<Markers.LegacyEntry>>)
    ensures r.Ok? <==> p.Skip? || 0 <= Norm(p.slot, |out|) < |out|
    ensures r.Ok? ==> |r.value| == |out|
    ensures r.Ok? && p.Place? ==> r.value == out[Norm(p.slot, |out|) := p.entry]
    ensures r.Err? ==> r.error == IndexError
  {
    if p.Skip? then Ok(out)
    else
      var k := Norm(p.slot, |out|);
      if 0 <= k < |out| then Ok(out[k := p.entry]) else Err(IndexError)
  }

  /** A value to_serato accepts and whose slot exists in a table of n. */
  predicate Storable(pack: Rgb -> seq<byte>, f: AFormat, v: Lowerable, n: nat)
  {
    var p := LegacyPlacement(pack, f, v);
    p.Ok? && (p.value.Skip? || 0 <= Norm(p.value.slot, n) < n)
  }

  /** The table after the loop has placed the values vs in turn. */
  function Placed(pack: Rgb -> seq<byte>, f: AFormat, out: seq<Markers.LegacyEntry>, vs: seq<Lowerable>): (r: Result<seq<Markers.LegacyEntry>>)
    ensures r.Ok? <==> forall i :: 0 <= i < |vs| ==> Storable(pack, f, vs[i], |out|)
    ensures r.Ok? ==> |r.value| == |out|
  {
    if vs == [] then Ok(out)
    else
      var prev := Placed(pack, f, out, vs[..|vs| - 1]);
      assert forall i :: 0 <= i < |vs| - 1 ==> vs[..|vs| - 1][i] == vs[i];
      if prev.Err? then Err(prev.error)
      else
        var p :- LegacyPlacement(pack, f, vs[|vs| - 1]);
        Store(prev.value, p)
  }

  /** The values to_serato_markers places: the markers, then the track colour. */
  function LegacyItems(at: ATrack): (vs: seq<Lowerable>)
    ensures |vs| == |at.markers| + 1 && vs[|at.markers|] == AsColor(TrackColor(at))
    ensures forall i :: 0 <= i < |at.markers| ==> vs[i] == AsMarker(at.markers[i])
  {
    MarkerItems(at.markers) + [AsColor(TrackColor(at))]
  }

  /** to_serato_markers: nothing for FLAC, otherwise the empty table with
      every value placed. */
  function LoweredMarkers(pack: Rgb -> seq<byte>, at: ATrack): (r: Result<seq<Markers.LegacyEntry>>)
    ensures at.aformat == FLAC ==> r == Ok([])
    ensures at.aformat != FLAC && r.Ok? ==> |r.value| == 15
  {
    if at.aformat == FLAC then Ok([]) else Placed(pack, at.aformat, EmptySlots(at.aformat), LegacyItems(at))
  }

  /** to_serato_markers with its loop over the markers and the colour. */
  method ToSeratoMarkers(pack: Rgb -> seq<byte>, at: ATrack) returns (r: Result<seq<Markers.LegacyEntry>>)
    ensures r == LoweredMarkers(pack, at)
  {
    if at.aformat == FLAC {
      return Ok([]);
    }
    var vs := LegacyItems(at);
    var out := EmptySlots(at.aformat);
    for i := 0 to |vs|
      invariant Placed(pack, at.aformat, EmptySlots(at.aformat), vs[..i]) == Ok(out)
    {
      assert vs[..i + 1][..i] == vs[..i];
      var p := LegacyPlacement(pack, at.aformat, vs[i]);
      if p.Err? {
        PlacedFailed(pack, at.aformat, EmptySlots(at.aformat), vs, i + 1);
        return Err(p.error);
      }
      var next := Store(out, p.value);
      if next.Err? {
        PlacedFailed(pack, at.aformat, EmptySlots(at.aformat), vs, i + 1);
        return Err(next.error);
      }
      out := next.value;
    }
    assert vs[..|vs|] == vs;
    return Ok(out);
  }

  /** Once placing a value fails, placing more fails the same way. */
  lemma {:induction false} PlacedFailed(pack: Rgb -> seq<byte>, f: AFormat, out: seq<Markers.LegacyEntry>, vs: seq<Lowerable>, m: nat)
    requires m <= |vs| && Placed(pack, f, out, vs[..m]).Err?
    ensures Placed(pack, f, out, vs) == Placed(pack, f, out, vs[..m])
    decreases |vs| - m
  {
    if m < |vs| {
      var longer := vs[..m + 1];
      assert longer[..m] == vs[..m];
      PlacedFailed(pack, f, out, vs, m + 1);
    } else {
      assert vs[..m] == vs;
    }
  }

  /** The value v is written to slot k of a table of n. */
  predicate Lands(pack: Rgb -> seq<byte>, f: AFormat, v: Lowerable, k: int, n: nat)
  {
    var p := LegacyPlacement(pack, f, v);
    p.Ok? && p.value.Place? && Norm(p.value.slot, n) == k
  }

  /** The index of the last value written to slot k, if any. */
  function LastLanding(pack: Rgb -> seq<byte>, f: AFormat, vs: seq<Lowerable>, k: int, n: nat): (j: Option<nat>)
    ensures j.Some? ==> j.value < |vs| && Lands(pack, f, vs[j.value], k, n)
                        && forall i :: j.value < i < |vs| ==> !Lands(pack, f, vs[i], k, n)
    ensures j.None? ==> forall i :: 0 <= i < |vs| ==> !Lands(pack, f, vs[i], k, n)
  {
    if vs == [] then None
    else if Lands(pack, f, vs[|vs| - 1], k, n) then Some(|vs| - 1)
    else
      var j := LastLanding(pack, f, vs[..|vs| - 1], k, n);
      assert forall i :: 0 <= i < |vs| - 1 ==> vs[..|vs| - 1][i] == vs[i];
      j
  }

  /** Each slot of the table holds what the last value written to it put
      there, or its initial entry when no value was written to it. */
  lemma {:induction false} PlacedSlot(pack: Rgb -> seq<byte>, f: AFormat, out: seq<Markers.LegacyEntry>, vs: seq<Lowerable>, k: int)
    requires Placed(pack, f, out, vs).Ok? && 0 <= k < |out|
    ensures var j := LastLanding(pack, f, vs, k, |out|);
      Placed(pack, f, out, vs).value[k]
      == if j.None? then out[k] else LegacyPlacement(pack, f, vs[j.value]).value.entry
  {
    if vs != [] {
      var init := vs[..|vs| - 1];
      assert forall i :: 0 <= i < |vs| - 1 ==> init[i] == vs[i];
      PlacedSlot(pack, f, out, init, k);
    }
  }

  /** The lowered table is fourteen cue and loop slots followed by the
      track colour: the colour is placed last, and only it is a colour
      record. */
  lemma LegacyShape(pack: Rgb -> seq<byte>, at: ATrack)
    requires at.aformat != FLAC && LoweredMarkers(pack, at).Ok?
    ensures var out := LoweredMarkers(pack, at).value;
      && out[14] == Markers.Color(pack(TrackColor(at)))
      && forall k :: 0 <= k < 14 ==> out[k].Entry?
  {
    var f, vs := at.aformat, LegacyItems(at);
    var init := EmptySlots(f);
    PlacedSlot(pack, f, init, vs, 14);
    forall k | 0 <= k < 14 ensures LoweredMarkers(pack, at).value[k].Entry? {
      PlacedSlot(pack, f, init, vs, k);
      var j := LastLanding(pack, f, vs, k, 15);
      if j.Some? {
        assert j.value < |at.markers|;
      }
    }
  }

  /** A slot no value is written to keeps its empty entry. */
  lemma LegacyUntouched(pack: Rgb -> seq<byte>, at: ATrack, k: int)
    requires at.aformat != FLAC && LoweredMarkers(pack, at).Ok? && 0 <= k < 14
    requires forall i :: 0 <= i < |at.markers| ==> !Lands(pack, at.aformat, AsMarker(at.markers[i]), k, 15)
    ensures LoweredMarkers(pack, at).value[k] == EmptySlots(at.aformat)[k]
  {
    PlacedSlot(pack, at.aformat, EmptySlots(at.aformat), LegacyItems(at), k);
  }

  /** markers.dump of a list holding an entry that fails to dump fails. */
  lemma {:induction false} DumpAllFails(entries: seq<Markers.LegacyEntry>, k: nat, fixed: bool)
    requires k < |entries| && Markers.DumpEntry(entries[k], fixed).Err?
    ensures Markers.DumpAll(entries, fixed).Err?
  {
    if k > 0 {
      DumpAllFails(entries[1..], k - 1, fixed);
    }
  }

  /** As written, dumping the lowered table fails with struct.error as soon
      as one cue or loop slot is left empty: its unset positions are packed
      as an int where bytes are expected. */
  lemma LegacyDumpAsWrittenFails(pack: Rgb -> seq<byte>, at: ATrack, k: int)
    requires at.aformat != FLAC && LoweredMarkers(pack, at).Ok? && 0 <= k < 14
    requires forall i :: 0 <= i < |at.markers| ==> !Lands(pack, at.aformat, AsMarker(at.markers[i]), k, 15)
    ensures DumpSeratoMarkers(LoweredMarkers(pack, at).value, MP3, false, _ => Ok([])).Err?
  {
    var out := LoweredMarkers(pack, at).value;
    LegacyUntouched(pack, at, k);
    Markers.DumpUnsetFails(out[k]);
    DumpAllFails(out, k, false);
  }

  /** dump_serato_markers: markers.dump for MP3, the M4A dumper (a
      parameter) for M4A, nothing for FLAC. `fixed` selects the entry dump
      that writes unset positions as 7F 7F 7F 7F. */
  function DumpSeratoMarkers(entries: seq<Markers.LegacyEntry>, f: AFormat, fixed: bool,
                             dumpM4a: seq<Markers.LegacyEntry> -> Result<seq<byte>>): Result<seq<byte>>
  {
    match f
    case MP3 => Markers.Dump(entries, fixed)
    case M4A => dumpM4a(entries)
    case FLAC => Ok([])
  }

  /** A colour encoder that packs every colour into three bytes. */
  ghost predicate PacksThree(pack: Rgb -> seq<byte>)
  {
    forall c: Rgb :: |pack(c)| == 3
  }

  /** A marker whose times fit the 24 bits a legacy record keeps. */
  predicate LegacyFits(m: AMarker)
  {
    && 0 <= Ms(m.start) < 0x100_0000
    && (m.end.Some? ==> 0 <= Ms(m.end.value) < 0x100_0000)
  }

  /** Every entry the lowering writes is one the fixed dump writes and the
      parser reads back. */
  lemma PlacementWellFormed(pack: Rgb -> seq<byte>, f: AFormat, v: Lowerable)
    requires PacksThree(pack) && LegacyPlacement(pack, f, v).Ok? && LegacyPlacement(pack, f, v).value.Place?
    requires v.AsMarker? ==> LegacyFits(v.marker)
    ensures Markers.WellFormed(LegacyPlacement(pack, f, v).value.entry)
  {
  }

  /** With the fixed entry dump, the lowered table of an MP3 track parses
      back to itself when its colours pack into three bytes and its times
      fit the records. */
  lemma LegacyRoundTrip(pack: Rgb -> seq<byte>, at: ATrack)
    requires at.aformat == MP3 && LoweredMarkers(pack, at).Ok? && PacksThree(pack)
    requires forall i :: 0 <= i < |at.markers| ==> LegacyFits(at.markers[i])
    ensures var out := LoweredMarkers(pack, at).value;
      && DumpSeratoMarkers(out, MP3, true, _ => Ok([])).Ok?
      && Markers.Parse(DumpSeratoMarkers(out, MP3, true, _ => Ok([])).value) == Ok(out)
  {
    var f, vs := at.aformat, LegacyItems(at);
    var out := LoweredMarkers(pack, at).value;
    LegacyShape(pack, at);
    forall k | 0 <= k < 15 ensures Markers.WellFormed(out[k]) {
      PlacedSlot(pack, f, EmptySlots(f), vs, k);
      var j := LastLanding(pack, f, vs, k, 15);
      if j.Some? {
        PlacementWellFormed(pack, f, vs[j.value]);
      }
    }
    Markers.ParseDump(out);
  }

  // ----- BeatGrid -----

  /** beatgrid_footer: the footer byte observed most often per format. */
  function BeatgridFooter(f: AFormat): (it: Beatgrid.Item<real>)
    ensures it.Footer? && 0 <= it.unknown < 256
  {
    match f
    case MP3 => Beatgrid.Footer(116)
    case FLAC => Beatgrid.Footer(0)
    case M4A => Beatgrid.Footer(65)
  }

  /** The whole number of beats from one point to the next at the first
      point's tempo, rounded half to even. */
  function BeatsBetween(p: ABeatGridBPM, q: ABeatGridBPM): (n: int)
    ensures Decimal.Abs(n as real - p.bpm * (q.position - p.position) / 60.0) <= 0.5
  {
    Decimal.RoundHalfEven(p.bpm * (q.position - p.position) / 60.0)
  }

  /** The non-terminal marker written for point i of a grid. */
  function MarkerFor(bg: seq<ABeatGridBPM>, i: nat): Beatgrid.Item<real>
    requires i + 1 < |bg|
  {
    Beatgrid.NonTerminal(bg[i].position, BeatsBetween(bg[i], bg[i + 1]))
  }

  /** to_serato_beatgrid: a non-terminal marker for every point but the
      last, a terminal marker with the last point's tempo, the footer. */
  function LoweredGrid(bg: seq<ABeatGridBPM>, f: AFormat): (items: seq<Beatgrid.Item<real>>)
    ensures |items| == |bg| + 1 && items[|bg|] == BeatgridFooter(f)
    ensures forall i :: 0 <= i < |bg| - 1 ==> items[i] == MarkerFor(bg, i)
    ensures |bg| > 0 ==> items[|bg| - 1] == Beatgrid.Terminal(bg[|bg| - 1].position, bg[|bg| - 1].bpm)
  {
    if bg == [] then [BeatgridFooter(f)]
    else
      var n := |bg| - 1;
      seq(n, i requires 0 <= i < n => MarkerFor(bg, i)) + [Beatgrid.Terminal(bg[n].position, bg[n].bpm), BeatgridFooter(f)]
  }

  /** to_serato_beatgrid with its loop over consecutive points. */
  method ToSeratoBeatgrid(bg: seq<ABeatGridBPM>, f: AFormat) returns (out: seq<Beatgrid.Item<real>>)
    ensures out == LoweredGrid(bg, f)
  {
    out := [];
    var n := if bg == [] then 0 else |bg| - 1;
    for i := 0 to n
      invariant |out| == i && forall j :: 0 <= j < i ==> out[j] == MarkerFor(bg, j)
    {
      var beats := BeatsBetween(bg[i], bg[i + 1]);
      out := out + [Beatgrid.NonTerminal(bg[i].position, beats)];
    }
    if |bg| > 0 {
      var last := bg[|bg| - 1];
      out := out + [Beatgrid.Terminal(last.position, last.bpm)];
    }
    out := out + [BeatgridFooter(f)];
  }

  /** The lowered grid has the order the tag requires: the non-terminal
      markers, the terminal marker, the footer. */
  lemma LoweredGridOrdered(bg: seq<ABeatGridBPM>, f: AFormat)
    ensures Beatgrid.Ordered(LoweredGrid(bg, f))
  {
  }

  /** Consecutive points at distinct positions. */
  predicate Spread(bg: seq<ABeatGridBPM>)
  {
    forall i :: 0 <= i < |bg| - 1 ==> bg[i].position != bg[i + 1].position
  }

  /** The point from_serato reads back for point i: the same position, the
      tempo that fits the rounded number of beats into the interval. */
  function PointBack(bg: seq<ABeatGridBPM>, i: nat): (p: ABeatGridBPM)
    requires i + 1 < |bg| && Spread(bg)
    ensures p.position == bg[i].position && p.metro == (4, 4)
    ensures p.bpm * (bg[i + 1].position - bg[i].position) == (BeatsBetween(bg[i], bg[i + 1]) * 60) as real
  {
    var dt := bg[i + 1].position - bg[i].position;
    BeatGridPoint(bg[i].position, (BeatsBetween(bg[i], bg[i + 1]) * 60) as real / dt)
  }

  /** The points read back for the first m points. */
  function BackPoints(bg: seq<ABeatGridBPM>, m: nat): (ps: seq<ABeatGridBPM>)
    requires m < |bg| && Spread(bg)
    ensures |ps| == m && forall i :: 0 <= i < m ==> ps[i] == PointBack(bg, i)
  {
    seq(m, i requires 0 <= i < m => PointBack(bg, i))
  }

  lemma {:induction false} PointsBack(bg: seq<ABeatGridBPM>, f: AFormat, n: nat)
    requires 1 <= n <= |bg| && Spread(bg)
    ensures SeratoRead.Points(LoweredGrid(bg, f), n) == Ok(BackPoints(bg, n - 1))
  {
    var items := LoweredGrid(bg, f);
    if n > 1 {
      PointsBack(bg, f, n - 1);
      assert items[n - 2] == MarkerFor(bg, n - 2);
      assert items[n - 1].position == bg[n - 1].position;
      assert SeratoRead.Segment(items[n - 2], items[n - 1]) == Ok(PointBack(bg, n - 2));
      assert BackPoints(bg, n - 2) + [PointBack(bg, n - 2)] == BackPoints(bg, n - 1);
    } else {
      assert |BackPoints(bg, 0)| == 0;
    }
  }

  /** Reading the lowered grid back gives one point per point, at the same
      position: the last keeps its tempo, the others get the tempo of their
      rounded beat count. */
  lemma BeatgridReadBack(bg: seq<ABeatGridBPM>, f: AFormat)
    requires |bg| > 0 && Spread(bg)
    ensures var r := SeratoRead.FromSerato(LoweredGrid(bg, f));
      && r.Ok? && |r.value| == |bg|
      && (forall i :: 0 <= i < |bg| - 1 ==> r.value[i] == PointBack(bg, i))
      && r.value[|bg| - 1] == BeatGridPoint(bg[|bg| - 1].position, bg[|bg| - 1].bpm)
  {
    PointsBack(bg, f, |bg|);
  }

  /** A grid in 4/4 whose points lie a whole number of beats apart reads
      back unchanged. */
  lemma BeatgridRoundTrip(bg: seq<ABeatGridBPM>, f: AFormat)
    requires |bg| > 0 && Spread(bg)
    requires forall i :: 0 <= i < |bg| ==> bg[i].metro == (4, 4)
    requires forall i :: 0 <= i < |bg| - 1 ==> WholeBeats(bg[i], bg[i + 1])
    ensures SeratoRead.FromSerato(LoweredGrid(bg, f)) == Ok(bg)
  {
    BeatgridReadBack(bg, f);
    var r := SeratoRead.FromSerato(LoweredGrid(bg, f)).value;
    forall i | 0 <= i < |bg| ensures r[i] == bg[i] {
      if i < |bg| - 1 {
        ExactTempo(bg[i], bg[i + 1]);
        assert r[i] == PointBack(bg, i);
      } else {
        assert r[i] == BeatGridPoint(bg[i].position, bg[i].bpm);
      }
    }
    assert |r| == |bg|;
    assert r == bg;
  }

  /** The interval from p to q holds a whole number of beats at p's tempo. */
  predicate WholeBeats(p: ABeatGridBPM, q: ABeatGridBPM)
  {
    var x := p.bpm * (q.position - p.position) / 60.0;
    x == x.Floor as real
  }

  lemma ExactTempo(p: ABeatGridBPM, q: ABeatGridBPM)
    requires WholeBeats(p, q) && q.position != p.position
    ensures (BeatsBetween(p, q) * 60) as real / (q.position - p.position) == p.bpm
  {
    var x := p.bpm * (q.position - p.position) / 60.0;
    var dt := q.position - p.position;
    Decimal.RoundWhole(x.Floor);
    var k := BeatsBetween(p, q);
    assert k as real == x;
    assert (k * 60) as real == x * 60.0;
    assert x * 60.0 == p.bpm * dt;
    assert (p.bpm * dt) / dt == p.bpm;
  }

  // ----- tag names and overwriting -----

  /** split_tag_name: the one to three ':'-separated parts of a tag key,
      padded with empty strings; more parts are a ValueError. */
  function SplitTagName(tag: string): (r: Result<(string, string, string)>)
    ensures r.Ok? <==> Count(tag, ':') <= 2
    ensures r.Err? ==> r.error == ValueError
  {
    var parts := Split(tag, ':');
    SplitCount(tag, ':');
    if |parts| == 3 then Ok((parts[0], parts[1], parts[2]))
    else if |parts| == 2 then Ok((parts[0], parts[1], ""))
    else if |parts| == 1 then Ok((parts[0], "", ""))
    else Err(ValueError)
  }

  /** A key of three parts without ':' splits back into them. */
  lemma SplitTagNameThree(a: string, b: string, c: string)
    requires ':' !in a && ':' !in b && ':' !in c
    ensures SplitTagName(a + ":" + b + ":" + c) == Ok((a, b, c))
  {
    var parts := [a, b, c];
    SplitJoin(parts, ':');
    assert Join(parts, ':') == a + ":" + b + ":" + c by {
      assert Join(parts[1..], ':') == b + [':'] + Join(parts[2..], ':');
    }
  }

  /** A key of two parts without ':' splits into them and an empty third. */
  lemma SplitTagNameTwo(a: string, b: string)
    requires ':' !in a && ':' !in b
    ensures SplitTagName(a + ":" + b) == Ok((a, b, ""))
  {
    var parts := [a, b];
    SplitJoin(parts, ':');
    assert Join(parts, ':') == a + ":" + b by {
      assert Join(parts[1..], ':') == b;
    }
  }

  /** The MP3 key of every Serato tag stored as a GEOB frame splits into the
      frame id and the envelope marker text. */
  lemma GeobDescription(t: SeratoTypes.SeratoTag)
    requires t != SeratoTypes.RELVOL
    ensures SplitTagName(SeratoTypes.TagName(t, MP3)) == Ok(("GEOB", SeratoTypes.MarkerText(t), ""))
  {
    GeobName(t, SeratoTypes.MarkerText(t));
    SplitTagNameTwo("GEOB", SeratoTypes.MarkerText(t));
  }

  lemma GeobName(t: SeratoTypes.SeratoTag, m: string)
    requires t != SeratoTypes.RELVOL && m == SeratoTypes.MarkerText(t)
    ensures SeratoTypes.TagName(t, MP3) == "GEOB" + ":" + m
    ensures forall i :: 0 <= i < |m| ==> m[i] != ':'
  {
    match t
    case AUTOTAGS => GeobNameAutotags(m);
    case BEATGRID => GeobNameBeatgrid(m);
    case MARKERS => GeobNameMarkers(m);
    case MARKERS2 => GeobNameMarkers2(m);
    case OVERVIEW => GeobNameOverview(m);
    case ANALYSIS => GeobNameAnalysis(m);
  }

  lemma GeobNameAutotags(m: string)
    requires m == SeratoTypes.MarkerText(SeratoTypes.AUTOTAGS)
    ensures SeratoTypes.TagName(SeratoTypes.AUTOTAGS, MP3) == "GEOB" + ":" + m
    ensures forall i :: 0 <= i < |m| ==> m[i] != ':'
  {
  }

  lemma GeobNameBeatgrid(m: string)
    requires m == SeratoTypes.MarkerText(SeratoTypes.BEATGRID)
    ensures SeratoTypes.TagName(SeratoTypes.BEATGRID, MP3) == "GEOB" + ":" + m
    ensures forall i :: 0 <= i < |m| ==> m[i] != ':'
  {
  }

  lemma GeobNameMarkers(m: string)
    requires m == SeratoTypes.MarkerText(SeratoTypes.MARKERS)
    ensures SeratoTypes.TagName(SeratoTypes.MARKERS, MP3) == "GEOB" + ":" + m
    ensures forall i :: 0 <= i < |m| ==> m[i] != ':'
  {
  }

  lemma GeobNameMarkers2(m: string)
    requires m == SeratoTypes.MarkerText(SeratoTypes.MARKERS2)
    ensures SeratoTypes.TagName(SeratoTypes.MARKERS2, MP3) == "GEOB" + ":" + m
    ensures forall i :: 0 <= i < |m| ==> m[i] != ':'
  {
  }

  lemma GeobNameOverview(m: string)
    requires m == SeratoTypes.MarkerText(SeratoTypes.OVERVIEW)
    ensures SeratoTypes.TagName(SeratoTypes.OVERVIEW, MP3) == "GEOB" + ":" + m
    ensures forall i :: 0 <= i < |m| ==> m[i] != ':'
  {
  }

  lemma GeobNameAnalysis(m: string)
    requires m == SeratoTypes.MarkerText(SeratoTypes.ANALYSIS)
    ensures SeratoTypes.TagName(SeratoTypes.ANALYSIS, MP3) == "GEOB" + ":" + m
    ensures forall i :: 0 <= i < |m| ==> m[i] != ':'
  {
  }

  /** The freeform keys under which M4A files keep the Serato tags. */
  const FREEFORM: string := "----:com.serato.dj:"

  lemma FreeformSplit(name: string)
    requires ':' !in name
    ensures SplitTagName(FREEFORM + name) == Ok(("----", "com.serato.dj", name))
  {
    assert FREEFORM + name == "----" + ":" + "com.serato.dj" + ":" + name;
    SplitTagNameThree("----", "com.serato.dj", name);
  }

  /** The M4A key of every Serato tag is a "----:com.serato.dj:" key whose
      name has no ':'. */
  lemma FreeformKey(t: SeratoTypes.SeratoTag)
    ensures exists name :: ':' !in name && SplitTagName(SeratoTypes.TagName(t, M4A)) == Ok(("----", "com.serato.dj", name))
  {
    match t
    case AUTOTAGS => FreeformKeyOf(t, "autgain");
    case BEATGRID => FreeformKeyOf(t, "beatgrid");
    case MARKERS => FreeformKeyOf(t, "markers");
    case MARKERS2 => FreeformKeyOf(t, "markersv2");
    case OVERVIEW => FreeformKeyOf(t, "overview");
    case ANALYSIS => FreeformKeyOf(t, "analysisVersion");
    case RELVOL => FreeformKeyOf(t, "relvol");
  }

  lemma FreeformKeyOf(t: SeratoTypes.SeratoTag, name: string)
    requires ':' !in name && SeratoTypes.TagName(t, M4A) == FREEFORM + name
    ensures exists name :: ':' !in name && SplitTagName(SeratoTypes.TagName(t, M4A)) == Ok(("----", "com.serato.dj", name))
  {
    FreeformSplit(name);
  }

  /** What the writer does with a tag: skip it, stop writing the file's
      Serato tags, or write it. */
  datatype Action = Continue | Break | Process

  /** The answers ask_to_overwrite accepts: y, n, and Y or N for all files. */
  predicate IsAnswer(c: char)
  {
    c == 'y' || c == 'n' || c == 'Y' || c == 'N'
  }

  /** handle_existing_tag. A tag the file does not have is written; so is
      every tag once the answer was 'Y' (yes to all); once it was 'N' the
      writer breaks off. Otherwise the user's answer decides, and a 'Y' or
      'N' answer becomes the standing one. The interactive prompt is the
      parameter `answer`, an answer it accepted. */
  function HandleExistingTag(present: bool, overwrite: char, answer: char): (r: (Action, char))
    requires IsAnswer(answer)
    ensures r.0 == Process <==> !present || overwrite == 'Y' || (overwrite != 'N' && (answer == 'y' || answer == 'Y'))
    ensures r.0 == Break <==> present && overwrite == 'N'
    ensures r.1 == (if present && overwrite != 'Y' && overwrite != 'N' && (answer == 'Y' || answer == 'N') then answer else overwrite)
  {
    if present && overwrite != 'Y' then
      if overwrite == 'N' then (Break, overwrite)
      else
        var ow := if answer == 'Y' || answer == 'N' then answer else overwrite;
        if answer != 'y' && answer != 'Y' then (Continue, ow) else (Process, ow)
    else (Process, overwrite)
  }

  /** A "to all" answer stands: after it, every later tag is handled without
      asking, whatever would have been answered. */
  lemma StandingAnswer(present: bool, overwrite: char, answer: char, p2: bool, a2: char, a3: char)
    requires IsAnswer(answer) && IsAnswer(a2) && IsAnswer(a3) && present
    requires overwrite != 'Y' && overwrite != 'N' && (answer == 'Y' || answer == 'N')
    ensures var (_, ow) := HandleExistingTag(present, overwrite, answer);
      ow == answer && HandleExistingTag(p2, ow, a2) == HandleExistingTag(p2, ow, a3)
  {
  }
}
