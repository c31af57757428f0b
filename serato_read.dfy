// Lifting Serato tag contents into the canonical track model: the list and
// tag-text helpers, the M4A play count, the release date, the beat grid
// (tempo between consecutive markers) and the Markers2 cues, loops, BPM lock
// and track colour. The colour decoder of the Serato utilities and the
// perceptual distance are parameters.

module SeratoRead {
  import opened Wrappers
  import opened Bytes
  import opened Canonical
  import opened Strings
  import Decimal
  import Base64
  import Autotags
  import Normalize
  import Markers2
  import Beatgrid
  import Dates

  // ----- helpers -----

  /** head: the first element of the list, None when it is empty (a
      warning, not modelled, accompanies a list of several). */
  function Head<T>(xs: seq<T>): (r: Option<T>)
    ensures r.None? <==> xs == []
    ensures r.Some? ==> r.value == xs[0]
  {
    if xs == [] then None else Some(xs[0])
  }

  /** track_number: int() of the text before the first '/', None when the
      tag is absent or that text is not an integer. */
  function TrackNumber(s: Option<string>): (r: Option<int>)
  {
    if s.None? then None
    else
      var parts := Split(s.value, '/');
      var n := Decimal.ParseInt(parts[0]);
      if n.Ok? then Some(n.value) else None
  }

  /** A "number/total" tag and a bare number both give the number. */
  lemma TrackNumberOf(n: int, total: string)
    ensures TrackNumber(Some(Decimal.ShowInt(n) + "/" + total)) == Some(n)
    ensures TrackNumber(Some(Decimal.ShowInt(n))) == Some(n)
  {
    var t := Decimal.ShowInt(n);
    Decimal.ParseShowInt(n);
    assert '/' !in t by {
      if n < 0 {
        assert t == "-" + Decimal.Show(-n);
      }
    }
    IndexOfAfter(t, '/', total);
    assert (t + "/" + total)[..|t|] == t;
    assert IndexOf(t, '/') == |t|;
    assert t[..|t|] == t;
  }

  // ----- parse_m4a_play_count -----

  /** The padding the play count reader appends: 'B==' when the length is 1
      more than a multiple of 4, otherwise as many '=' as make it one. */
  function PlayCountPadding(n: nat): (p: seq<byte>)
    ensures (n + |p|) % 4 == 0
    ensures n % 4 == 0 ==> p == []
  {
    if n % 4 == 1 then [0x42, EQUALS, EQUALS]
    else if n % 4 == 2 then [EQUALS, EQUALS]
    else if n % 4 == 3 then [EQUALS]
    else []
  }

  /** parse_m4a_play_count: the leading base64 text, padded and decoded;
      the decimal number before the first NUL. A payload without NUL, a
      non-ASCII byte or text that is not an integer is a ValueError. */
  function ParseM4aPlayCount(data: seq<byte>): (r: Result<int>)
    ensures r.Err? ==> r.error == ValueError
  {
    var ds := Normalize.LeadingBase64(data);
    var decoded := Base64.Decode(ds + PlayCountPadding(|ds|));
    if decoded.Err? then Err(ValueError) else CountOf(decoded.value)
  }

  /** int(payload[:payload.index(b'\x00')]). */
  function CountOf(payload: seq<byte>): (r: Result<int>)
    ensures r.Err? ==> r.error == ValueError
  {
    var k := IndexOfFrom(payload, NUL, 0);
    if k == -1 then Err(ValueError)
    else
      var text := Autotags.AsciiDecode(payload[..k]);
      if text.Err? then Err(ValueError)
      else
        var n := Decimal.ParseInt(text.value);
        if n.Err? then Err(ValueError) else n
  }

  /** The count encoded as base64 of its decimal digits and a NUL, followed
      by anything that is not base64 text, reads back as the count. */
  lemma PlayCountRoundTrip(n: nat, rest: seq<byte>)
    requires rest == [] || !Normalize.IsBase64Char(rest[0])
    ensures ParseM4aPlayCount(Base64.Encode(Ascii(Decimal.Show(n)) + [NUL]) + rest) == Ok(n)
  {
    var x := CountPayload(n);
    ParseEncoded(x, rest);
  }

  /** The reader decodes the whole base64 text of a payload. */
  lemma ParseEncoded(x: seq<byte>, rest: seq<byte>)
    requires rest == [] || !Normalize.IsBase64Char(rest[0])
    ensures ParseM4aPlayCount(Base64.Encode(x) + rest) == CountOf(x)
  {
    var e := Base64.Encode(x);
    EncodedIsLeading(x, rest);
    EncodedNoPadding(e, x);
    assert e + [] == e;
    Base64.DecodeEncode(x);
  }

  lemma EncodedNoPadding(e: seq<byte>, x: seq<byte>)
    requires e == Base64.Encode(x)
    ensures PlayCountPadding(|e|) == []
  {
    var k := (|x| + 2) / 3;
    assert |e| == 4 * k;
  }

  /** Base64 text is all of the leading base64 part when something else
      follows it. */
  lemma EncodedIsLeading(x: seq<byte>, rest: seq<byte>)
    requires rest == [] || !Normalize.IsBase64Char(rest[0])
    ensures Normalize.LeadingBase64(Base64.Encode(x) + rest) == Base64.Encode(x)
  {
    Base64.EncodeAlphabet(x);
    Normalize.LeadingBase64Append(Base64.Encode(x), rest);
  }

  /** The decoded payload of a play count: its digits and a NUL, from which
      the reader takes the count. */
  lemma CountPayload(n: nat) returns (x: seq<byte>)
    ensures forall i :: 0 <= i < |Decimal.Show(n)| ==> Decimal.Show(n)[i] as int < 128
    ensures x == Ascii(Decimal.Show(n)) + [NUL]
    ensures IndexOfFrom(x, NUL, 0) == |Decimal.Show(n)|
    ensures CountOf(x) == Ok(n)
  {
    var digits := Decimal.Show(n);
    assert forall i :: 0 <= i < |digits| ==> digits[i] as int < 128 by {
      assert Decimal.AllDigits(digits);
    }
    var text := Ascii(digits);
    x := text + [NUL];
    forall i | 0 <= i < |text| ensures x[i] != NUL {
      assert Decimal.IsDigit(digits[i]);
      ByteValue(digits[i] as int);
    }
    assert x[|text|] == NUL;
    assert x[..|text|] == text;
    Autotags.AsciiDecodeEncode(digits);
    Decimal.ParseShowInt(n);
  }

  // ----- release_date -----

  /** release_date, given the release-date and year tag texts: a numeric
      release date or year is a year and gives January 1st; any other
      release date must be an ISO date; with neither tag the date is
      None. An unreadable date is a ValueError. */
  function ReleaseDate(releaseDate: Option<string>, year: Option<string>): (r: Result<Option<Date>>)
    ensures r.Err? ==> r.error == ValueError
  {
    if releaseDate.None? then
      if year.Some? && Normalize.IsNumeric(year.value) then
        var d :- Dates.FromIsoFormat(year.value + "-01-01");
        Ok(Some(d))
      else Ok(None)
    else if Normalize.IsNumeric(releaseDate.value) then
      var d :- Dates.FromIsoFormat(releaseDate.value + "-01-01");
      Ok(Some(d))
    else
      var d :- Dates.FromIsoFormat(releaseDate.value);
      Ok(Some(d))
  }

  /** A release date tag in ISO form is read as that date, whatever the year
      tag says. */
  lemma ReleaseDateIso(d: Date, year: Option<string>)
    requires Dates.IsValid(d)
    ensures ReleaseDate(Some(Dates.Format(d, '-')), year) == Ok(Some(d))
  {
    Dates.FromIsoFormatRoundTrip(d);
    assert !Normalize.IsNumeric(Dates.Format(d, '-')) by {
      assert !Decimal.IsDigit(Dates.Format(d, '-')[4]);
    }
  }

  /** A four-digit year, as the release date or as the year tag when the
      release date is absent, is read as January 1st of that year. */
  lemma ReleaseDateYear(y: int, other: Option<string>)
    requires 1000 <= y <= 9999
    ensures ReleaseDate(Some(Decimal.Show(y)), other) == Ok(Some(Canonical.Date(y, 1, 1)))
    ensures ReleaseDate(None, Some(Decimal.Show(y))) == Ok(Some(Canonical.Date(y, 1, 1)))
  {
    var s := Decimal.Show(y);
    Dates.ShowLength(y);
    Decimal.ValueShow(y);
    var t := s + "-01-01";
    assert t[..4] == s && t[5..7] == "01" && t[8..] == "01";
    assert Decimal.Value("01") == 1 by {
      assert "01"[..1] == "0";
    }
  }

  /** A numeric year of other than four digits cannot be read. */
  lemma ReleaseDateBadYear(s: string)
    requires Normalize.IsNumeric(s) && |s| != 4
    ensures ReleaseDate(Some(s), None).Err?
    ensures ReleaseDate(None, Some(s)).Err?
  {
  }

  // ----- beatgrid -----

  /** The tempo between two consecutive markers of the tag: the first must
      be a non-terminal marker (only it has a beat count) and the second must
      have a position; equal positions divide by zero. */
  function Segment(prev: Beatgrid.Item<real>, next: Beatgrid.Item<real>): (r: Result<ABeatGridBPM>)
    ensures r.Ok? <==> prev.NonTerminal? && !next.Footer? && next.position != prev.position
    ensures r.Ok? ==> r.value.position == prev.position && r.value.metro == (4, 4)
                      && r.value.bpm * (next.position - prev.position) == (prev.beatsTillNextMarker * 60) as real
    ensures r.Err? ==> r.error == (if prev.NonTerminal? && !next.Footer? then ZeroDivisionError else AttributeError)
  {
    if !prev.NonTerminal? || next.Footer? then Err(AttributeError)
    else
      var dt := next.position - prev.position;
      if dt == 0.0 then Err(ZeroDivisionError)
      else Ok(BeatGridPoint(prev.position, (prev.beatsTillNextMarker * 60) as real / dt))
  }

  /** The points the loop has built after handling the markers before
      index n - 1: one per consecutive pair bg[i - 1], bg[i] with i < n. */
  function Points(bg: seq<Beatgrid.Item<real>>, n: nat): (r: Result<seq<ABeatGridBPM>>)
    requires 1 <= n <= |bg|
    ensures r.Ok? ==> |r.value| == n - 1
  {
    if n == 1 then Ok([])
    else
      var ps :- Points(bg, n - 1);
      var p :- Segment(bg[n - 2], bg[n - 1]);
      Ok(ps + [p])
  }

  /** Once a pair fails, every longer prefix fails the same way. */
  lemma {:induction false} PointsFailed(bg: seq<Beatgrid.Item<real>>, m: nat, n: nat)
    requires 1 <= m <= n <= |bg| && Points(bg, m).Err?
    ensures Points(bg, n) == Points(bg, m)
    decreases n
  {
    if n > m {
      PointsFailed(bg, m, n - 1);
    }
  }

  /** The last point: the terminal marker before the footer, with its own
      tempo. */
  function TerminalPoint(it: Beatgrid.Item<real>): (r: Result<ABeatGridBPM>)
    ensures r.Ok? <==> it.Terminal?
    ensures r.Ok? ==> r.value == BeatGridPoint(it.position, it.bpm)
    ensures r.Err? ==> r.error == AttributeError
  {
    if it.Terminal? then Ok(BeatGridPoint(it.position, it.bpm)) else Err(AttributeError)
  }

  /** beatgrid.from_serato on the markers of the tag: nothing for fewer than
      two items, otherwise one point per marker. */
  function FromSerato(bg: seq<Beatgrid.Item<real>>): (r: Result<seq<ABeatGridBPM>>)
    ensures |bg| < 2 ==> r == Ok([])
    ensures |bg| >= 2 && r.Ok? ==> |r.value| == |bg| - 1
  {
    if |bg| < 2 then Ok([])
    else
      var ps :- Points(bg, |bg| - 1);
      var last :- TerminalPoint(bg[|bg| - 2]);
      Ok(ps + [last])
  }

  /** from_serato with its loop over consecutive markers. */
  method BeatgridFromSerato(bg: seq<Beatgrid.Item<real>>) returns (r: Result<seq<ABeatGridBPM>>)
    ensures r == FromSerato(bg)
  {
    if |bg| < 2 {
      return Ok([]);
    }
    var res: seq<ABeatGridBPM> := [];
    for i := 1 to |bg| - 1
      invariant Points(bg, i) == Ok(res)
    {
      var p := Segment(bg[i - 1], bg[i]);
      if p.Err? {
        PointsFailed(bg, i + 1, |bg| - 1);
        return Err(p.error);
      }
      res := res + [p.value];
    }
    var last := TerminalPoint(bg[|bg| - 2]);
    if last.Err? {
      return Err(last.error);
    }
    return Ok(res + [last.value]);
  }

  // ----- markers -----

  /** A Markers2 entry that get_markers keeps. */
  predicate IsCueOrLoop(e: Markers2.Entry)
  {
    e.CueEntry? || e.LoopEntry?
  }

  /** get_markers' from_serato on one cue or loop: times from milliseconds
      to seconds, the colour decoded and quantised to the palette. A cue
      is never locked and has no end. */
  function MarkerOf(parseColor: seq<byte> -> Rgb, dist: (Rgb, Rgb) -> real, e: Markers2.Entry): (m: AMarker)
    requires IsCueOrLoop(e)
    ensures m.color.Some? && m.name == e.name && m.index == e.index
    ensures e.CueEntry? ==> m.kind == CUE && m.end.None? && !m.locked && m.start * 1000.0 == e.position as real
    ensures e.LoopEntry? ==> m.kind == LOOP && m.end.Some? && m.locked == e.locked
                             && m.start * 1000.0 == e.startPosition as real
                             && m.end.value * 1000.0 == e.endPosition as real
  {
    match e
    case CueEntry(_, index, position, _, color, _, name) =>
      AMarker(name, Some(Normalize.Closest(dist, parseColor(color))), Normalize.MsToS(position as real), None, CUE, index, false)
    case LoopEntry(_, index, s, t, _, _, color, _, locked, name) =>
      AMarker(name, Some(Normalize.Closest(dist, parseColor(color))), Normalize.MsToS(s as real),
              Some(Normalize.MsToS(t as real)), LOOP, index, locked)
  }

  /** get_markers: the cues and loops of the tag, in tag order, each lifted
      by MarkerOf; all other entries are dropped. */
  function GetMarkers(parseColor: seq<byte> -> Rgb, dist: (Rgb, Rgb) -> real, entries: seq<Markers2.Entry>): (ms: seq<AMarker>)
    ensures |ms| <= |entries|
  {
    if entries == [] then []
    else
      var rest := GetMarkers(parseColor, dist, entries[1..]);
      if IsCueOrLoop(entries[0]) then [MarkerOf(parseColor, dist, entries[0])] + rest else rest
  }

  /** The entries get_markers keeps, in order. */
  function CuesAndLoops(entries: seq<Markers2.Entry>): (r: seq<Markers2.Entry>)
  {
    if entries == [] then []
    else (if IsCueOrLoop(entries[0]) then [entries[0]] else []) + CuesAndLoops(entries[1..])
  }

  /** get_markers lifts exactly the cue and loop entries, one marker each,
      in order. */
  lemma {:induction false} GetMarkersFilter(parseColor: seq<byte> -> Rgb, dist: (Rgb, Rgb) -> real, entries: seq<Markers2.Entry>)
    ensures var ks := CuesAndLoops(entries);
      |GetMarkers(parseColor, dist, entries)| == |ks| &&
      forall i :: 0 <= i < |ks| ==> IsCueOrLoop(ks[i]) && GetMarkers(parseColor, dist, entries)[i] == MarkerOf(parseColor, dist, ks[i])
  {
    if entries != [] {
      GetMarkersFilter(parseColor, dist, entries[1..]);
    }
  }

  /** locked: the flag of the first BPM-lock entry, False without one. */
  function Locked(entries: seq<Markers2.Entry>): (b: bool)
  {
    if entries == [] then false
    else if entries[0].BpmLockEntry? then entries[0].enabled
    else Locked(entries[1..])
  }

  /** The first BPM-lock entry decides, and entries before it of other kinds
      do not matter. */
  lemma {:induction false} LockedFirst(entries: seq<Markers2.Entry>, i: nat)
    requires i < |entries| && entries[i].BpmLockEntry?
    requires forall j :: 0 <= j < i ==> !entries[j].BpmLockEntry?
    ensures Locked(entries) == entries[i].enabled
  {
    if i > 0 {
      LockedFirst(entries[1..], i - 1);
    }
  }

  /** Without a BPM-lock entry the track is not locked. */
  lemma {:induction false} LockedNone(entries: seq<Markers2.Entry>)
    requires forall j :: 0 <= j < |entries| ==> !entries[j].BpmLockEntry?
    ensures !Locked(entries)
  {
    if entries != [] {
      LockedNone(entries[1..]);
    }
  }

  /** color: the decoded colour of the first colour entry, None without
      one. */
  function Color(parseColor: seq<byte> -> Rgb, entries: seq<Markers2.Entry>): (c: Option<Rgb>)
  {
    if entries == [] then None
    else if entries[0].ColorEntry? then Some(parseColor(entries[0].color))
    else Color(parseColor, entries[1..])
  }

  /** The first colour entry decides. */
  lemma {:induction false} ColorFirst(parseColor: seq<byte> -> Rgb, entries: seq<Markers2.Entry>, i: nat)
    requires i < |entries| && entries[i].ColorEntry?
    requires forall j :: 0 <= j < i ==> !entries[j].ColorEntry?
    ensures Color(parseColor, entries) == Some(parseColor(entries[i].color))
  {
    if i > 0 {
      ColorFirst(parseColor, entries[1..], i - 1);
    }
  }

  /** Without a colour entry there is no track colour. */
  lemma {:induction false} ColorNone(parseColor: seq<byte> -> Rgb, entries: seq<Markers2.Entry>)
    requires forall j :: 0 <= j < |entries| ==> !entries[j].ColorEntry?
    ensures Color(parseColor, entries).None?
  {
    if entries != [] {
      ColorNone(parseColor, entries[1..]);
    }
  }
}
