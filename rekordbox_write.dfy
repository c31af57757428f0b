// djbabel/rekordbox/write.py without the XML tree: the text of each TRACK
// attribute (rb_attr and the rb_attr_* helpers), the cue colours of the
// Rekordbox palette (rb_marker_color) and the beat-in-bar number of a tempo
// change (rb_battito).

module RekordboxWrite {
  import opened Wrappers
  import opened Canonical
  import opened Strings
  import opened Normalize
  import Decimal
  import Dates
  import opened RekordboxUtils
  import opened Elements

  // ----- rating -----

  /** The star count 0..5 to the byte value Rekordbox stores. */
  const RATING_MAP: Dict<int, string> := [
    (0, "0"), (1, "51"), (2, "102"), (3, "153"), (4, "204"), (5, "255")
  ]

  /** rb_attr_rating as written: the rating is looked up as a star count. */
  function RbAttrRatingAsWritten(r: Option<int>): (s: string)
    ensures r.Some? && 0 <= r.value <= 5 ==> s == RATING_MAP[r.value].1
    ensures r.None? || r.value < 0 || r.value > 5 ==> s == "0"
  {
    if r.Some? && Get(RATING_MAP, r.value).Ok? then Get(RATING_MAP, r.value).value
    else "0"
  }

  /** A rating as the canonical track holds it: the byte value of 0 to 5
      stars. */
  predicate IsByteRating(r: int)
  {
    0 <= r <= 255 && r % 51 == 0
  }

  /** rb_attr_rating as intended: a byte rating is written as it is, anything
      else as "0". */
  function RbAttrRating(r: Option<int>): (s: string)
    ensures r.Some? && IsByteRating(r.value) ==> ToInt(Some(s)) == r.value
    ensures r.None? || !IsByteRating(r.value) ==> s == "0"
  {
    if r.Some? && IsByteRating(r.value) then
      ToIntShow(r.value);
      Decimal.Show(r.value)
    else "0"
  }

  /** The table maps k stars to the text of the byte value 51 k, which the
      intended writer gives for that byte value. */
  lemma RatingTable(k: int)
    requires 0 <= k <= 5
    ensures RbAttrRatingAsWritten(Some(k)) == RbAttrRating(Some(51 * k))
  {
    assert RATING_MAP[k] == (k, RbAttrRating(Some(51 * k))) by {
      RatingRow(k);
    }
  }

  /** What the as-written rating text means: a star count k in 0..5 is
      the byte value 51 k, anything else 0. */
  lemma RatingAsWrittenValue(r: Option<int>)
    ensures ToInt(Some(RbAttrRatingAsWritten(r))) ==
      if r.Some? && 0 <= r.value <= 5 then 51 * r.value else 0
  {
    if r.Some? && 0 <= r.value <= 5 {
      var k := r.value;
      RatingTable(k);
      assert IsByteRating(51 * k);
    } else {
      ToIntShow(0);
    }
  }

  lemma RatingRow(k: int)
    requires 0 <= k <= 5
    ensures RATING_MAP[k].1 == RbAttrRating(Some(51 * k))
  {
    if k == 0 {
    } else if k == 1 {
      assert RbAttrRating(Some(51)) == "51";
    } else if k == 2 {
      assert RbAttrRating(Some(102)) == "102";
    } else if k == 3 {
      assert RbAttrRating(Some(153)) == "153";
    } else if k == 4 {
      assert RbAttrRating(Some(204)) == "204";
    } else {
      assert RbAttrRating(Some(255)) == "255";
    }
  }

  /** The rating the tests check: 255 (five stars) is written as "0". */
  lemma RatingAsWrittenLoses()
    ensures RbAttrRatingAsWritten(Some(255)) == "0"
    ensures RbAttrRating(Some(255)) == "255"
  {
    assert Decimal.Show(255) == Decimal.Show(25) + ['5'];
    assert Decimal.Show(25) == Decimal.Show(2) + ['5'];
  }

  // ----- tonality -----

  /** rb_attr_tonality: a classic key name to its abbreviation; a key outside
      the table is kept, and None stays None. */
  function RbAttrTonality(t: Option<string>): (r: Option<string>)
    ensures t.None? <==> r.None?
  {
    if t.None? then None else Some(ValueOr(CLASSIC2ABBREV_KEY_MAP, t.value))
  }

  /** The value of the first entry for k, or k itself when the table has
      none. */
  function ValueOr(d: Dict<string, string>, k: string): string
    decreases |d|
  {
    if d == [] then k else if d[0].0 == k then d[0].1 else ValueOr(d[1..], k)
  }

  /** ValueOr is the dictionary lookup with k as the default. */
  lemma {:induction false} ValueOrGet(d: Dict<string, string>, k: string)
    ensures ValueOr(d, k) == if Get(d, k).Ok? then Get(d, k).value else k
    decreases |d|
  {
    if d != [] && d[0].0 != k {
      ValueOrGet(d[1..], k);
    }
  }

  /** rb_attr_tonality on a key text: the table's abbreviation, or the
      text itself when the table lacks it. */
  lemma RbAttrTonalityOf(k: string)
    ensures RbAttrTonality(Some(k)) ==
      if Get(CLASSIC2ABBREV_KEY_MAP, k).Ok? then Some(Get(CLASSIC2ABBREV_KEY_MAP, k).value) else Some(k)
  {
    ValueOrGet(CLASSIC2ABBREV_KEY_MAP, k);
  }

  // ----- colour -----

  function HexDigit(d: nat): (c: char)
    requires d < 16
  {
    if d < 10 then ('0' as int + d) as char else ('a' as int + d - 10) as char
  }

  /** The lower-case hexadecimal digits of n, without leading zeros. */
  function HexDigits(n: nat): (s: string)
    ensures |s| >= 1
  {
    if n < 16 then [HexDigit(n)] else HexDigits(n / 16) + [HexDigit(n % 16)]
  }

  /** f"{n:02x}": at least two digits, zero-padded; a negative number is its
      sign followed by the digits of its magnitude. */
  function Format02x(n: int): (s: string)
    ensures |s| >= 2
  {
    if n < 0 then "-" + HexDigits(-n)
    else
      var d := HexDigits(n);
      if |d| < 2 then "0" + d else d
  }

  /** '0x' followed by the upper-cased two-digit fields of the three
      components. */
  function ColorHex(c: Rgb): string
  {
    "0x" + Upper(Format02x(c.0) + Format02x(c.1) + Format02x(c.2))
  }

  /** The eight track colours of Rekordbox. */
  const RB_COLORS: seq<string> :=
    ["0xFF007F", "0xFF0000", "0xFFA500", "0xFFFF00", "0x00FF00", "0x25FDE9", "0x0000FF", "0x660099"]

  /** Lemon, the colour every other value is written as. */
  const RB_DEFAULT_COLOR: string := "0xFFFF00"

  /** rb_attr_color: a Rekordbox track colour is written as it is, any other
      colour, or a colour from another program, as Lemon. A missing colour
      from Rekordbox cannot be indexed: TypeError. */
  function RbAttrColor(c: Option<Rgb>, source: ASoftware): (r: Result<string>)
    ensures r.Err? <==> source == REKORDBOX && c.None?
    ensures r.Err? ==> r.error == TypeError
    ensures r.Ok? ==> r.value in RB_COLORS
    ensures r.Ok? && source == REKORDBOX ==> c.Some? && (r.value == ColorHex(c.value) <==> ColorHex(c.value) in RB_COLORS)
    ensures r.Ok? && (source != REKORDBOX || ColorHex(c.value) !in RB_COLORS) ==> r.value == RB_DEFAULT_COLOR
  {
    if source == REKORDBOX then
      if c.None? then Err(TypeError)
      else
        var ch := ColorHex(c.value);
        if ch in RB_COLORS then Ok(ch) else Ok(RB_DEFAULT_COLOR)
    else Ok(RB_DEFAULT_COLOR)
  }

  /** A byte is written as its two digits. */
  lemma Format02xByte(n: int)
    requires 0 <= n < 256
    ensures Format02x(n) == [HexDigit(n / 16), HexDigit(n % 16)]
  {
    if n >= 16 {
      assert HexDigits(n) == HexDigits(n / 16) + [HexDigit(n % 16)];
    }
  }

  /** The colours the tests check. */
  lemma RbAttrColorExamples()
    ensures RbAttrColor(Some((255, 0, 0)), SERATO_DJ_PRO) == Ok("0xFFFF00")
    ensures RbAttrColor(Some((255, 165, 0)), REKORDBOX) == Ok("0xFFA500")
  {
    Format02xByte(255);
    Format02xByte(165);
    Format02xByte(0);
    assert ColorHex((255, 165, 0)) == "0xFFA500";
  }

  // ----- rb_attr -----

  /** The fields of ATrack, in declaration order. */
  datatype Field =
    | Title | Artist | Composer | Album | Grouping | Genre | Aformat | Size | TotalTime
    | DiscNumber | TrackNumber | ReleaseDate | AverageBpm | DateAdded | BitRate | SampleRate
    | Comments | PlayCount | Rating | Location | Remixer | Tonality | Label | Mix
    | DataSource | Markers | Beatgrid | Locked | Color | TrackId | Loudness

  /** The Python name of each field. */
  function FieldName(f: Field): string
  {
    match f
    case Title => "title" case Artist => "artist" case Composer => "composer"
    case Album => "album" case Grouping => "grouping" case Genre => "genre"
    case Aformat => "aformat" case Size => "size" case TotalTime => "total_time"
    case DiscNumber => "disc_number" case TrackNumber => "track_number"
    case ReleaseDate => "release_date" case AverageBpm => "average_bpm"
    case DateAdded => "date_added" case BitRate => "bit_rate" case SampleRate => "sample_rate"
    case Comments => "comments" case PlayCount => "play_count" case Rating => "rating"
    case Location => "location" case Remixer => "remixer" case Tonality => "tonality"
    case Label => "label" case Mix => "mix" case DataSource => "data_source"
    case Markers => "markers" case Beatgrid => "beatgrid" case Locked => "locked"
    case Color => "color" case TrackId => "trackID" case Loudness => "loudness"
  }

  /** The fields typed `str | None` that rb_attr has no special case for. */
  predicate IsStrField(f: Field)
  {
    f.Title? || f.Artist? || f.Composer? || f.Album? || f.Grouping? || f.Genre? ||
    f.Comments? || f.Remixer? || f.Label? || f.Mix?
  }

  /** The fields typed `int | None` that rb_attr has no special case for. */
  predicate IsIntField(f: Field)
  {
    f.Size? || f.DiscNumber? || f.TrackNumber? || f.PlayCount?
  }

  /** The fields typed `float | None` that rb_attr has no special case for. */
  predicate IsFloatField(f: Field)
  {
    f.AverageBpm? || f.SampleRate?
  }

  /** The fields rb_attr writes no attribute for. */
  predicate IsUnwritten(f: Field)
  {
    f.DataSource? || f.Markers? || f.Beatgrid? || f.Locked? || f.Loudness?
  }

  function StrValue(at: ATrack, f: Field): Option<string>
    requires IsStrField(f)
  {
    match f
    case Title => at.title case Artist => at.artist case Composer => at.composer
    case Album => at.album case Grouping => at.grouping case Genre => at.genre
    case Comments => at.comments case Remixer => at.remixer case Label => at.recordLabel
    case Mix => at.mix
  }

  function IntValue(at: ATrack, f: Field): Option<int>
    requires IsIntField(f)
  {
    match f
    case Size => at.size case DiscNumber => at.discNumber
    case TrackNumber => at.trackNumber case PlayCount => at.playCount
  }

  function FloatValue(at: ATrack, f: Field): Option<real>
    requires IsFloatField(f)
  {
    match f
    case AverageBpm => at.averageBpm case SampleRate => at.sampleRate
  }

  /** math.ceil. */
  function Ceil(x: real): (n: int)
    ensures x <= n as real < x + 1.0
  {
    -((-x).Floor)
  }

  /** int(v / 1000) for an integer v: the quotient rounded toward zero. */
  function TruncDiv1000(v: int): (q: int)
    ensures v >= 0 ==> q == v / 1000
    ensures v < 0 ==> q == -((-v) / 1000)
  {
    if v >= 0 then v / 1000 else -((-v) / 1000)
  }

  /** The text of a value that may be missing. */
  function OrDefault(v: Option<string>, default: string): string
  {
    if v.Some? then v.value else default
  }

  /** rb_attr: the (name, value) attribute of field f of the track, or none
      for the fields Rekordbox has no attribute for. str() of a float, the
      URL of the location and today's date come from outside and are
      parameters. */
  function RbAttr(at: ATrack, f: Field, tid: int, showReal: real -> string, url: string -> string,
                  today: Dates.Date): (r: Result<seq<(string, Option<string>)>>)
    requires at.dateAdded.Some? ==> Dates.IsValid(at.dateAdded.value)
    requires Dates.IsValid(today)
    ensures r.Err? <==> f == Color && at.color.None? && at.dataSource.software == REKORDBOX
    ensures r.Err? ==> r.error == TypeError
    ensures r.Ok? ==> (|r.value| == 0 <==> IsUnwritten(f))
    ensures r.Ok? && !IsUnwritten(f) ==> |r.value| == 1 && r.value[0].0 == RbAttrName(FieldName(f))
  {
    if IsUnwritten(f) then Ok([])
    else
      var v :- AttrValue(at, f, tid, showReal, url, today);
      Ok([(RbAttrName(FieldName(f)), v)])
  }

  /** The value rb_attr writes for a field that has an attribute. The value
      is None only for a missing tonality, which rb_attr_tonality passes
      through. */
  function AttrValue(at: ATrack, f: Field, tid: int, showReal: real -> string, url: string -> string,
                     today: Dates.Date): (r: Result<Option<string>>)
    requires !IsUnwritten(f)
    requires at.dateAdded.Some? ==> Dates.IsValid(at.dateAdded.value)
    requires Dates.IsValid(today)
    ensures r.Err? <==> f == Color && at.color.None? && at.dataSource.software == REKORDBOX
    ensures r.Err? ==> r.error == TypeError
    ensures r.Ok? ==> (r.value.None? <==> f == Tonality && at.tonality.None?)
  {
    match f
    case TotalTime =>
      Ok(Some(if at.totalTime.Some? then Decimal.ShowInt(Ceil(at.totalTime.value)) else "0"))
    case BitRate =>
      Ok(Some(if at.bitRate.Some? then Decimal.ShowInt(TruncDiv1000(at.bitRate.value)) else "0"))
    case ReleaseDate =>
      Ok(Some(if at.releaseDate.Some? then Decimal.ShowInt(at.releaseDate.value.year) else "0"))
    case Location => Ok(Some(url(at.location)))
    case Aformat =>
      AformatMapTotal(at.aformat, at.aformat);
      Ok(Some(Get(AFORMAT_MAP, at.aformat).value))
    case Tonality => Ok(RbAttrTonality(at.tonality))
    case Color =>
      var c :- RbAttrColor(at.color, at.dataSource.software);
      Ok(Some(c))
    case Rating => Ok(Some(RbAttrRatingAsWritten(at.rating)))
    case TrackId => Ok(Some(Decimal.ShowInt(if at.trackId.None? then tid else at.trackId.value)))
    case DateAdded => Ok(Some(Dates.Format(if at.dateAdded.Some? then at.dateAdded.value else today, '-')))
    case Title | Artist | Composer | Album | Grouping | Genre | Comments | Remixer | Label | Mix =>
      Ok(Some(OrDefault(StrValue(at, f), "")))
    case Size | DiscNumber | TrackNumber | PlayCount =>
      var v := IntValue(at, f);
      Ok(Some(if v.Some? then Decimal.ShowInt(v.value) else "0"))
    case AverageBpm | SampleRate =>
      var v := FloatValue(at, f);
      Ok(Some(if v.Some? then showReal(v.value) else "0"))
  }

  // ----- rb_marker_color -----

  /** rb_marker_color: the colour Rekordbox shows for each palette colour. */
  function RbMarkerColor(c: AMarkerColor): (v: Rgb)
    ensures IsRgb(v)
  {
    match c
    case RED => (230, 40, 40)
    case RED_ORANGE => (224, 100, 27)
    case ORANGE => (224, 100, 27)
    case YELLOW => (180, 190, 4)
    case LIME_GREEN => (165, 225, 22)
    case DARK_GREEN => (40, 226, 20)
    case BRIGHT_GREEN => (40, 226, 20)
    case LIGHT_GREEN => (16, 177, 118)
    case TEAL => (16, 177, 118)
    case CYAN => (31, 163, 146)
    case SKY_BLUE => (80, 180, 255)
    case BLUE => (48, 90, 255)
    case DARK_BLUE => (48, 90, 255)
    case VIOLET => (180, 50, 255)
    case MAGENTA => (222, 68, 207)
    case HOT_PINK => (255, 18, 123)
  }

  /** The pairs of palette colours Rekordbox shows alike. */
  predicate SharedRekordboxColor(c: AMarkerColor, d: AMarkerColor)
  {
    ({c, d} == {RED_ORANGE, ORANGE}) || ({c, d} == {DARK_GREEN, BRIGHT_GREEN}) ||
    ({c, d} == {LIGHT_GREEN, TEAL}) || ({c, d} == {BLUE, DARK_BLUE})
  }

  /** Two palette colours are shown alike exactly when they are the same or
      one of the four pairs Rekordbox merges, so twelve colours survive. */
  lemma RbMarkerColorMerges(c: AMarkerColor, d: AMarkerColor)
    ensures RbMarkerColor(c) == RbMarkerColor(d) <==> c == d || SharedRekordboxColor(c, d)
  {
    if c != d && RbMarkerColor(c) == RbMarkerColor(d) {
      match c
      case RED_ORANGE => assert d == ORANGE;
      case ORANGE => assert d == RED_ORANGE;
      case DARK_GREEN => assert d == BRIGHT_GREEN;
      case BRIGHT_GREEN => assert d == DARK_GREEN;
      case LIGHT_GREEN => assert d == TEAL;
      case TEAL => assert d == LIGHT_GREEN;
      case BLUE => assert d == DARK_BLUE;
      case DARK_BLUE => assert d == BLUE;
      case _ => assert false;
    }
  }

  // ----- POSITION_MARK and TEMPO attributes -----

  /** REKORDBOX_MARKERTYPE_MAP[k]. */
  function MarkerCode(k: AMarkerType): (c: string)
    ensures Get(MARKERTYPE_MAP, k) == Ok(c)
  {
    MarkerTypeInjective(k);
    Get(MARKERTYPE_MAP, k).value
  }

  /** The attributes rb_position_mark gives a marker: name, type code, start,
      end ("" when there is none), number, and the colour components only
      when the marker has a colour. */
  function PositionMarkAttrs(m: AMarker, showReal: real -> string): (a: Attrs)
    ensures "Name" in a && "Type" in a && "Start" in a && "End" in a && "Num" in a
    ensures ("Red" in a <==> m.color.Some?) && ("Green" in a <==> m.color.Some?) && ("Blue" in a <==> m.color.Some?)
  {
    var base := map[
      "Name" := m.name,
      "Type" := MarkerCode(m.kind),
      "Start" := showReal(m.start),
      "End" := if m.end.Some? then showReal(m.end.value) else "",
      "Num" := Decimal.ShowInt(m.index)];
    if m.color.Some? then
      var rgb := RbMarkerColor(m.color.value);
      base["Red" := Decimal.Show(rgb.0)]["Green" := Decimal.Show(rgb.1)]["Blue" := Decimal.Show(rgb.2)]
    else base
  }

  /** The attributes rb_tempo gives a grid point: start, tempo, the metre as
      "beats/unit" and the beat in the bar. */
  function TempoAttrs(p: ABeatGridBPM, battito: int, showReal: real -> string): (a: Attrs)
    ensures "Inizio" in a && "Bpm" in a && "Metro" in a && "Battito" in a
    ensures Split(a["Metro"], '/') == [Decimal.ShowInt(p.metro.0), Decimal.ShowInt(p.metro.1)]
  {
    var b, u := Decimal.ShowInt(p.metro.0), Decimal.ShowInt(p.metro.1);
    ShowIntNoSlash(p.metro.0);
    ShowIntNoSlash(p.metro.1);
    SplitJoin([b, u], '/');
    map[
      "Inizio" := showReal(p.position),
      "Bpm" := showReal(p.bpm),
      "Metro" := b + "/" + u,
      "Battito" := Decimal.ShowInt(battito)]
  }

  /** The decimal text of an integer has no '/'. */
  lemma ShowIntNoSlash(i: int)
    ensures '/' !in Decimal.ShowInt(i)
  {
    var d := Decimal.Show(if i < 0 then -i else i);
    assert '/' !in d by {
      assert forall k :: 0 <= k < |d| ==> Decimal.IsDigit(d[k]);
    }
  }

  // ----- rb_battito -----

  /** The number of items bpms[:idx] holds: Python slicing, where a negative
      idx counts from the end. */
  function SliceLen(n: nat, idx: int): (k: nat)
    ensures k <= n
    ensures 0 <= idx ==> k == if idx < n then idx else n
  {
    if idx >= n then n
    else if idx >= 0 then idx
    else if n + idx >= 0 then n + idx
    else 0
  }

  /** The beats from grid point i to point i + 1. */
  function StepBeats(bpms: seq<ABeatGridBPM>, i: nat): real
    requires i + 1 < |bpms|
  {
    bpms[i].bpm * (bpms[i + 1].position - bpms[i].position) / 60.0
  }

  /** The beats from the first grid point to point k. */
  function Beats(bpms: seq<ABeatGridBPM>, k: nat): real
    requires k == 0 || k < |bpms|
  {
    if k == 0 then 0.0 else Beats(bpms, k - 1) + StepBeats(bpms, k - 1)
  }

  /** The bar length rb_battito uses: the second metre number of the first
      point, 4 for an empty grid. */
  function Metro(bpms: seq<ABeatGridBPM>): int
  {
    if |bpms| > 0 then bpms[0].metro.1 else 4
  }

  /** Python's a % b on ints: the remainder has the sign of b. */
  function PyMod(a: int, b: int): (r: int)
    requires b != 0
    ensures b > 0 ==> 0 <= r < b
    ensures b < 0 ==> b < r <= 0
    ensures b > 0 ==> r == a % b
  {
    if b > 0 || a % b == 0 then a % b else a % b + b
  }

  /** rb_battito: one plus the rounded beat count before change idx, modulo
      the bar. Walking bpms[:idx] reads point i + 1 for every i, so a slice
      that reaches the last point fails with IndexError; a zero bar is a
      ZeroDivisionError. */
  function RbBattito(bpms: seq<ABeatGridBPM>, idx: int): (r: Result<int>)
    ensures r.Err? <==> (0 < SliceLen(|bpms|, idx) == |bpms|) || Metro(bpms) == 0
    ensures r.Ok? && Metro(bpms) > 0 ==> 1 <= r.value <= Metro(bpms)
  {
    var k := SliceLen(|bpms|, idx);
    if 0 < k == |bpms| then Err(IndexError)
    else if Metro(bpms) == 0 then Err(ZeroDivisionError)
    else Ok(1 + PyMod(Decimal.RoundHalfEven(Beats(bpms, k)), Metro(bpms)))
  }

  /** rb_battito as the source computes it, summing beat counts in a loop. */
  method RbBattitoLoop(bpms: seq<ABeatGridBPM>, idx: int) returns (r: Result<int>)
    ensures r == RbBattito(bpms, idx)
  {
    var metro := if |bpms| > 0 then bpms[0].metro.1 else 4;
    var k := SliceLen(|bpms|, idx);
    var battito := 0.0;
    for i := 0 to k
      invariant i == 0 || i < |bpms|
      invariant battito == Beats(bpms, i)
    {
      if i + 1 >= |bpms| {
        return Err(IndexError);
      }
      var dt := bpms[i + 1].position - bpms[i].position;
      var dbeats := bpms[i].bpm * dt / 60.0;
      battito := battito + dbeats;
    }
    if metro == 0 {
      return Err(ZeroDivisionError);
    }
    r := Ok(1 + PyMod(Decimal.RoundHalfEven(battito), metro));
  }

  /** The first change always starts a bar. */
  lemma RbBattitoFirst(bpms: seq<ABeatGridBPM>)
    requires Metro(bpms) != 0
    ensures RbBattito(bpms, 0) == Ok(1)
  {
    Decimal.RoundWhole(0);
  }

  /** Two of the cases the tests check: 61 beats of 4/4 before the second
      point give beat 2, and 60 + 121 beats before the third give beat 2. */
  lemma RbBattitoExamples(bpms: seq<ABeatGridBPM>, bpms2: seq<ABeatGridBPM>)
    requires bpms == [ABeatGridBPM(0.0, 120.0, (4, 4)), ABeatGridBPM(30.5, 240.0, (4, 4)),
                      ABeatGridBPM(60.5, 120.0, (4, 4))]
    requires bpms2 == [ABeatGridBPM(0.0, 120.0, (4, 4)), ABeatGridBPM(30.0, 240.0, (4, 4)),
                       ABeatGridBPM(60.25, 120.0, (4, 4))]
    ensures RbBattito(bpms, 1) == Ok(2)
    ensures RbBattito(bpms2, 2) == Ok(2)
  {
    assert Beats(bpms, 1) == 61.0;
    Decimal.RoundWhole(61);
    assert Beats(bpms2, 1) == 60.0;
    assert Beats(bpms2, 2) == 181.0;
    Decimal.RoundWhole(181);
  }
}
