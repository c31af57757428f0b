// The software-neutral track model every reader produces and every writer
// consumes: audio formats, beatgrid points, cue and loop markers, the
// 16-colour cue palette, tracks and playlists.

module Canonical {
  import opened Wrappers

  datatype AFormat = MP3 | M4A | FLAC

  /** A calendar date; only the year, month and day that the readers fill in. */
  datatype Date = Date(year: int, month: int, day: int)

  /** One beatgrid point: a position in seconds, the tempo from there on and
      the metre (beats per bar, beat unit). */
  datatype ABeatGridBPM = ABeatGridBPM(position: real, bpm: real, metro: (int, int))

  /** The constructor call with the metre left at its default. */
  function BeatGridPoint(position: real, bpm: real): (p: ABeatGridBPM)
    ensures p.position == position && p.bpm == bpm && p.metro == (4, 4)
  {
    ABeatGridBPM(position, bpm, (4, 4))
  }

  datatype AMarkerType = CUE | CUE_LOAD | LOOP | FADE_IN | FADE_OUT

  /** The 16 cue colours, in declaration order. */
  datatype AMarkerColor =
    | RED | RED_ORANGE | ORANGE | YELLOW | LIME_GREEN | DARK_GREEN | BRIGHT_GREEN | LIGHT_GREEN
    | TEAL | CYAN | SKY_BLUE | BLUE | DARK_BLUE | VIOLET | MAGENTA | HOT_PINK

  type Rgb = (int, int, int)

  predicate IsRgb(c: Rgb)
  {
    0 <= c.0 < 256 && 0 <= c.1 < 256 && 0 <= c.2 < 256
  }

  /** The RGB value of each palette colour. */
  function RgbOf(c: AMarkerColor): (v: Rgb)
    ensures IsRgb(v)
  {
    match c
    case RED => (204, 0, 0)
    case RED_ORANGE => (204, 68, 0)
    case ORANGE => (204, 136, 0)
    case YELLOW => (204, 204, 0)
    case LIME_GREEN => (136, 204, 0)
    case DARK_GREEN => (68, 204, 0)
    case BRIGHT_GREEN => (0, 204, 0)
    case LIGHT_GREEN => (0, 204, 68)
    case TEAL => (0, 204, 136)
    case CYAN => (0, 204, 204)
    case SKY_BLUE => (39, 170, 225)
    case BLUE => (0, 68, 204)
    case DARK_BLUE => (0, 0, 204)
    case VIOLET => (136, 0, 204)
    case MAGENTA => (204, 0, 204)
    case HOT_PINK => (204, 0, 136)
  }

  /** The palette in declaration order: Python's iteration order over the enum. */
  const PALETTE: seq<AMarkerColor> :=
    [RED, RED_ORANGE, ORANGE, YELLOW, LIME_GREEN, DARK_GREEN, BRIGHT_GREEN, LIGHT_GREEN,
     TEAL, CYAN, SKY_BLUE, BLUE, DARK_BLUE, VIOLET, MAGENTA, HOT_PINK]

  /** The palette lists every colour exactly once, and no two colours share an
      RGB value, so a colour and its RGB value determine each other. */
  lemma PaletteComplete()
    ensures |PALETTE| == 16
    ensures forall c: AMarkerColor :: c in PALETTE
    ensures forall i, j :: 0 <= i < j < |PALETTE| ==> RgbOf(PALETTE[i]) != RgbOf(PALETTE[j])
  {
    forall c: AMarkerColor ensures c in PALETTE {
      match c
      case RED => assert PALETTE[0] == c;
      case RED_ORANGE => assert PALETTE[1] == c;
      case ORANGE => assert PALETTE[2] == c;
      case YELLOW => assert PALETTE[3] == c;
      case LIME_GREEN => assert PALETTE[4] == c;
      case DARK_GREEN => assert PALETTE[5] == c;
      case BRIGHT_GREEN => assert PALETTE[6] == c;
      case LIGHT_GREEN => assert PALETTE[7] == c;
      case TEAL => assert PALETTE[8] == c;
      case CYAN => assert PALETTE[9] == c;
      case SKY_BLUE => assert PALETTE[10] == c;
      case BLUE => assert PALETTE[11] == c;
      case DARK_BLUE => assert PALETTE[12] == c;
      case VIOLET => assert PALETTE[13] == c;
      case MAGENTA => assert PALETTE[14] == c;
      case HOT_PINK => assert PALETTE[15] == c;
    }
  }

  lemma RgbInjective(c: AMarkerColor, d: AMarkerColor)
    ensures RgbOf(c) == RgbOf(d) <==> c == d
  {
  }

  /** A cue point, loop or fade marker; times in seconds. */
  datatype AMarker = AMarker(
    name: string,
    color: Option<AMarkerColor>,
    start: real,
    end: Option<real>,
    kind: AMarkerType,
    index: int,
    locked: bool)

  datatype ALoudness = ALoudness(autogain: real, gainDb: real)

  datatype ASoftware = SERATO_DJ_PRO | REKORDBOX | TRAKTOR

  datatype AEncoderMode = UNKNOWN | CBR | VBR | ABR

  datatype AEncoder = AEncoder(text: string, settings: string, mode: AEncoderMode)

  datatype ADataSource = ADataSource(software: ASoftware, version: seq<int>, encoder: Option<AEncoder>)

  /** A track. Optional attributes are None when the source does not carry them. */
  datatype ATrack = ATrack(
    title: Option<string>,
    artist: Option<string>,
    composer: Option<string>,
    album: Option<string>,
    grouping: Option<string>,
    genre: Option<string>,
    aformat: AFormat,
    size: Option<int>,
    totalTime: Option<real>,
    discNumber: Option<int>,
    trackNumber: Option<int>,
    releaseDate: Option<Date>,
    averageBpm: Option<real>,
    dateAdded: Option<Date>,
    bitRate: Option<int>,
    sampleRate: Option<real>,
    comments: Option<string>,
    playCount: Option<int>,
    rating: Option<int>,
    location: string,
    remixer: Option<string>,
    tonality: Option<string>,
    recordLabel: Option<string>,
    mix: Option<string>,
    dataSource: ADataSource,
    markers: seq<AMarker>,
    beatgrid: seq<ABeatGridBPM>,
    locked: bool,
    color: Option<Rgb>,
    trackId: Option<int>,
    loudness: Option<ALoudness>)

  datatype Playlist = Playlist(name: string, entries: int, tracks: seq<ATrack>)

  /** A playlist whose entry count is its number of tracks, the only kind the
      constructor builds. */
  type APlaylist = p: Playlist | p.entries == |p.tracks| witness Playlist("", 0, [])

  /** APlaylist(name, tracks). */
  function MakePlaylist(name: string, tracks: seq<ATrack>): (p: APlaylist)
    ensures p.name == name && p.tracks == tracks
  {
    Playlist(name, |tracks|, tracks)
  }

  datatype ASoftwareInfo = ASoftwareInfo(software: ASoftware, version: (int, int, int))

  datatype ATransformation = ATransformation(source: ASoftwareInfo, target: ASoftwareInfo)
}
