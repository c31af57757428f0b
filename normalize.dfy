// The format-independent helpers of djbabel/utils.py: unit conversions, small
// parsers, the palette quantiser, the per-target time-offset table and the two
// passes that move a track's markers and beatgrid between time references.

module Normalize {
  import opened Wrappers
  import opened Bytes
  import opened Canonical
  import Decimal
  import Base64
  import opened Strings

  // ----- units -----

  /** ms_to_s. */
  function MsToS(x: real): (r: real)
    ensures r * 1000.0 == x
  {
    x / 1000.0
  }

  /** s_to_ms. */
  function SToMs(x: real): (r: real)
    ensures r / 1000.0 == x
  {
    x * 1000.0
  }

  /** The two conversions undo each other. */
  lemma MsSRoundTrip(x: real)
    ensures MsToS(SToMs(x)) == x && SToMs(MsToS(x)) == x
  {
  }

  // ----- to_int -----

  /** str.isnumeric restricted to ASCII: a non-empty string of digits. */
  predicate IsNumeric(s: string)
  {
    s != [] && Decimal.AllDigits(s)
  }

  /** to_int: the value of a numeric string, 0 for None or anything else. */
  function ToInt(x: Option<string>): (n: int)
    ensures n >= 0
    ensures x.None? || !IsNumeric(x.value) ==> n == 0
  {
    if x.Some? && IsNumeric(x.value) then Decimal.Value(x.value) else 0
  }

  /** Reading back the decimal text of a natural number gives that number. */
  lemma ToIntShow(n: nat)
    ensures ToInt(Some(Decimal.Show(n))) == n
  {
    Decimal.ValueShow(n);
  }

  /** to_float: None stays None and any text goes to float(). Its test
      `x.isnumeric` names the method without calling it, so the test is
      always true and the branch that splits on '.' is never taken. */
  function ToFloat(x: Option<string>): (r: Result<Option<real>>)
    ensures x.None? <==> r == Ok(None)
    ensures x.Some? && r.Ok? ==> Decimal.ParseFloat(x.value) == Ok(r.value.value)
    ensures r.Err? ==> r.error == ValueError && Decimal.ParseFloat(x.value).Err?
  {
    if x.None? then Ok(None)
    else
      match Decimal.ParseFloat(x.value)
      case Ok(v) => Ok(Some(v))
      case Err(_) => Err(ValueError)
  }

  // ----- get_leading_base64_part -----

  /** A byte of the base64 alphabet of RFC 4648 section 4, or the pad '='. */
  predicate IsBase64Char(c: byte)
  {
    Base64.IsAlphabet(c) || c == EQUALS
  }

  /** get_leading_base64_part: the longest prefix made of base64 characters
      (itertools.takewhile). */
  function LeadingBase64(s: seq<byte>): (r: seq<byte>)
    ensures r <= s
    ensures forall i :: 0 <= i < |r| ==> IsBase64Char(r[i])
    ensures |r| < |s| ==> !IsBase64Char(s[|r|])
  {
    if s == [] || !IsBase64Char(s[0]) then []
    else [s[0]] + LeadingBase64(s[1..])
  }

  /** Whatever follows the base64 text does not change it. */
  lemma {:induction false} LeadingBase64Append(a: seq<byte>, b: seq<byte>)
    requires forall i :: 0 <= i < |a| ==> IsBase64Char(a[i])
    requires b == [] || !IsBase64Char(b[0])
    ensures LeadingBase64(a + b) == a
  {
    if a != [] {
      assert (a + b)[1..] == a[1..] + b;
      LeadingBase64Append(a[1..], b);
    } else {
      assert a + b == b;
    }
  }

  // ----- dictionaries -----

  /** A Python dict literal as its (key, value) items in insertion order. */
  type Dict<K, V> = seq<(K, V)>

  /** d[k]: the value of the first item with key k, KeyError if there is none. */
  function Get<K(==), V>(d: Dict<K, V>, k: K): (r: Result<V>)
    ensures r.Ok? <==> exists i :: 0 <= i < |d| && d[i].0 == k
    ensures r.Ok? ==> exists i :: 0 <= i < |d| && d[i] == (k, r.value)
    ensures r.Err? ==> r.error == KeyError
  {
    if d == [] then Err(KeyError)
    else if d[0].0 == k then Ok(d[0].1)
    else
      var r := Get(d[1..], k);
      assert forall i :: 0 < i < |d| ==> d[i] == d[1..][i - 1];
      r
  }

  /** The item at i is the first with its key, so d[key] is its value. */
  lemma {:induction false} GetFirst<K, V>(d: Dict<K, V>, i: nat)
    requires i < |d|
    requires forall j :: 0 <= j < i ==> d[j].0 != d[i].0
    ensures Get(d, d[i].0) == Ok(d[i].1)
  {
    if i > 0 {
      GetFirst(d[1..], i - 1);
    }
  }

  /** inverse_dict: value -> key; when several keys share a value the last one
      in insertion order wins, since later entries of the comprehension
      overwrite earlier ones. */
  function InverseDict<K, V(==)>(d: Dict<K, V>): (r: map<V, K>)
    ensures forall i :: 0 <= i < |d| ==> d[i].1 in r
    ensures forall v :: v in r ==> exists i :: 0 <= i < |d| && d[i].1 == v
  {
    if d == [] then map[]
    else
      var r := InverseDict(d[..|d| - 1]);
      assert forall i :: 0 <= i < |d| - 1 ==> d[i] == d[..|d| - 1][i];
      r[d[|d| - 1].1 := d[|d| - 1].0]
  }

  /** The key InverseDict keeps for v is the one of the last item holding v. */
  lemma {:induction false} InverseDictLast<K, V>(d: Dict<K, V>, i: nat)
    requires i < |d|
    requires forall j :: i < j < |d| ==> d[j].1 != d[i].1
    ensures d[i].1 in InverseDict(d) && InverseDict(d)[d[i].1] == d[i].0
  {
    if i < |d| - 1 {
      var d' := d[..|d| - 1];
      assert forall j :: i < j < |d'| ==> d'[j] == d[j];
      InverseDictLast(d', i);
    }
  }

  /** The key InverseDict gives for v is a key the dictionary maps to v. */
  lemma {:induction false} InverseDictPair<K, V>(d: Dict<K, V>, v: V)
    requires v in InverseDict(d)
    ensures exists i :: 0 <= i < |d| && d[i] == (InverseDict(d)[v], v)
  {
    var last := |d| - 1;
    if d[last].1 != v {
      var d' := d[..last];
      InverseDictPair(d', v);
      var i :| 0 <= i < |d'| && d'[i] == (InverseDict(d')[v], v);
      assert d[i] == d'[i];
    } else {
      assert d[last] == (InverseDict(d)[v], v);
    }
  }

  /** In a dictionary with no repeated key, the key the inverse table gives
      for a value maps back to that value. */
  lemma InverseDictGet<K, V>(d: Dict<K, V>, v: V)
    requires forall i, j :: 0 <= i < j < |d| ==> d[i].0 != d[j].0
    requires v in InverseDict(d)
    ensures Get(d, InverseDict(d)[v]) == Ok(v)
  {
    InverseDictPair(d, v);
    var i :| 0 <= i < |d| && d[i] == (InverseDict(d)[v], v);
    GetFirst(d, i);
  }

  // ----- aformat_from_path -----

  /** The index of the last c in s, -1 if there is none (str.rfind). */
  function LastIndexOf(s: string, c: char): (r: int)
    ensures -1 <= r < |s|
    ensures r >= 0 ==> s[r] == c
    ensures forall i :: r < i < |s| ==> s[i] != c
  {
    if s == [] then -1
    else if s[|s| - 1] == c then |s| - 1
    else LastIndexOf(s[..|s| - 1], c)
  }

  /** PurePath.name for a '/'-separated path: the text after the last '/'. */
  function FileName(p: string): string
  {
    p[LastIndexOf(p, '/') + 1..]
  }

  /** PurePath.suffix: from the last '.' of the name, provided that dot is
      neither the first nor the last character of the name; else "". */
  function Suffix(p: string): (r: string)
    ensures r == [] || r[0] == '.'
  {
    var name := FileName(p);
    var i := LastIndexOf(name, '.');
    if 0 < i < |name| - 1 then name[i..] else ""
  }

  /** aformat_from_path: the format named by the path's suffix, ignoring case. */
  function AformatFromPath(p: string): (r: Result<AFormat>)
    ensures r.Err? ==> r.error == ValueError
  {
    match Lower(Suffix(p))
    case ".mp3" => Ok(MP3)
    case ".flac" => Ok(FLAC)
    case ".m4a" => Ok(M4A)
    case ".aac" => Ok(M4A)
    case ".mp4" => Ok(M4A)
    case _ => Err(ValueError)
  }

  lemma {:induction false} LastIndexOfAppend(a: string, b: string, c: char)
    requires c in b
    ensures LastIndexOf(a + b, c) == |a| + LastIndexOf(b, c)
    decreases |b|
  {
    var s := a + b;
    if b[|b| - 1] != c {
      var b' := b[..|b| - 1];
      assert s[..|s| - 1] == a + b';
      assert c in b' by {
        var k :| 0 <= k < |b| && b[k] == c;
        assert b'[k] == c;
      }
      LastIndexOfAppend(a, b', c);
    }
  }

  lemma {:induction false} LastIndexOfAbsent(s: string, c: char)
    requires c !in s
    ensures LastIndexOf(s, c) == -1
  {
    if s != [] {
      assert s[..|s| - 1] <= s;
      LastIndexOfAbsent(s[..|s| - 1], c);
    }
  }

  /** The name of a file in a directory is what follows the directory's '/'. */
  lemma FileNameInDir(dir: string, name: string)
    requires '/' !in name
    ensures FileName(dir + "/" + name) == name
  {
    var s := ['/'] + name;
    assert dir + "/" + name == dir + s;
    assert '/' in s by { assert s[0] == '/'; }
    LastIndexOfAppend(dir, s, '/');
    assert LastIndexOf(s, '/') == 0 by {
      assert forall j :: 1 <= j < |s| ==> s[j] == name[j - 1];
    }
    assert (dir + s)[|dir| + 1..] == name;
  }

  /** A name made of a non-empty stem without dots and an extension: the
      suffix is the extension. */
  lemma SuffixOfName(stem: string, ext: string)
    requires '.' !in stem && '/' !in stem && stem != []
    requires |ext| >= 2 && ext[0] == '.' && '/' !in ext && '.' !in ext[1..]
    ensures '/' !in stem + ext && FileName(stem + ext) == stem + ext
    ensures Suffix(stem + ext) == ext
  {
    var name := stem + ext;
    assert '/' !in name by {
      assert forall i :: |stem| <= i < |name| ==> name[i] == ext[i - |stem|];
    }
    LastIndexOfAbsent(name, '/');
    assert FileName(name) == name;
    assert '.' in ext by { assert ext[0] == '.'; }
    LastIndexOfAppend(stem, ext, '.');
    assert LastIndexOf(ext, '.') == 0 by {
      assert forall j :: 1 <= j < |ext| ==> ext[j] == ext[1..][j - 1];
    }
    assert name[|stem|..] == ext;
  }

  /** A file in a directory, named by a stem without dots and an extension:
      its format is the one the extension names, in any letter case. */
  lemma AformatOfFile(dir: string, stem: string, ext: string, name: string)
    requires '.' !in stem && '/' !in stem && stem != []
    requires |ext| >= 2 && ext[0] == '.' && '/' !in ext && '.' !in ext[1..]
    requires name == stem + ext
    ensures AformatFromPath(dir + "/" + name).Ok? <==>
              Lower(ext) in {".mp3", ".flac", ".m4a", ".aac", ".mp4"}
  {
    var p := dir + "/" + name;
    SuffixOfName(stem, ext);
    FileNameInDir(dir, name);
    SuffixOfFileName(p, name);
    AformatOfSuffix(p, ext);
  }

  /** The suffix depends on the file name alone. */
  lemma SuffixOfFileName(p: string, q: string)
    requires FileName(p) == FileName(q)
    ensures Suffix(p) == Suffix(q)
  {
  }

  lemma AformatOfSuffix(p: string, ext: string)
    requires Suffix(p) == ext
    ensures AformatFromPath(p).Ok? <==> Lower(ext) in {".mp3", ".flac", ".m4a", ".aac", ".mp4"}
  {
  }

  // ----- closest_color_perceptual -----

  /** The perceptual distance of a palette colour from a target; CIEDE2000 in
      the program, any real-valued function here. */
  function Delta(dist: (Rgb, Rgb) -> real, target: Rgb, c: AMarkerColor): real
  {
    dist(target, RgbOf(c))
  }

  /** The running minimum over PALETTE[i..], starting from best: a colour
      replaces it only when strictly closer. */
  function ClosestFrom(dist: (Rgb, Rgb) -> real, target: Rgb, i: nat, best: AMarkerColor): AMarkerColor
    requires i <= |PALETTE|
    decreases |PALETTE| - i
  {
    if i == |PALETTE| then best
    else
      var next := if Delta(dist, target, PALETTE[i]) < Delta(dist, target, best) then PALETTE[i] else best;
      ClosestFrom(dist, target, i + 1, next)
  }

  /** The palette colour closest to target: the first colour, in declaration
      order, of minimal distance. */
  function Closest(dist: (Rgb, Rgb) -> real, target: Rgb): AMarkerColor
  {
    ClosestFrom(dist, target, 1, PALETTE[0])
  }

  /** PALETTE[k] is at least as close as every colour of PALETTE[..i] and
      strictly closer than every colour before it. */
  predicate FirstMinimumBefore(dist: (Rgb, Rgb) -> real, target: Rgb, k: nat, i: nat)
    requires k < i <= |PALETTE|
  {
    (forall j :: 0 <= j < i ==> Delta(dist, target, PALETTE[k]) <= Delta(dist, target, PALETTE[j])) &&
    (forall j :: 0 <= j < k ==> Delta(dist, target, PALETTE[k]) < Delta(dist, target, PALETTE[j]))
  }

  /** PALETTE[m] is the first colour of minimal distance in the whole palette. */
  predicate IsFirstMinimum(dist: (Rgb, Rgb) -> real, target: Rgb, m: nat)
  {
    m < |PALETTE| && FirstMinimumBefore(dist, target, m, |PALETTE|)
  }

  /** The colour the running minimum keeps is the first colour of minimal
      distance; m is its index. */
  lemma {:induction false} ClosestFromMinimal(dist: (Rgb, Rgb) -> real, target: Rgb, i: nat, k: nat) returns (m: nat)
    requires k < i <= |PALETTE|
    requires FirstMinimumBefore(dist, target, k, i)
    ensures IsFirstMinimum(dist, target, m) && PALETTE[m] == ClosestFrom(dist, target, i, PALETTE[k])
    decreases |PALETTE| - i
  {
    if i < |PALETTE| {
      var k' := if Delta(dist, target, PALETTE[i]) < Delta(dist, target, PALETTE[k]) then i else k;
      FirstMinimumStep(dist, target, i, k);
      m := ClosestFromMinimal(dist, target, i + 1, k');
    } else {
      m := k;
      assert PALETTE[k] == ClosestFrom(dist, target, i, PALETTE[k]);
    }
  }

  /** One step of the running minimum keeps the first minimum of the prefix. */
  lemma FirstMinimumStep(dist: (Rgb, Rgb) -> real, target: Rgb, i: nat, k: nat)
    requires k < i < |PALETTE|
    requires FirstMinimumBefore(dist, target, k, i)
    ensures var k' := if Delta(dist, target, PALETTE[i]) < Delta(dist, target, PALETTE[k]) then i else k;
      FirstMinimumBefore(dist, target, k', i + 1) &&
      ClosestFrom(dist, target, i, PALETTE[k]) == ClosestFrom(dist, target, i + 1, PALETTE[k'])
  {
  }

  /** The colour chosen is a palette colour of minimal distance, and no colour
      before it in the palette is as close. */
  lemma ClosestIsFirstMinimum(dist: (Rgb, Rgb) -> real, target: Rgb)
    ensures exists m: nat :: IsFirstMinimum(dist, target, m) && PALETTE[m] == Closest(dist, target)
  {
    var m := ClosestFromMinimal(dist, target, 1, 0);
  }

  /** A distance under which every palette colour is strictly closer to
      itself than to any other palette colour, as a metric on RGB values
      is. */
  predicate SeparatesPalette(dist: (Rgb, Rgb) -> real)
  {
    forall c: AMarkerColor, d: AMarkerColor :: c != d ==> dist(RgbOf(c), RgbOf(c)) < dist(RgbOf(c), RgbOf(d))
  }

  /** Under such a distance a palette colour is quantised to itself. */
  lemma ClosestOfPalette(dist: (Rgb, Rgb) -> real, c: AMarkerColor)
    requires SeparatesPalette(dist)
    ensures Closest(dist, RgbOf(c)) == c
  {
    var t := RgbOf(c);
    var m := ClosestFromMinimal(dist, t, 1, 0);
    var k := PaletteIndex(c);
  }

  /** The place of a colour in the palette. */
  lemma PaletteIndex(c: AMarkerColor) returns (k: nat)
    ensures k < |PALETTE| && PALETTE[k] == c
  {
    match c
    case RED => k := 0;
    case RED_ORANGE => k := 1;
    case ORANGE => k := 2;
    case YELLOW => k := 3;
    case LIME_GREEN => k := 4;
    case DARK_GREEN => k := 5;
    case BRIGHT_GREEN => k := 6;
    case LIGHT_GREEN => k := 7;
    case TEAL => k := 8;
    case CYAN => k := 9;
    case SKY_BLUE => k := 10;
    case BLUE => k := 11;
    case DARK_BLUE => k := 12;
    case VIOLET => k := 13;
    case MAGENTA => k := 14;
    case HOT_PINK => k := 15;
  }

  /** closest_color_perceptual: the minimum starts at infinity (None) and is
      replaced by each strictly smaller distance met in palette order. */
  method ClosestColorPerceptual(dist: (Rgb, Rgb) -> real, target: Rgb) returns (c: AMarkerColor)
    ensures c == Closest(dist, target)
  {
    var minDelta: Option<real> := None;
    var closest: Option<AMarkerColor> := None;
    for i := 0 to |PALETTE|
      invariant i == 0 <==> closest.None?
      invariant i == 0 <==> minDelta.None?
      invariant i > 0 ==> minDelta.value == Delta(dist, target, closest.value)
      invariant i > 0 ==> ClosestFrom(dist, target, i, closest.value) == Closest(dist, target)
    {
      var deltaE := Delta(dist, target, PALETTE[i]);
      if minDelta.None? || deltaE < minDelta.value {
        minDelta := Some(deltaE);
        closest := Some(PALETTE[i]);
      }
    }
    c := closest.value;
  }

  // ----- mp3_encoder_name_version -----

  predicate IsLetter(c: char)
  {
    'a' <= c <= 'z' || 'A' <= c <= 'Z'
  }

  /** The class \s of a str pattern: the characters str.isspace accepts,
      the ASCII controls \t to \r and \x1c to \x1f, the space, NEL,
      no-break space and the Unicode space and separator characters. */
  predicate IsSpace(c: char)
  {
    '\t' <= c <= '\r' || '\U{1C}' <= c <= ' ' || c == '\U{85}' || c == '\U{A0}'
    || c == '\U{1680}' || '\U{2000}' <= c <= '\U{200A}' || c == '\U{2028}' || c == '\U{2029}'
    || c == '\U{202F}' || c == '\U{205F}' || c == '\U{3000}'
  }

  /** The character classes of the pattern: [a-zA-Z], \s and \d. */
  datatype CharClass = Letters | Spaces | Digits

  predicate In(c: char, k: CharClass)
  {
    match k
    case Letters => IsLetter(c)
    case Spaces => IsSpace(c)
    case Digits => Decimal.IsDigit(c)
  }

  /** The length of the longest run of characters of class k from i on. */
  function Run(s: string, i: nat, k: CharClass): (n: nat)
    requires i <= |s|
    ensures i + n <= |s|
    ensures forall j :: i <= j < i + n ==> In(s[j], k)
    ensures i + n == |s| || !In(s[i + n], k)
    decreases |s| - i
  {
    if i == |s| || !In(s[i], k) then 0 else 1 + Run(s, i + 1, k)
  }

  /** The first a characters of a run of digits form a number. */
  lemma RunDigits(s: string, i: nat, a: nat)
    requires i <= |s| && 0 < a <= Run(s, i, Digits)
    ensures i + a <= |s| && IsNumeric(s[i..i + a])
  {
    var t := s[i..i + a];
    forall k | 0 <= k < a ensures Decimal.IsDigit(t[k]) {
      assert t[k] == s[i + k] && In(s[i + k], Digits);
    }
  }

  /** Three non-empty digit strings, the version groups of a match. */
  predicate DigitGroups(g: (string, string, string))
  {
    IsNumeric(g.0) && IsNumeric(g.1) && IsNumeric(g.2)
  }

  /** The regular expression (\d+)\.?(\d+)\.?(\d+) matched at the start of
      s[i..] the way Python's backtracking engine does it: each \d+ first takes
      the longest run of digits and gives digits back one at a time, each \.?
      first takes a '.' when there is one and then tries without it; the first
      combination that completes is the match. G1, Dot1, G2, Dot2 and G3 are
      the five positions of the pattern. */
  function G1(s: string, i: nat, a: nat): (r: Option<(string, string, string)>)
    requires i <= |s| && a <= Run(s, i, Digits)
    ensures r.Some? ==> DigitGroups(r.value)
    decreases a
  {
    if a == 0 then None
    else
      RunDigits(s, i, a);
      var r := Dot1(s, s[i..i + a], i + a);
      if r.Some? then r else G1(s, i, a - 1)
  }

  function Dot1(s: string, g1: string, q: nat): (r: Option<(string, string, string)>)
    requires q <= |s| && IsNumeric(g1)
    ensures r.Some? ==> DigitGroups(r.value)
  {
    var withDot := if q < |s| && s[q] == '.' then G2(s, g1, q + 1, Run(s, q + 1, Digits)) else None;
    if withDot.Some? then withDot else G2(s, g1, q, Run(s, q, Digits))
  }

  function G2(s: string, g1: string, j: nat, b: nat): (r: Option<(string, string, string)>)
    requires j <= |s| && b <= Run(s, j, Digits)
    requires IsNumeric(g1)
    ensures r.Some? ==> DigitGroups(r.value)
    decreases b
  {
    if b == 0 then None
    else
      RunDigits(s, j, b);
      var r := Dot2(s, g1, s[j..j + b], j + b);
      if r.Some? then r else G2(s, g1, j, b - 1)
  }

  function Dot2(s: string, g1: string, g2: string, q: nat): (r: Option<(string, string, string)>)
    requires q <= |s| && IsNumeric(g1) && IsNumeric(g2)
    ensures r.Some? ==> DigitGroups(r.value)
  {
    var withDot := if q < |s| && s[q] == '.' then G3(s, g1, g2, q + 1) else None;
    if withDot.Some? then withDot else G3(s, g1, g2, q)
  }

  /** The last group is greedy and nothing after it can fail (\+? is
      optional and the match is not anchored at the end). */
  function G3(s: string, g1: string, g2: string, k: nat): (r: Option<(string, string, string)>)
    requires k <= |s| && IsNumeric(g1) && IsNumeric(g2)
    ensures r.Some? ==> DigitGroups(r.value)
  {
    var n := Run(s, k, Digits);
    if n == 0 then None else Some((g1, g2, s[k..k + n]))
  }

  /** mp3_encoder_name_version: re.match of ([a-zA-Z]+)\s*(\d+)\.?(\d+)\.?(\d+)\+?
      on the encoder text. Giving back letters or spaces never helps the
      pattern (a digit must follow them), so the name is the longest run of
      letters and the spaces after it are all taken. Every group matches at
      least one digit, so the version has three numbers; without a match the
      name is the whole text and the version is empty. */
  function Mp3EncoderNameVersion(text: string): (string, seq<int>)
  {
    var n := Run(text, 0, Letters);
    if n == 0 then (text, [])
    else
      var m := VersionGroups(text, n + Run(text, n, Spaces));
      if m.None? then (text, []) else (text[..n], VersionNumbers(m.value))
  }

  /** The three groups of (\d+)\.?(\d+)\.?(\d+) matched at i, if it matches. */
  function VersionGroups(text: string, i: nat): (r: Option<(string, string, string)>)
    requires i <= |text|
    ensures r.Some? ==> DigitGroups(r.value)
  {
    G1(text, i, Run(text, i, Digits))
  }

  /** map(int, groups). */
  function VersionNumbers(g: (string, string, string)): (v: seq<int>)
    requires DigitGroups(g)
    ensures |v| == 3
  {
    [Decimal.Value(g.0), Decimal.Value(g.1), Decimal.Value(g.2)]
  }

  /** Without a match the name is the whole text and the version is empty;
      with one the name is a non-empty run of letters opening the text and the
      version has three numbers. */
  lemma EncoderNameVersionShape(text: string)
    ensures var (name, version) := Mp3EncoderNameVersion(text);
      (version == [] ==> name == text) &&
      (version != [] ==> |version| == 3 && name != [] && name <= text &&
                         forall j :: 0 <= j < |name| ==> IsLetter(name[j]))
  {
  }

  /** A run is exactly as long as a stretch of satisfying characters followed
      by a non-satisfying one or the end. */
  lemma {:induction false} RunOver(s: string, i: nat, t: string, p: CharClass)
    requires i + |t| <= |s| && s[i..i + |t|] == t
    requires forall j :: 0 <= j < |t| ==> In(t[j], p)
    requires i + |t| == |s| || !In(s[i + |t|], p)
    ensures Run(s, i, p) == |t|
    decreases |t|
  {
    if t != [] {
      assert s[i] == t[0];
      assert s[i + 1..i + 1 + |t[1..]|] == t[1..];
      RunOver(s, i + 1, t[1..], p);
    }
  }

  /** Digits x, a dot, digits y, a dot and digits z, each run of digits
      maximal: the first choice at every position of the pattern succeeds. */
  lemma DottedVersion(s: string, p2: nat, p3: nat, p4: nat, p5: nat, x: string, y: string, z: string)
    requires p2 < p3 < p4 < p5 <= |s| && p3 == p2 + |x| && p4 == p3 + 1 + |y| && p5 == p4 + 1 + |z|
    requires IsNumeric(x) && IsNumeric(y) && IsNumeric(z)
    requires s[p2..p3] == x && s[p3] == '.' && s[p3 + 1..p4] == y && s[p4] == '.' && s[p4 + 1..p5] == z
    requires Run(s, p2, Digits) == |x| && Run(s, p3 + 1, Digits) == |y|
    requires Run(s, p4 + 1, Digits) == |z|
    ensures G1(s, p2, |x|) == Some((x, y, z))
  {
    AfterFirstGroup(s, p3, p4, p5, x, y, z);
    G1First(s, p2, |x|, (x, y, z));
  }

  /** From the first dot on, the first choices match y and z. */
  lemma AfterFirstGroup(s: string, p3: nat, p4: nat, p5: nat, x: string, y: string, z: string)
    requires p3 < p4 < p5 <= |s| && p4 == p3 + 1 + |y| && p5 == p4 + 1 + |z|
    requires IsNumeric(x) && IsNumeric(y) && IsNumeric(z)
    requires s[p3] == '.' && s[p3 + 1..p4] == y && s[p4] == '.' && s[p4 + 1..p5] == z
    requires Run(s, p3 + 1, Digits) == |y| && Run(s, p4 + 1, Digits) == |z|
    ensures Dot1(s, x, p3) == Some((x, y, z))
  {
    Dot2First(s, x, y, p4, |z|);
    G2First(s, x, p3 + 1, |y|, (x, y, z));
    Dot1First(s, x, p3, |y|, (x, y, z));
  }

  lemma Dot2First(s: string, g1: string, g2: string, q: nat, n: nat)
    requires q < |s| && s[q] == '.' && IsNumeric(g1) && IsNumeric(g2)
    requires Run(s, q + 1, Digits) == n > 0
    ensures Dot2(s, g1, g2, q) == Some((g1, g2, s[q + 1..q + 1 + n]))
  {
  }

  lemma G2First(s: string, g1: string, j: nat, b: nat, g: (string, string, string))
    requires j <= |s| && 0 < b <= Run(s, j, Digits)
    requires IsNumeric(g1) && IsNumeric(s[j..j + b])
    requires Dot2(s, g1, s[j..j + b], j + b) == Some(g)
    ensures G2(s, g1, j, b) == Some(g)
  {
  }

  lemma Dot1First(s: string, g1: string, q: nat, b: nat, g: (string, string, string))
    requires q < |s| && s[q] == '.' && IsNumeric(g1)
    requires Run(s, q + 1, Digits) == b
    requires G2(s, g1, q + 1, b) == Some(g)
    ensures Dot1(s, g1, q) == Some(g)
  {
  }

  lemma G1First(s: string, i: nat, a: nat, g: (string, string, string))
    requires i <= |s| && 0 < a <= Run(s, i, Digits) && IsNumeric(s[i..i + a])
    requires Dot1(s, s[i..i + a], i + a) == Some(g)
    ensures G1(s, i, a) == Some(g)
  {
  }

  /** The layout "name spaces x.y.z rest" with its positions named. */
  predicate EncoderLayout(text: string, name: string, sep: string, x: string, y: string, z: string, rest: string)
  {
    text == name + sep + x + "." + y + "." + z + rest
  }

  /** The encoder text "name spaces x.y.z rest", with rest not starting with a
      digit, has name and version [x, y, z], as in 'LAME 3.100.0+' and
      'Lavf58.20.100'. */
  lemma EncoderNameVersionPlain(text: string, name: string, sep: string, x: nat, y: nat, z: nat, rest: string)
    requires name != [] && forall j :: 0 <= j < |name| ==> IsLetter(name[j])
    requires forall j :: 0 <= j < |sep| ==> IsSpace(sep[j])
    requires rest == [] || !Decimal.IsDigit(rest[0])
    requires EncoderLayout(text, name, sep, Decimal.Show(x), Decimal.Show(y), Decimal.Show(z), rest)
    ensures Mp3EncoderNameVersion(text) == (name, [x, y, z])
  {
    var X, Y, Z := Decimal.Show(x), Decimal.Show(y), Decimal.Show(z);
    var p1 := |name|;
    var p2 := p1 + |sep|;
    var p3 := p2 + |X|;
    var p4 := p3 + 1 + |Y|;
    var p5 := p4 + 1 + |Z|;
    LayoutSlices(text, name, sep, X, Y, Z, rest, p1, p2, p3, p4, p5);
    NameRuns(text, name, sep, X, p1, p2);
    DigitRuns(text, X, Y, Z, rest, p2, p3, p4, p5);
    DottedVersion(text, p2, p3, p4, p5, X, Y, Z);
    Decimal.ValueShow(x);
    Decimal.ValueShow(y);
    Decimal.ValueShow(z);
    NameVersionOf(text, p1, |sep|, p2, |X|, (X, Y, Z));
    assert VersionNumbers((X, Y, Z)) == [x, y, z];
  }

  lemma LayoutSlices(text: string, name: string, sep: string, x: string, y: string, z: string, rest: string,
                     p1: nat, p2: nat, p3: nat, p4: nat, p5: nat)
    requires EncoderLayout(text, name, sep, x, y, z, rest) && x != []
    requires p1 == |name| && p2 == p1 + |sep| && p3 == p2 + |x| && p4 == p3 + 1 + |y| && p5 == p4 + 1 + |z|
    ensures p5 <= |text| && (p5 == |text| <==> rest == [])
    ensures text[..p1] == name && text[p1..p2] == sep && text[p2..p3] == x && text[p3] == '.'
    ensures text[p3 + 1..p4] == y && text[p4] == '.' && text[p4 + 1..p5] == z
    ensures p5 == |text| || text[p5] == rest[0]
    ensures text[p1 + |sep|] == x[0]
    ensures sep != [] ==> text[p1] == sep[0]
  {
  }

  /** The runs of letters and spaces that open the layout. */
  lemma NameRuns(text: string, name: string, sep: string, x: string, p1: nat, p2: nat)
    requires name != [] && forall j :: 0 <= j < |name| ==> IsLetter(name[j])
    requires forall j :: 0 <= j < |sep| ==> IsSpace(sep[j])
    requires IsNumeric(x)
    requires p1 == |name| && p2 == p1 + |sep| && p2 < |text|
    requires text[..p1] == name && text[p1..p2] == sep && text[p2] == x[0]
    requires sep != [] ==> text[p1] == sep[0]
    ensures Run(text, 0, Letters) == p1 && Run(text, p1, Spaces) == |sep|
  {
    assert text[0..p1] == name;
    RunBefore(text, 0, name, Letters, text[p1]);
    RunBefore(text, p1, sep, Spaces, text[p2]);
  }

  /** The three runs of digits of the layout. */
  lemma DigitRuns(text: string, x: string, y: string, z: string, rest: string,
                  p2: nat, p3: nat, p4: nat, p5: nat)
    requires IsNumeric(x) && IsNumeric(y) && IsNumeric(z)
    requires rest != [] ==> !Decimal.IsDigit(rest[0])
    requires p3 == p2 + |x| && p4 == p3 + 1 + |y| && p5 == p4 + 1 + |z|
    requires p5 <= |text| && (p5 == |text| <==> rest == [])
    requires text[p2..p3] == x && text[p3] == '.'
    requires text[p3 + 1..p4] == y && text[p4] == '.' && text[p4 + 1..p5] == z
    requires p5 == |text| || text[p5] == rest[0]
    ensures Run(text, p2, Digits) == |x| && Run(text, p3 + 1, Digits) == |y| && Run(text, p4 + 1, Digits) == |z|
  {
    RunBefore(text, p2, x, Digits, text[p3]);
    RunBefore(text, p3 + 1, y, Digits, text[p4]);
    if p5 == |text| {
      RunOver(text, p4 + 1, z, Digits);
    } else {
      RunBefore(text, p4 + 1, z, Digits, text[p5]);
    }
  }

  /** RunOver for a run followed by a character c outside the class. */
  lemma RunBefore(s: string, i: nat, t: string, k: CharClass, c: char)
    requires i + |t| < |s| && s[i..i + |t|] == t && s[i + |t|] == c && !In(c, k)
    requires forall j :: 0 <= j < |t| ==> In(t[j], k)
    ensures Run(s, i, k) == |t|
  {
    RunOver(s, i, t, k);
  }

  /** The result once the three runs and the version groups are known. */
  lemma NameVersionOf(text: string, n: nat, w: nat, p: nat, a: nat, g: (string, string, string))
    requires 0 < n && p == n + w <= |text|
    requires Run(text, 0, Letters) == n && Run(text, n, Spaces) == w && Run(text, p, Digits) == a
    requires G1(text, p, a) == Some(g) && DigitGroups(g)
    ensures Mp3EncoderNameVersion(text) == (text[..n], VersionNumbers(g))
  {
    assert VersionGroups(text, p) == Some(g);
  }

  // ----- time offsets -----

  /** Python's list comparison a < b: the first differing element decides, and
      a proper prefix is smaller. */
  predicate LexLess(a: seq<int>, b: seq<int>)
  {
    if a == [] then b != []
    else if b == [] then false
    else if a[0] != b[0] then a[0] < b[0]
    else LexLess(a[1..], b[1..])
  }

  /** The first LAME release whose MP3 frames need no beatgrid shift. */
  const LAME_NO_SHIFT: seq<int> := [3, 100, 0]

  /** The shift of every other MP3 encoder, in seconds. */
  const MP3_SHIFT: real := -0.016

  /** mp3_beatgrid_offset. */
  function Mp3BeatgridOffset(encoder: Option<AEncoder>): (r: real)
    ensures r == 0.0 || r == MP3_SHIFT
    ensures encoder.None? ==> r == 0.0
  {
    if encoder.None? then 0.0
    else
      var (name, version) := Mp3EncoderNameVersion(encoder.value.text);
      if name == "LAME" && !LexLess(version, LAME_NO_SHIFT) then 0.0
      else MP3_SHIFT
  }

  /** A LAME x.y.z encoder needs no shift exactly from release 3.100.0 on;
      any other x.y.z encoder gets the shift. */
  lemma Mp3OffsetOfVersion(text: string, name: string, sep: string, x: nat, y: nat, z: nat, rest: string, mode: AEncoderMode, settings: string)
    requires name != [] && forall j :: 0 <= j < |name| ==> IsLetter(name[j])
    requires forall j :: 0 <= j < |sep| ==> IsSpace(sep[j])
    requires rest == [] || !Decimal.IsDigit(rest[0])
    requires EncoderLayout(text, name, sep, Decimal.Show(x), Decimal.Show(y), Decimal.Show(z), rest)
    ensures Mp3BeatgridOffset(Some(AEncoder(text, settings, mode))) ==
              if name == "LAME" && (x > 3 || (x == 3 && y >= 100)) then 0.0 else MP3_SHIFT
  {
    EncoderNameVersionPlain(text, name, sep, x, y, z, rest);
    LameThreshold(x, y, z);
    OffsetOfNameVersion(AEncoder(text, settings, mode), name, [x, y, z]);
  }

  /** Python's [x, y, z] >= [3, 100, 0] for naturals. */
  lemma LameThreshold(x: nat, y: nat, z: nat)
    ensures !LexLess([x, y, z], LAME_NO_SHIFT) <==> x > 3 || (x == 3 && y >= 100)
  {
    var v: seq<int> := [x, y, z];
    assert v[1..] == [y as int, z];
    assert v[1..][1..] == [z as int];
    assert LAME_NO_SHIFT[1..] == [100, 0];
    assert LAME_NO_SHIFT[1..][1..] == [0];
    assert !LexLess([z as int], [0]) by {
      assert [z as int][1..] == [] && [0][1..] == [];
    }
    assert LexLess(v[1..], LAME_NO_SHIFT[1..]) <==> y < 100;
  }

  lemma OffsetOfNameVersion(e: AEncoder, name: string, version: seq<int>)
    requires Mp3EncoderNameVersion(e.text) == (name, version)
    ensures Mp3BeatgridOffset(Some(e)) == if name == "LAME" && !LexLess(version, LAME_NO_SHIFT) then 0.0 else MP3_SHIFT
  {
  }

  /** beatgrid_offset: the shift from Serato DJ Pro's time reference to the
      target's, in seconds. Rekordbox plays AAC 46 ms later and MP3 by the
      encoder rule; Serato itself and Traktor need no shift. */
  function BeatgridOffset(at: ATrack, trans: ATransformation): (r: real)
    ensures trans.target.software != REKORDBOX ==> r == 0.0
    ensures at.aformat == FLAC ==> r == 0.0
    ensures trans.target.software == REKORDBOX && at.aformat == M4A ==> r == 0.046
    ensures trans.target.software == REKORDBOX && at.aformat == MP3 ==> r == Mp3BeatgridOffset(at.dataSource.encoder)
    ensures r == 0.0 || r == 0.046 || r == MP3_SHIFT
  {
    match trans.target.software
    case SERATO_DJ_PRO => 0.0
    case REKORDBOX =>
      (match at.aformat
       case M4A => 0.046
       case MP3 => Mp3BeatgridOffset(at.dataSource.encoder)
       case FLAC => 0.0)
    case TRAKTOR => 0.0
  }

  /** marker_offset: markers shift like the beatgrid. */
  function MarkerOffset(at: ATrack, trans: ATransformation): (r: real)
    ensures r == BeatgridOffset(at, trans)
  {
    BeatgridOffset(at, trans)
  }

  // ----- adjust_time -----

  function ShiftMarker(m: AMarker, d: real): AMarker
  {
    m.(start := m.start + d, end := if m.end.Some? then Some(m.end.value + d) else None)
  }

  /** Every marker moved by d: start and, where there is one, end. */
  function ShiftMarkers(ms: seq<AMarker>, d: real): (r: seq<AMarker>)
    ensures |r| == |ms|
    ensures forall i :: 0 <= i < |ms| ==> r[i] == ShiftMarker(ms[i], d)
  {
    if ms == [] then [] else ShiftMarkers(ms[..|ms| - 1], d) + [ShiftMarker(ms[|ms| - 1], d)]
  }

  /** Every beatgrid point moved by d. */
  function ShiftGrid(bg: seq<ABeatGridBPM>, d: real): (r: seq<ABeatGridBPM>)
    ensures |r| == |bg|
    ensures forall i :: 0 <= i < |bg| ==> r[i] == bg[i].(position := bg[i].position + d)
  {
    if bg == [] then [] else ShiftGrid(bg[..|bg| - 1], d) + [bg[|bg| - 1].(position := bg[|bg| - 1].position + d)]
  }

  /** The track adjust_time returns: markers moved by sign times the marker
      offset, beatgrid by sign times the beatgrid offset, nothing else changed. */
  function Adjusted(at: ATrack, trans: ATransformation, sign: int): ATrack
  {
    MoveTimes(at, Signed(sign, MarkerOffset(at, trans)), Signed(sign, BeatgridOffset(at, trans)))
  }

  /** offset_sign * offset: the int sign times the offset, as a real. */
  function Signed(sign: int, offset: real): real
  {
    sign as real * offset
  }

  /** The track with its markers moved by dm and its beatgrid by db. */
  function MoveTimes(at: ATrack, dm: real, db: real): ATrack
  {
    at.(markers := ShiftMarkers(at.markers, dm), beatgrid := ShiftGrid(at.beatgrid, db))
  }

  /** Moving by d and then by -d gives the track back. */
  lemma MoveTimesBack(at: ATrack, d: real)
    ensures MoveTimes(MoveTimes(at, d, d), -d, -d) == at
  {
    ShiftMarkersBack(at.markers, d);
    ShiftGridBack(at.beatgrid, d);
  }

  /** The first loop of adjust_time: each marker moved by d, appended in turn. */
  method ShiftEachMarker(ms: seq<AMarker>, d: real) returns (r: seq<AMarker>)
    ensures r == ShiftMarkers(ms, d)
  {
    r := [];
    for i := 0 to |ms|
      invariant r == ShiftMarkers(ms[..i], d)
    {
      var m := ms[i];
      var newStart := m.start + d;
      var newEnd := if m.end.Some? then Some(m.end.value + d) else None;
      assert ms[..i + 1][..i] == ms[..i];
      r := r + [m.(start := newStart, end := newEnd)];
    }
    assert ms[..|ms|] == ms;
  }

  /** The second loop of adjust_time: each beatgrid point moved by d. */
  method ShiftEachPoint(bgs: seq<ABeatGridBPM>, d: real) returns (r: seq<ABeatGridBPM>)
    ensures r == ShiftGrid(bgs, d)
  {
    r := [];
    for i := 0 to |bgs|
      invariant r == ShiftGrid(bgs[..i], d)
    {
      var bg := bgs[i];
      assert bgs[..i + 1][..i] == bgs[..i];
      r := r + [bg.(position := bg.position + d)];
    }
    assert bgs[..|bgs|] == bgs;
  }

  /** adjust_time. */
  method AdjustTime(at: ATrack, trans: ATransformation, offsetSign: int) returns (r: ATrack)
    ensures r == Adjusted(at, trans, offsetSign)
  {
    var mOffset := Signed(offsetSign, MarkerOffset(at, trans));
    var newMarkers := ShiftEachMarker(at.markers, mOffset);
    var bgOffset := Signed(offsetSign, BeatgridOffset(at, trans));
    var newBeatgrid := ShiftEachPoint(at.beatgrid, bgOffset);
    r := at.(markers := newMarkers, beatgrid := newBeatgrid);
  }

  /** adjust_time_to_target. */
  method AdjustTimeToTarget(at: ATrack, trans: ATransformation) returns (r: ATrack)
    ensures r == Adjusted(at, trans, 1)
  {
    r := AdjustTime(at, trans, 1);
  }

  /** normalize_time. */
  method NormalizeTime(at: ATrack, trans: ATransformation) returns (r: ATrack)
    ensures r == Adjusted(at, trans, -1)
  {
    r := AdjustTime(at, trans, -1);
  }

  /** Moving markers by d and then by -d puts them back. */
  lemma ShiftMarkersBack(ms: seq<AMarker>, d: real)
    ensures ShiftMarkers(ShiftMarkers(ms, d), -d) == ms
  {
    var mid := ShiftMarkers(ms, d);
    var back := ShiftMarkers(mid, -d);
    forall i | 0 <= i < |ms| ensures back[i] == ms[i] {
      ShiftMarkerBack(ms[i], mid[i], d);
    }
  }

  /** Moving one marker by d and then by -d puts it back. */
  lemma ShiftMarkerBack(m: AMarker, moved: AMarker, d: real)
    requires moved == ShiftMarker(m, d)
    ensures ShiftMarker(moved, -d) == m
  {
    assert ShiftMarker(moved, -d).end == m.end;
  }

  /** Moving beatgrid points by d and then by -d puts them back. */
  lemma ShiftGridBack(bgs: seq<ABeatGridBPM>, d: real)
    ensures ShiftGrid(ShiftGrid(bgs, d), -d) == bgs
  {
    var back := ShiftGrid(ShiftGrid(bgs, d), -d);
    assert forall i :: 0 <= i < |bgs| ==> back[i] == bgs[i];
  }

  /** Adjusting changes neither the format nor the encoder, so the offsets of
      the adjusted track are those of the original. */
  lemma AdjustedOffsets(at: ATrack, trans: ATransformation, sign: int)
    ensures BeatgridOffset(Adjusted(at, trans, sign), trans) == BeatgridOffset(at, trans)
  {
    var mid := Adjusted(at, trans, sign);
    assert mid.aformat == at.aformat && mid.dataSource == at.dataSource;
  }

  /** Adjusting by sign moves every time by sign times the offset. */
  lemma AdjustedIsMove(at: ATrack, trans: ATransformation, sign: int, off: real)
    requires off == BeatgridOffset(at, trans)
    ensures Adjusted(at, trans, sign) == MoveTimes(at, Signed(sign, off), Signed(sign, off))
  {
  }

  /** Normalising and then adjusting to the target gives the track back. */
  lemma NormalizeThenAdjust(at: ATrack, trans: ATransformation)
    ensures Adjusted(Adjusted(at, trans, -1), trans, 1) == at
  {
    var off := BeatgridOffset(at, trans);
    var mid := Adjusted(at, trans, -1);
    AdjustedIsMove(at, trans, -1, off);
    AdjustedOffsets(at, trans, -1);
    AdjustedIsMove(mid, trans, 1, off);
    MoveTimesBack(at, -off);
  }

  /** Adjusting to the target and then normalising gives the track back. */
  lemma AdjustThenNormalize(at: ATrack, trans: ATransformation)
    ensures Adjusted(Adjusted(at, trans, 1), trans, -1) == at
  {
    var off := BeatgridOffset(at, trans);
    var mid := Adjusted(at, trans, 1);
    AdjustedIsMove(at, trans, 1, off);
    AdjustedOffsets(at, trans, 1);
    AdjustedIsMove(mid, trans, -1, off);
    MoveTimesBack(at, off);
  }

  /** Adjusting to the target undoes normalising, and the other way round:
      with exact arithmetic every time comes back unchanged. */
  lemma AdjustNormalizeRoundTrip(at: ATrack, trans: ATransformation)
    ensures Adjusted(Adjusted(at, trans, -1), trans, 1) == at
    ensures Adjusted(Adjusted(at, trans, 1), trans, -1) == at
  {
    NormalizeThenAdjust(at, trans);
    AdjustThenNormalize(at, trans);
  }

  // ----- reindex_sdjpro_loops -----

  predicate IsCue(m: AMarker)
  {
    m.kind == CUE || m.kind == CUE_LOAD
  }

  /** The CUE and CUE_LOAD markers, in order. */
  function Cues(ms: seq<AMarker>): (r: seq<AMarker>)
    ensures |r| <= |ms|
  {
    if ms == [] then []
    else (if IsCue(ms[0]) then [ms[0]] else []) + Cues(ms[1..])
  }

  /** Cues keeps exactly the cue markers. */
  lemma {:induction false} CuesMembers(ms: seq<AMarker>)
    ensures forall m :: m in Cues(ms) <==> m in ms && IsCue(m)
  {
    if ms != [] {
      CuesMembers(ms[1..]);
      assert ms == [ms[0]] + ms[1..];
    }
  }

  /** The LOOP markers, in order. */
  function Loops(ms: seq<AMarker>): (r: seq<AMarker>)
    ensures |r| <= |ms|
  {
    if ms == [] then []
    else (if ms[0].kind == LOOP then [ms[0]] else []) + Loops(ms[1..])
  }

  /** Loops keeps exactly the loop markers. */
  lemma {:induction false} LoopsMembers(ms: seq<AMarker>)
    ensures forall m :: m in Loops(ms) <==> m in ms && m.kind == LOOP
  {
    if ms != [] {
      LoopsMembers(ms[1..]);
      assert ms == [ms[0]] + ms[1..];
    }
  }

  /** The first pad a Serato loop goes to: loops fill the last pads of a
      CDJ-3000's eight when cues and loops fit there, else follow the cues. */
  function LoopBase(cues: nat, loops: nat): int
  {
    if cues + loops <= 8 then 8 - loops else cues
  }

  /** Every marker's index moved up by base. */
  function Reindex(ls: seq<AMarker>, base: int): (r: seq<AMarker>)
    ensures |r| == |ls|
    ensures forall i :: 0 <= i < |ls| ==> r[i] == ls[i].(index := base + ls[i].index)
  {
    if ls == [] then [] else Reindex(ls[..|ls| - 1], base) + [ls[|ls| - 1].(index := base + ls[|ls| - 1].index)]
  }

  /** The markers reindex_sdjpro_loops returns. */
  function Reindexed(markers: seq<AMarker>, trans: ATransformation): seq<AMarker>
  {
    if trans.source.software == SERATO_DJ_PRO then
      var cues := Cues(markers);
      var loops := Loops(markers);
      cues + Reindex(loops, LoopBase(|cues|, |loops|))
    else markers
  }

  /** The loop of reindex_sdjpro_loops: each loop appended with its index
      moved up by base. */
  method AppendReindexed(cues: seq<AMarker>, loops: seq<AMarker>, base: int) returns (r: seq<AMarker>)
    ensures r == cues + Reindex(loops, base)
  {
    r := cues;
    for k := 0 to |loops|
      invariant r == cues + Reindex(loops[..k], base)
    {
      var m := loops[k];
      assert loops[..k + 1][..k] == loops[..k];
      assert Reindex(loops[..k + 1], base) == Reindex(loops[..k], base) + [m.(index := base + m.index)];
      r := r + [m.(index := base + m.index)];
    }
    assert loops[..|loops|] == loops;
  }

  /** reindex_sdjpro_loops. */
  method ReindexSdjproLoops(markers: seq<AMarker>, trans: ATransformation) returns (r: seq<AMarker>)
    ensures r == Reindexed(markers, trans)
  {
    if trans.source.software == SERATO_DJ_PRO {
      var cues := Cues(markers);
      var loops := Loops(markers);
      var i := if |cues| + |loops| <= 8 then 8 - |loops| else |cues|;
      r := AppendReindexed(cues, loops, i);
    } else {
      r := markers;
    }
  }

  /** From Serato, the cues come first and unchanged, then every loop; the
      fade markers are dropped. */
  lemma SeratoReindexedLayout(markers: seq<AMarker>, trans: ATransformation)
    requires trans.source.software == SERATO_DJ_PRO
    ensures var r := Reindexed(markers, trans);
      |r| == |Cues(markers)| + |Loops(markers)| &&
      r[..|Cues(markers)|] == Cues(markers) &&
      forall i :: 0 <= i < |r| ==> r[i].kind != FADE_IN && r[i].kind != FADE_OUT
  {
    var cues, loops := Cues(markers), Loops(markers);
    var r := Reindexed(markers, trans);
    CuesMembers(markers);
    LoopsMembers(markers);
    forall i | 0 <= i < |r| ensures r[i].kind != FADE_IN && r[i].kind != FADE_OUT {
      if i < |cues| {
        assert r[i] == cues[i] && r[i] in cues;
      } else {
        assert r[i].kind == loops[i - |cues|].kind && loops[i - |cues|] in loops;
      }
    }
  }

  /** Serato loops numbered 0..l-1 land on pads 8-l..7 when cues and loops
      fit in eight, else on c..c+l-1 right after the c cues. */
  lemma SeratoLoopPads(markers: seq<AMarker>, trans: ATransformation)
    requires trans.source.software == SERATO_DJ_PRO
    requires forall m :: m in Loops(markers) ==> 0 <= m.index < |Loops(markers)|
    ensures var c, l := |Cues(markers)|, |Loops(markers)|;
      forall i :: c <= i < c + l ==>
        if c + l <= 8 then 8 - l <= Reindexed(markers, trans)[i].index <= 7
        else c <= Reindexed(markers, trans)[i].index <= c + l - 1
  {
    var loops := Loops(markers);
    var c, l := |Cues(markers)|, |loops|;
    forall i | c <= i < c + l
      ensures if c + l <= 8 then 8 - l <= Reindexed(markers, trans)[i].index <= 7
              else c <= Reindexed(markers, trans)[i].index <= c + l - 1
    {
      SeratoLoopIndex(markers, trans, i);
      assert loops[i - c] in loops;
    }
  }

  /** Position i past the cues holds loop i - c, its index moved up by the base. */
  lemma SeratoLoopIndex(markers: seq<AMarker>, trans: ATransformation, i: nat)
    requires trans.source.software == SERATO_DJ_PRO
    requires |Cues(markers)| <= i < |Cues(markers)| + |Loops(markers)|
    ensures var c, loops := |Cues(markers)|, Loops(markers);
      Reindexed(markers, trans)[i].index == LoopBase(c, |loops|) + loops[i - c].index
  {
    var cues, loops := Cues(markers), Loops(markers);
    var base := LoopBase(|cues|, |loops|);
    assert Reindexed(markers, trans) == cues + Reindex(loops, base);
    assert (cues + Reindex(loops, base))[i] == Reindex(loops, base)[i - |cues|];
  }

  // ----- key maps -----

  /** Classic key names to the abbreviations Rekordbox shows. */
  const CLASSIC2ABBREV_KEY_MAP: Dict<string, string> := [
    ("Cmaj", "C"), ("C#maj", "C#"), ("Dbmaj", "Db"), ("Dmaj", "D"),
    ("D#maj", "D#"), ("Ebmaj", "Eb"), ("Emaj", "E"), ("Fmaj", "F"),
    ("F#maj", "F#"), ("Gbmaj", "Gb"), ("Gmaj", "G"), ("G#maj", "G#"),
    ("Abmaj", "Ab"), ("Amaj", "A"), ("A#maj", "A#"), ("Bbmaj", "Bb"),
    ("Bmaj", "B"), ("Cmin", "Cm"), ("Cmi", "Cm"), ("C#min", "C#m"),
    ("Dbmin", "Dbm"), ("Dmin", "Dm"), ("Dmi", "Dm"), ("D#min", "D#m"),
    ("Ebmin", "Ebm"), ("Emin", "Em"), ("Emi", "Em"), ("Fmin", "Fm"),
    ("Fmi", "Fm"), ("F#min", "F#m"), ("Gbmin", "Gbm"), ("Gmin", "Gm"),
    ("Gmi", "Gm"), ("G#min", "G#m"), ("Abmin", "Abm"), ("Amin", "Am"),
    ("Ami", "Am"), ("A#min", "A#m"), ("Bbmin", "Bbm"), ("Bmin", "Bm"),
    ("Bmi", "Bm")
  ]

  /** Classic key names to Open Key notation, which Traktor uses. */
  const CLASSIC2OPEN_KEY_MAP: Dict<string, string> := [
    ("Cmaj", "1d"), ("C#maj", "8d"), ("Dbmaj", "8d"), ("Dmaj", "3d"),
    ("Ebmaj", "10d"), ("Emaj", "5d"), ("Fmaj", "12d"), ("F#maj", "7d"),
    ("Gbmaj", "7d"), ("Gmaj", "2d"), ("Abmaj", "9d"), ("Amaj", "4d"),
    ("Bbmaj", "11d"), ("Bmaj", "6d"), ("Ami", "1m"), ("Amin", "1m"),
    ("A#min", "8m"), ("Bbmin", "8m"), ("Bmi", "3m"), ("Bmin", "3m"),
    ("Cmi", "10m"), ("Cmin", "10m"), ("C#min", "5m"), ("Dbmin", "5m"),
    ("Dmi", "12m"), ("Dmin", "12m"), ("D#min", "7m"), ("Ebmin", "7m"),
    ("Emi", "2m"), ("Emin", "2m"), ("Fmi", "9m"), ("Fmin", "9m"),
    ("F#min", "4m"), ("Gbmin", "4m"), ("Gmi", "11m"), ("Gmin", "11m"),
    ("G#min", "6m"), ("Abmin", "6m")
  ]

  /** Open Key notation to Traktor's MUSICAL_KEY numbers. */
  const OPEN_KEY2MUSICAL_KEY_MAP: Dict<string, int> := [
    ("1d", 1), ("2d", 2), ("3d", 3), ("4d", 4),
    ("5d", 5), ("6d", 6), ("7d", 7), ("8d", 8),
    ("9d", 9), ("10d", 10), ("11d", 11), ("12d", 12),
    ("1m", 13), ("2m", 14), ("3m", 15), ("4m", 16),
    ("5m", 17), ("6m", 18), ("7m", 19), ("8m", 20),
    ("9m", 21), ("10m", 22), ("11m", 23), ("12m", 24)
  ]
}
