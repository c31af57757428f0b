// djbabel/rekordbox/utils.py: the tables that map canonical track field
// names, marker kinds and audio formats to the attribute names and values of
// a Rekordbox XML collection, and rb_attr_name. rekordbox/write.py and
// rekordbox/__init__.py carry identical copies of the field-name and marker
// tables and of rb_attr_name; all three are modelled by the members here.

module RekordboxUtils {
  import opened Wrappers
  import opened Canonical
  import opened Strings
  import opened Normalize

  /** The canonical field names whose Rekordbox attribute is not their
      CamelCase form. */
  const FIELD_NAMES_MAP: Dict<string, string> := [
    ("title", "Name"),
    ("aformat", "kind"),
    ("release_date", "Year"),
    ("color", "Colour"),
    ("trackID", "TrackID")
  ]

  /** The Rekordbox POSITION_MARK Type code of each marker kind. */
  const MARKERTYPE_MAP: Dict<AMarkerType, string> := [
    (CUE, "0"),
    (FADE_IN, "1"),
    (FADE_OUT, "2"),
    (CUE_LOAD, "3"),
    (LOOP, "4")
  ]

  /** The Rekordbox Kind text of each audio format. */
  const AFORMAT_MAP: Dict<AFormat, string> := [
    (MP3, "MP3 File"),
    (FLAC, "FLAC File"),
    (M4A, "MP4 File")
  ]

  /** Each word capitalised (str.capitalize). */
  function CapitalizeAll(ws: seq<string>): (r: seq<string>)
    ensures |r| == |ws|
    ensures forall i :: 0 <= i < |ws| ==> r[i] == Capitalize(ws[i])
  {
    if ws == [] then [] else [Capitalize(ws[0])] + CapitalizeAll(ws[1..])
  }

  /** ''.join(ws). */
  function Concat(ws: seq<string>): string
  {
    if ws == [] then "" else ws[0] + Concat(ws[1..])
  }

  /** The '_'-separated words of s capitalised and run together. */
  function CamelCase(s: string): string
  {
    Concat(CapitalizeAll(Split(s, '_')))
  }

  /** rb_attr_name: the mapped name, or the CamelCase form. */
  function RbAttrName(s: string): string
  {
    match Get(FIELD_NAMES_MAP, s)
    case Ok(n) => n
    case Err(_) => CamelCase(s)
  }

  /** The names the table fixes. */
  lemma RbAttrNameMapped(d: Dict<string, string>, i: nat)
    requires d == FIELD_NAMES_MAP && i < |d|
    ensures RbAttrName(d[i].0) == d[i].1
  {
    FieldNamesDistinct(d);
    GetFirst(d, i);
  }

  lemma FieldNamesDistinct(d: Dict<string, string>)
    requires d == FIELD_NAMES_MAP
    ensures forall i, j :: 0 <= i < j < |d| ==> d[i].0 != d[j].0
  {
  }

  /** The summed lengths of a list of strings. */
  function TotalLength(ws: seq<string>): nat
  {
    if ws == [] then 0 else |ws[0]| + TotalLength(ws[1..])
  }

  lemma {:induction false} ConcatLength(ws: seq<string>)
    ensures |Concat(ws)| == TotalLength(ws)
  {
    if ws != [] {
      ConcatLength(ws[1..]);
    }
  }

  lemma {:induction false} JoinLength(ws: seq<string>, sep: char)
    requires |ws| >= 1
    ensures |Join(ws, sep)| == TotalLength(ws) + |ws| - 1
  {
    if |ws| > 1 {
      JoinLength(ws[1..], sep);
    } else {
      assert ws[1..] == [];
    }
  }

  lemma {:induction false} CapitalizedLength(ws: seq<string>)
    ensures TotalLength(CapitalizeAll(ws)) == TotalLength(ws)
  {
    if ws != [] {
      CapitalizedLength(ws[1..]);
      assert CapitalizeAll(ws)[1..] == CapitalizeAll(ws[1..]);
    }
  }

  /** Neither case mapping produces c from another character when c is not
      a letter. */
  lemma CaseKeeps(s: string, c: char)
    requires !IsLowerAscii(c) && !IsUpperAscii(c) && c !in s
    ensures c !in Capitalize(s)
  {
    var r := Capitalize(s);
    if s != [] {
      var l := Lower(s[1..]);
      assert forall i :: 0 <= i < |l| ==> l[i] == LowerChar(s[1..][i]) && s[1..][i] != c;
      assert r == [UpperChar(s[0])] + l;
    }
  }

  lemma {:induction false} ConcatAvoids(ws: seq<string>, c: char)
    requires forall i :: 0 <= i < |ws| ==> c !in ws[i]
    ensures c !in Concat(ws)
  {
    if ws != [] {
      ConcatAvoids(ws[1..], c);
    }
  }

  /** A name outside the table becomes CamelCase: no '_' is left and the
      result is one character shorter per '_' removed. */
  lemma RbAttrNameCamel(s: string)
    requires Get(FIELD_NAMES_MAP, s).Err?
    ensures '_' !in RbAttrName(s)
    ensures |RbAttrName(s)| == |s| - Count(s, '_')
  {
    var ws := Split(s, '_');
    var cs := CapitalizeAll(ws);
    forall i | 0 <= i < |cs| ensures '_' !in cs[i] {
      CaseKeeps(ws[i], '_');
    }
    ConcatAvoids(cs, '_');
    ConcatLength(cs);
    CapitalizedLength(ws);
    JoinLength(ws, '_');
    SplitCount(s, '_');
  }

  /** A name built from '_'-free words is the words capitalised and run
      together. */
  lemma RbAttrNameWords(ws: seq<string>)
    requires |ws| >= 1 && forall i :: 0 <= i < |ws| ==> '_' !in ws[i]
    requires Get(FIELD_NAMES_MAP, Join(ws, '_')).Err?
    ensures RbAttrName(Join(ws, '_')) == Concat(CapitalizeAll(ws))
  {
    var s := Join(ws, '_');
    SplitJoin(ws, '_');
    assert CamelCase(s) == Concat(CapitalizeAll(ws));
  }

  /** One of the names the tests check. */
  lemma RbAttrNameExample(ws: seq<string>)
    requires ws == ["average", "bpm"]
    ensures RbAttrName(Join(ws, '_')) == "AverageBpm"
  {
    ExampleNotMapped(ws);
    ExampleCapitalized(ws);
    ExampleWords(ws);
    RbAttrNameWords(ws);
    ExampleConcat(CapitalizeAll(ws));
  }

  lemma ExampleWords(ws: seq<string>)
    requires ws == ["average", "bpm"]
    ensures |ws| >= 1 && forall i :: 0 <= i < |ws| ==> '_' !in ws[i]
  {
  }

  lemma ExampleConcat(cs: seq<string>)
    requires cs == ["Average", "Bpm"]
    ensures Concat(cs) == "AverageBpm"
  {
    assert cs[1..] == ["Bpm"];
    assert cs[1..][1..] == [];
    assert Concat(["Bpm"]) == "Bpm" + "";
    assert Concat(cs) == "Average" + Concat(["Bpm"]);
  }

  lemma ExampleNotMapped(ws: seq<string>)
    requires ws == ["average", "bpm"]
    ensures Get(FIELD_NAMES_MAP, Join(ws, '_')).Err?
  {
  }

  lemma ExampleCapitalized(ws: seq<string>)
    requires ws == ["average", "bpm"]
    ensures CapitalizeAll(ws) == ["Average", "Bpm"]
  {
    assert Capitalize("average") == "Average";
    assert Capitalize("bpm") == "Bpm";
  }

  /** Every marker kind has a code, no two kinds share one, and the inverse
      table the reader builds gives each code's kind back. */
  lemma MarkerTypeInjective(k: AMarkerType)
    ensures Get(MARKERTYPE_MAP, k).Ok?
    ensures var c := Get(MARKERTYPE_MAP, k).value;
      c in InverseDict(MARKERTYPE_MAP) && InverseDict(MARKERTYPE_MAP)[c] == k
  {
    var d := MARKERTYPE_MAP;
    var i: nat := match k
      case CUE => 0 case FADE_IN => 1 case FADE_OUT => 2 case CUE_LOAD => 3 case LOOP => 4;
    assert d[i].0 == k;
    GetFirst(d, i);
    InverseDictLast(d, i);
  }

  /** Every code the inverse table holds is the code of its kind. */
  lemma MarkerTypeCodes(c: string)
    requires c in InverseDict(MARKERTYPE_MAP)
    ensures Get(MARKERTYPE_MAP, InverseDict(MARKERTYPE_MAP)[c]) == Ok(c)
  {
    MarkerTypeKeys(MARKERTYPE_MAP);
    InverseDictGet(MARKERTYPE_MAP, c);
  }

  lemma MarkerTypeKeys(d: Dict<AMarkerType, string>)
    requires d == MARKERTYPE_MAP
    ensures forall i, j :: 0 <= i < j < |d| ==> d[i].0 != d[j].0
  {
  }

  /** The format table covers every format with pairwise different texts. */
  lemma AformatMapTotal(f: AFormat, g: AFormat)
    ensures Get(AFORMAT_MAP, f).Ok?
    ensures Get(AFORMAT_MAP, f) == Get(AFORMAT_MAP, g) ==> f == g
  {
  }
}
