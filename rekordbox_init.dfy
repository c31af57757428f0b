// djbabel/rekordbox/__init__.py: the older Rekordbox writer, from which the
// command line still imports rb_attr_name. Its field-name, marker-type and
// rating tables and its rb_attr_name, rb_attr_tonality and rb_attr_rating
// are the same as those of rekordbox/write.py and are the members of
// RekordboxUtils and RekordboxWrite. Of what differs, the format names,
// the colour writer, the loop re-indexing and the beat-in-bar number are
// modelled here. Its rb_attr is not: it differs from the one of
// rekordbox/write.py in the total time (int() where write.py rounds up),
// the date added ("" where write.py writes today) and the location.

module RekordboxInit {
  import opened Wrappers
  import opened Canonical
  import opened Strings
  import opened Normalize
  import Decimal
  import RekordboxWrite

  /** The Kind text of each audio format, in this writer's German names. */
  const AFORMAT_MAP: Dict<AFormat, string> := [
    (MP3, "Mp3-Datei"),
    (FLAC, "Flac-Datei"),
    (M4A, "Mp4-Datai")
  ]

  /** The table covers every format with pairwise different texts. */
  lemma AformatMapTotal(f: AFormat, g: AFormat)
    ensures Get(AFORMAT_MAP, f).Ok?
    ensures Get(AFORMAT_MAP, f) == Get(AFORMAT_MAP, g) ==> f == g
  {
  }

  // ----- rb_attr_color -----

  function Pow2(k: nat): (r: nat)
    ensures r >= 1
  {
    if k == 0 then 1 else 2 * Pow2(k - 1)
  }

  /** a << k on Python integers; a negative count raises ValueError. */
  function Shl(a: int, k: int): (r: Result<int>)
    ensures r.Err? <==> k < 0
    ensures r.Err? ==> r.error == ValueError
    ensures r.Ok? ==> r.value == a * Pow2(k)
  {
    if k < 0 then Err(ValueError) else Ok(a * Pow2(k))
  }

  /** hex(n): "0x" and the lower-case digits, behind a '-' when n is
      negative. */
  function Hex(n: int): (s: string)
    ensures n >= 0 ==> |s| >= 3 && s[0] == '0' && s[1] == 'x'
    ensures n < 0 ==> |s| >= 4 && s[0] == '-'
  {
    if n < 0 then "-0x" + RekordboxWrite.HexDigits(-n) else "0x" + RekordboxWrite.HexDigits(n)
  }

  /** The colours this writer's match statement lists; the third, Orange,
      is spelt with a fullwidth x (U+FF58). */
  const COLOR_CASES: seq<string> := [
    "0xFF007F", "0xFF0000", "0\U{FF58}FFA500", "0xFFFF00",
    "0x00FF00", "0x25FDE9", "0x0000FF", "0x660099"
  ]

  /** rb_attr_color as written. The shifts bind after the additions, so the
      number formatted is c0 << (16 + c1) << (8 + c2); a negative count is
      a ValueError and a missing colour from Rekordbox a TypeError. Any
      other source gives Lemon without looking at the colour. */
  function RbAttrColorAsWritten(c: Option<Rgb>, source: ASoftware): (r: Result<string>)
    ensures r.Err? <==> source == REKORDBOX && (c.None? || 16 + c.value.1 < 0 || 8 + c.value.2 < 0)
    ensures r.Err? ==> r.error in {TypeError, ValueError}
    ensures source != REKORDBOX ==> r == Ok(RekordboxWrite.RB_DEFAULT_COLOR)
  {
    if source != REKORDBOX then Ok(RekordboxWrite.RB_DEFAULT_COLOR)
    else if c.None? then Err(TypeError)
    else
      var a :- Shl(c.value.0, 16 + c.value.1);
      var b :- Shl(a, 8 + c.value.2);
      var ch := Upper(Hex(b));
      if ch in COLOR_CASES then Ok(ch) else Ok(RekordboxWrite.RB_DEFAULT_COLOR)
  }

  /** No text hex().upper() produces is one of the cases: it starts "0X" or
      "-0X", while every case starts "0x" or "0" and a fullwidth x. */
  lemma HexNeverMatches(n: int)
    ensures Upper(Hex(n)) !in COLOR_CASES
  {
    var ch := Upper(Hex(n));
    if n >= 0 {
      assert ch[1] == 'X';
    } else {
      assert ch[0] == '-';
    }
    forall i | 0 <= i < |COLOR_CASES|
      ensures COLOR_CASES[i] != ch
    {
      var w := COLOR_CASES[i];
      assert w[0] == '0' && (w[1] == 'x' || w[1] == '\U{FF58}');
    }
  }

  /** Whatever the colour and source, the written colour is Lemon (or an
      error): the Rekordbox branch can never return the colour itself. */
  lemma RbAttrColorAsWrittenLemon(c: Option<Rgb>, source: ASoftware)
    ensures var r := RbAttrColorAsWritten(c, source);
      r.Ok? ==> r.value == RekordboxWrite.RB_DEFAULT_COLOR
  {
    if source == REKORDBOX && c.Some? && 16 + c.value.1 >= 0 && 8 + c.value.2 >= 0 {
      HexNeverMatches(c.value.0 * Pow2(16 + c.value.1) * Pow2(8 + c.value.2));
    }
  }

  /** Rekordbox red is written as Lemon here, and as itself by the writer
      of rekordbox/write.py. */
  lemma RbAttrColorAsWrittenLosesRed(c: Rgb)
    requires c == (255, 0, 0)
    ensures RbAttrColorAsWritten(Some(c), REKORDBOX) == Ok("0xFFFF00")
    ensures RekordboxWrite.RbAttrColor(Some(c), REKORDBOX) == Ok("0xFF0000")
  {
    RbAttrColorAsWrittenLemon(Some(c), REKORDBOX);
    RedHex(c);
  }

  lemma RedHex(c: Rgb)
    requires c == (255, 0, 0)
    ensures RekordboxWrite.ColorHex(c) == "0xFF0000"
  {
    RekordboxWrite.Format02xByte(255);
    RekordboxWrite.Format02xByte(0);
    var f, z := RekordboxWrite.Format02x(255), RekordboxWrite.Format02x(0);
    assert f == "ff";
    assert z == "00";
    var u := Upper(f + z + z);
    assert |u| == 6;
    assert u == "FF0000";
  }

  // ----- rb_reindex_loops -----

  /** rb_reindex_loops: from Serato DJ Pro, the cues followed by the loops
      moved to their pads; from any other program, no markers at all. */
  function RbReindexed(markers: seq<AMarker>, software: ASoftware): (r: seq<AMarker>)
    ensures software != SERATO_DJ_PRO ==> r == []
  {
    if software == SERATO_DJ_PRO then
      var cues := Cues(markers);
      var loops := Loops(markers);
      cues + Reindex(loops, LoopBase(|cues|, |loops|))
    else []
  }

  /** rb_reindex_loops as the source runs it, appending the loops one by
      one. */
  method RbReindexLoops(markers: seq<AMarker>, software: ASoftware) returns (r: seq<AMarker>)
    ensures r == RbReindexed(markers, software)
  {
    r := [];
    if software == SERATO_DJ_PRO {
      var cues := Cues(markers);
      var loops := Loops(markers);
      var i := if |cues| + |loops| <= 8 then 8 - |loops| else |cues|;
      r := AppendReindexed(cues, loops, i);
    }
  }

  /** From Serato DJ Pro this writer lays the markers out as the converter's
      own re-indexing does, whose layout SeratoReindexedLayout states. */
  lemma RbReindexedSerato(markers: seq<AMarker>, trans: ATransformation)
    requires trans.source.software == SERATO_DJ_PRO
    ensures RbReindexed(markers, SERATO_DJ_PRO) == Reindexed(markers, trans)
  {
  }

  /** From any other program this writer drops every marker, where the
      converter's re-indexing keeps them as they are. */
  lemma RbReindexedDropsOthers(markers: seq<AMarker>, trans: ATransformation)
    requires trans.source.software != SERATO_DJ_PRO
    ensures RbReindexed(markers, trans.source.software) == []
    ensures Reindexed(markers, trans) == markers
  {
  }

  // ----- rb_battito -----

  /** Python's a % b on floats: the remainder has the sign of b. */
  function RealMod(a: real, b: real): (r: real)
    requires b != 0.0
    ensures b > 0.0 ==> 0.0 <= r < b
  {
    var q := (a / b).Floor as real;
    if b > 0.0 then
      FloorBounds(a, b, a / b, q);
      a - b * q
    else a - b * q
  }

  lemma FloorBounds(a: real, b: real, x: real, q: real)
    requires b > 0.0 && x == a / b && q == x.Floor as real
    ensures b * q <= a < b * q + b
  {
    var y := x - q;
    assert 0.0 <= y < 1.0;
    ScaleUnit(b, y);
    DivMul(a, b);
    Distrib(b, x, q);
    var u, v, w := b * y, b * x, b * q;
    assert u < b && v == a && u == v - w;
  }

  lemma DivMul(a: real, b: real)
    requires b != 0.0
    ensures b * (a / b) == a
  {
  }

  lemma Distrib(b: real, x: real, q: real)
    ensures b * (x - q) == b * x - b * q
  {
  }

  lemma ScaleUnit(b: real, y: real)
    requires b > 0.0 && 0.0 <= y < 1.0
    ensures 0.0 <= b * y < b
  {
  }

  /** int() of a float: truncation toward zero. */
  function Trunc(x: real): (n: int)
    ensures x >= 0.0 ==> n == x.Floor
    ensures 0.0 <= x < 1.0 ==> n == 0
  {
    if x >= 0.0 then x.Floor else -((-x).Floor)
  }

  /** The battito after the first k steps: it starts at 1 and each step
      adds its beats and takes the remainder modulo the bar. */
  function BattitoAfter(bpms: seq<ABeatGridBPM>, k: nat, battiti: real): (r: real)
    requires k == 0 || k < |bpms|
    requires battiti > 0.0
    ensures k > 0 ==> 0.0 <= r < battiti
  {
    if k == 0 then 1.0
    else RealMod(BattitoAfter(bpms, k - 1, battiti) + RekordboxWrite.StepBeats(bpms, k - 1), battiti)
  }

  /** rb_battito as written: the running value is reduced modulo the bar
      after every step and truncated at the end, so it lies in 0 .. bar - 1
      once a step has been taken; the first change gives 1. Walking
      bpms[:idx] reads point i + 1 for every i, so a slice that reaches the
      last point fails with IndexError; a bar of 0 is a ZeroDivisionError as
      soon as a step is taken. A negative bar is not modelled. */
  function RbBattitoAsWritten(bpms: seq<ABeatGridBPM>, idx: int, battiti: nat): (r: Result<int>)
    ensures var k := RekordboxWrite.SliceLen(|bpms|, idx);
      r.Err? <==> k > 0 && (k == |bpms| || battiti == 0)
    ensures RekordboxWrite.SliceLen(|bpms|, idx) == 0 ==> r == Ok(1)
    ensures r.Ok? && RekordboxWrite.SliceLen(|bpms|, idx) > 0 ==> 0 <= r.value < battiti
  {
    var k := RekordboxWrite.SliceLen(|bpms|, idx);
    if k == 0 then Ok(1)
    else if |bpms| == 1 then Err(IndexError)
    else if battiti == 0 then Err(ZeroDivisionError)
    else if k == |bpms| then Err(IndexError)
    else
      var b := BattitoAfter(bpms, k, battiti as real);
      assert (b.Floor as real) <= b < battiti as real;
      Ok(Trunc(b))
  }

  /** rb_battito as the source computes it, in a loop. */
  method RbBattitoAsWrittenLoop(bpms: seq<ABeatGridBPM>, idx: int, battiti: nat) returns (r: Result<int>)
    ensures r == RbBattitoAsWritten(bpms, idx, battiti)
  {
    var k := RekordboxWrite.SliceLen(|bpms|, idx);
    var battito := 1.0;
    for i := 0 to k
      invariant i == 0 || i < |bpms|
      invariant i > 0 ==> battiti > 0
      invariant battiti > 0 ==> battito == BattitoAfter(bpms, i, battiti as real)
      invariant i == 0 ==> battito == 1.0
    {
      if i + 1 >= |bpms| {
        return Err(IndexError);
      }
      var dt := bpms[i + 1].position - bpms[i].position;
      var dbeats := bpms[i].bpm * dt / 60.0;
      if battiti == 0 {
        return Err(ZeroDivisionError);
      }
      assert dbeats == RekordboxWrite.StepBeats(bpms, i);
      battito := RealMod(battito + dbeats, battiti as real);
    }
    r := Ok(Trunc(battito));
  }

  /** Three beats of 4/4 from the start of the bar give 0 here, where the
      writer of rekordbox/write.py gives the fourth beat. */
  lemma RbBattitoAsWrittenZero(bpms: seq<ABeatGridBPM>)
    requires bpms == [ABeatGridBPM(0.0, 120.0, (4, 4)), ABeatGridBPM(1.5, 120.0, (4, 4)),
                      ABeatGridBPM(3.0, 120.0, (4, 4))]
    ensures RbBattitoAsWritten(bpms, 1, 4) == Ok(0)
    ensures RekordboxWrite.RbBattito(bpms, 1) == Ok(4)
  {
    assert RekordboxWrite.StepBeats(bpms, 0) == 3.0;
    assert BattitoAfter(bpms, 1, 4.0) == RealMod(4.0, 4.0);
    assert (4.0 / 4.0).Floor == 1;
    assert RekordboxWrite.Beats(bpms, 1) == 3.0;
    Decimal.RoundWhole(3);
  }
}
