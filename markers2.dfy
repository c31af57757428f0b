// The "Serato Markers2" tag: a version header, then base64 text whose
// decoded payload is a list of named, length-prefixed entries (cue points,
// loops, the track colour, the BPM lock flag, flips).

module Markers2 {
  import opened Wrappers
  import opened Bytes
  import opened Base64
  import Utf8
  import opened SeratoUtils

  /** An action of a flip: two or three big-endian doubles, kept as their
      eight-byte words. */
  datatype FlipAction = Jump(from: seq<byte>, to: seq<byte>) | Censor(a: seq<byte>, b: seq<byte>, c: seq<byte>)

  /** The entry classes. Single-byte 'c' fields are bytes; 'Ns' fields are
      byte strings, cut or NUL-padded to N when packed; integer fields may
      hold any int, and packing one out of range is a struct.error. */
  datatype Entry =
    | UnknownEntry(data: seq<byte>)
    | BpmLockEntry(enabled: bool)
    | ColorEntry(field1: byte, color: seq<byte>)
    | CueEntry(field1: byte, index: int, position: int, field4: byte, color: seq<byte>,
               field6: seq<byte>, name: string)
    | LoopEntry(field1: byte, index: int, startPosition: int, endPosition: int, field5: seq<byte>,
                loopField6: byte, color: seq<byte>, field8: byte, locked: bool, name: string)
    | FlipEntry(field1: byte, index: int, enabled: bool, name: string, loop: int,
                numActions: int, actions: seq<FlipAction>)

  /** The class an entry name selects. */
  datatype EntryKind = KUnknown | KBpmLock | KColor | KCue | KLoop | KFlip

  /** The NAME class attribute; UnknownEntry has none. */
  function KindName(k: EntryKind): Option<string>
  {
    match k
    case KUnknown => None
    case KBpmLock => Some("BPMLOCK")
    case KColor => Some("COLOR")
    case KCue => Some("CUE")
    case KLoop => Some("LOOP")
    case KFlip => Some("FLIP")
  }

  function KindOf(e: Entry): EntryKind
  {
    match e
    case UnknownEntry(_) => KUnknown
    case BpmLockEntry(_) => KBpmLock
    case ColorEntry(_, _) => KColor
    case CueEntry(_, _, _, _, _, _, _) => KCue
    case LoopEntry(_, _, _, _, _, _, _, _, _, _) => KLoop
    case FlipEntry(_, _, _, _, _, _, _) => KFlip
  }

  /** The classes get_entry_type tries, in order. */
  const KNOWN_KINDS: seq<EntryKind> := [KBpmLock, KColor, KCue, KLoop, KFlip]

  /** The class whose NAME equals the entry name, UnknownEntry if none does. */
  function EntryTypeOf(name: string): (k: EntryKind)
    ensures k != KUnknown ==> KindName(k) == Some(name)
    ensures k == KUnknown <==> forall k' :: KindName(k') != Some(name)
  {
    if name == "BPMLOCK" then KBpmLock
    else if name == "COLOR" then KColor
    else if name == "CUE" then KCue
    else if name == "LOOP" then KLoop
    else if name == "FLIP" then KFlip
    else KUnknown
  }

  /** Every known class is found under its own name. */
  lemma EntryTypeOfName(k: EntryKind)
    requires k != KUnknown
    ensures EntryTypeOf(KindName(k).value) == k
  {
  }

  /** get_entry_type: the first of the known classes whose NAME matches. */
  method GetEntryType(name: string) returns (k: EntryKind)
    ensures k == EntryTypeOf(name)
  {
    k := KUnknown;
    var j := 0;
    while j < |KNOWN_KINDS|
      invariant 0 <= j <= |KNOWN_KINDS|
      invariant forall i :: 0 <= i < j ==> KindName(KNOWN_KINDS[i]) != Some(name)
      invariant k == KUnknown
    {
      if KindName(KNOWN_KINDS[j]) == Some(name) {
        k := KNOWN_KINDS[j];
        EntryTypeOfName(k);
        return;
      }
      j := j + 1;
    }
    forall i | 0 <= i < |KNOWN_KINDS| ensures KindName(KNOWN_KINDS[i]).value != name {
    }
    assert name != "BPMLOCK" && name != "COLOR" && name != "CUE" && name != "LOOP" && name != "FLIP" by {
      assert KindName(KNOWN_KINDS[0]).value == "BPMLOCK";
      assert KindName(KNOWN_KINDS[1]).value == "COLOR";
      assert KindName(KNOWN_KINDS[2]).value == "CUE";
      assert KindName(KNOWN_KINDS[3]).value == "LOOP";
      assert KindName(KNOWN_KINDS[4]).value == "FLIP";
    }
  }

  // ----- per-class load -----

  /** '?' unpacking: any non-zero byte is True. */
  function Bool(b: byte): bool
  {
    b != 0
  }

  function BoolByte(v: bool): byte
  {
    if v then 1 else 0
  }

  /** The bytes before the first NUL of s and whether the NUL came last
      (data.partition(b'\x00') with both asserts): AssertionError when there
      is no NUL or something follows it. */
  function NameField(s: seq<byte>): (r: Result<string>)
    ensures r.Ok? ==> s == Utf8.Encode(r.value) + [NUL] && NUL !in Utf8.Encode(r.value)
  {
    var i := IndexOfFrom(s, NUL, 0);
    if i == -1 || i + 1 != |s| then Err(AssertionError)
    else
      assert NUL !in s[..i];
      assert s == s[..i] + [NUL];
      Utf8.Decode(s[..i])
  }

  function LoadBpmLock(data: seq<byte>): (r: Result<Entry>)
    ensures r.Ok? <==> |data| == 1
    ensures r.Ok? ==> r.value == BpmLockEntry(data[0] != 0)
  {
    if |data| != 1 then Err(StructError) else Ok(BpmLockEntry(Bool(data[0])))
  }

  function LoadColor(data: seq<byte>): (r: Result<Entry>)
    ensures r.Ok? <==> |data| == 4
    ensures r.Ok? ==> r.value == ColorEntry(data[0], data[1..4])
  {
    if |data| != 4 then Err(StructError) else Ok(ColorEntry(data[0], data[1..4]))
  }

  /** CueEntry.load: 12 fixed bytes ('>cBIc3s2s'), then the name and one
      NUL, nothing after it. */
  function LoadCue(data: seq<byte>): (r: Result<Entry>)
    ensures r.Ok? ==> |data| >= 12
  {
    if |data| < 12 then Err(StructError)
    else
      var name :- NameField(data[12..]);
      Ok(CueEntry(data[0], data[1] as int, FromBE(data[2..6]), data[6], data[7..10], data[10..12], name))
  }

  /** LoopEntry.load: 20 fixed bytes ('>cBII4sc3sc?'), then the name and one
      NUL, nothing after it. */
  function LoadLoop(data: seq<byte>): (r: Result<Entry>)
    ensures r.Ok? ==> |data| >= 20
  {
    if |data| < 20 then Err(StructError)
    else
      var name :- NameField(data[20..]);
      Ok(LoopEntry(data[0], data[1] as int, FromBE(data[2..6]), FromBE(data[6..10]), data[10..14],
                   data[14], data[15..18], data[18], Bool(data[19]), name))
  }

  /** One action from its type and payload: a jump holds two doubles, a
      censor three; other types are skipped. */
  function ActionOf(typeId: byte, payload: seq<byte>): (r: Result<seq<FlipAction>>)
    ensures r.Ok? ==> |r.value| <= 1
    ensures r.Ok? && r.value != [] ==> (typeId == 0 && |payload| == 16) || (typeId == 1 && |payload| == 24)
  {
    if typeId == 0 then
      if |payload| == 16 then Ok([Jump(payload[..8], payload[8..])]) else Err(StructError)
    else if typeId == 1 then
      if |payload| == 24 then Ok([Censor(payload[..8], payload[8..16], payload[16..])]) else Err(StructError)
    else Ok([])
  }

  /** The actions loop of FlipEntry.load: n actions, each a '>BI' header
      (type, size) and `size` bytes; type 0 must carry two doubles, type 1
      three, other types are skipped. Returns the actions and the bytes left. */
  function FlipActions(ad: seq<byte>, n: nat): (r: Result<(seq<FlipAction>, seq<byte>)>)
    ensures r.Ok? ==> |r.value.1| <= |ad|
    decreases n
  {
    if n == 0 then Ok(([], ad))
    else if |ad| < 5 then Err(StructError)
    else
      var size := FromBE(ad[1..5]);
      var body := ad[5..];
      var payload := if size <= |body| then body[..size] else body;
      var action :- ActionOf(ad[0], payload);
      var rest :- FlipActions(SliceFrom(body, size), n - 1);
      Ok((action + rest.0, rest.1))
  }

  /** FlipEntry.load. */
  function LoadFlip(data: seq<byte>): (r: Result<Entry>)
    ensures r.Ok? ==> |data| >= 9 && r.value.FlipEntry? && r.value.numActions >= |r.value.actions|
  {
    if |data| < 3 then Err(StructError)
    else
      var rest := data[3..];
      var i := IndexOfFrom(rest, NUL, 0);
      if i == -1 then Err(AssertionError)
      else
        var other := rest[i + 1..];
        if |other| < 5 then Err(StructError)
        else
          var num := FromBE(other[1..5]);
          var acts :- FlipActions(other[5..], num);
          if acts.1 != [] then Err(AssertionError)
          else
            var name :- Utf8.Decode(rest[..i]);
            FlipActionsCount(other[5..], num);
            Ok(FlipEntry(data[0], data[1] as int, Bool(data[2]), name, other[0] as int, num, acts.0))
  }

  lemma {:induction false} FlipActionsCount(ad: seq<byte>, n: nat)
    ensures FlipActions(ad, n).Ok? ==> |FlipActions(ad, n).value.0| <= n
    decreases n
  {
    if n > 0 && |ad| >= 5 {
      FlipActionsCount(SliceFrom(ad[5..], FromBE(ad[1..5])), n - 1);
    }
  }

  /** The actions loop of FlipEntry.load over its action bytes. */
  method ReadFlipActions(ad: seq<byte>, num: nat) returns (r: Result<(seq<FlipAction>, seq<byte>)>)
    ensures r == FlipActions(ad, num)
  {
    var actionData := ad;
    var actions: seq<FlipAction> := [];
    var k := 0;
    assert PrependActions([], FlipActions(ad, num)) == FlipActions(ad, num) by {
      var r0 := FlipActions(ad, num);
      if r0.Ok? {
        assert [] + r0.value.0 == r0.value.0;
      }
    }
    while k < num
      invariant 0 <= k <= num
      invariant FlipActions(ad, num) == PrependActions(actions, FlipActions(actionData, num - k))
    {
      if |actionData| < 5 {
        return Err(StructError);
      }
      var size := FromBE(actionData[1..5]);
      var body := actionData[5..];
      var payload := if size <= |body| then body[..size] else body;
      var step := ActionOf(actionData[0], payload);
      if step.Err? {
        return Err(step.error);
      }
      PrependActionsAssoc(actions, step.value, FlipActions(SliceFrom(body, size), num - k - 1));
      actions := actions + step.value;
      actionData := SliceFrom(body, size);
      k := k + 1;
    }
    assert FlipActions(actionData, 0) == Ok(([], actionData));
    assert actions + [] == actions;
    return Ok((actions, actionData));
  }

  /** FlipEntry.load. */
  method FlipLoad(data: seq<byte>) returns (r: Result<Entry>)
    ensures r == LoadFlip(data)
  {
    if |data| < 3 {
      return Err(StructError);
    }
    var rest := data[3..];
    var i := IndexOfFrom(rest, NUL, 0);
    if i == -1 {
      return Err(AssertionError);
    }
    var other := rest[i + 1..];
    if |other| < 5 {
      return Err(StructError);
    }
    var num := FromBE(other[1..5]);
    var acts := ReadFlipActions(other[5..], num);
    if acts.Err? {
      return Err(acts.error);
    }
    if acts.value.1 != [] {
      return Err(AssertionError);
    }
    var name := Utf8.Decode(rest[..i]);
    if name.Err? {
      return Err(name.error);
    }
    FlipActionsCount(other[5..], num);
    return Ok(FlipEntry(data[0], data[1] as int, Bool(data[2]), name.value, other[0] as int, num, acts.value.0));
  }

  function PrependActions(xs: seq<FlipAction>, r: Result<(seq<FlipAction>, seq<byte>)>): Result<(seq<FlipAction>, seq<byte>)>
  {
    if r.Ok? then Ok((xs + r.value.0, r.value.1)) else r
  }

  lemma PrependActionsAssoc(xs: seq<FlipAction>, ys: seq<FlipAction>, r: Result<(seq<FlipAction>, seq<byte>)>)
    ensures PrependActions(xs, PrependActions(ys, r)) == PrependActions(xs + ys, r)
  {
    if r.Ok? {
      assert xs + (ys + r.value.0) == (xs + ys) + r.value.0;
    }
  }

  /** entry_type.load(data) for the class an entry name selected. */
  function LoadEntry(k: EntryKind, data: seq<byte>): (r: Result<Entry>)
    ensures r.Ok? ==> KindOf(r.value) == k
  {
    match k
    case KUnknown => Ok(UnknownEntry(data))
    case KBpmLock => LoadBpmLock(data)
    case KColor => LoadColor(data)
    case KCue => LoadCue(data)
    case KLoop => LoadLoop(data)
    case KFlip => LoadFlip(data)
  }

  // ----- per-class dump -----

  predicate InByte(n: int) { 0 <= n < 0x100 }
  predicate InU32(n: int) { 0 <= n < 0x1_0000_0000 }

  /** The name as cues and loops store it: UTF-8 and a terminating NUL. */
  function NameBytes(name: string): seq<byte>
  {
    Utf8.Encode(name) + [NUL]
  }

  /** struct.pack('>cBIc3s2s', ...): the fixed part of a cue. */
  function CueFixed(field1: byte, index: int, position: int, field4: byte, color: seq<byte>, field6: seq<byte>): (h: seq<byte>)
    requires InByte(index) && InU32(position)
    ensures |h| == 12
  {
    [field1, index as bv8] + PackU32(position) + [field4] + FixedBytes(color, 3) + FixedBytes(field6, 2)
  }

  /** struct.pack('>cBII4sc3sc?', ...): the fixed part of a loop. */
  function LoopFixed(field1: byte, index: int, startPosition: int, endPosition: int, field5: seq<byte>,
                     loopField6: byte, color: seq<byte>, field8: byte, locked: bool): (h: seq<byte>)
    requires InByte(index) && InU32(startPosition) && InU32(endPosition)
    ensures |h| == 20
  {
    [field1, index as bv8] + PackU32(startPosition) + PackU32(endPosition) + FixedBytes(field5, 4)
    + [loopField6] + FixedBytes(color, 3) + [field8, BoolByte(locked)]
  }

  /** entry.dump(): struct.pack of the fixed fields, then for cues and loops
      the UTF-8 name and a NUL. An unknown entry dumps its payload; a flip
      raises NotImplementedError; an integer out of its field's range is a
      struct.error. */
  function DumpEntry(e: Entry): (r: Result<seq<byte>>)
    ensures e.FlipEntry? <==> r == Err(NotImplementedError)
    ensures e.UnknownEntry? ==> r == Ok(e.data)
  {
    match e
    case UnknownEntry(data) => Ok(data)
    case BpmLockEntry(enabled) => Ok([BoolByte(enabled)])
    case ColorEntry(field1, color) => Ok([field1] + FixedBytes(color, 3))
    case CueEntry(field1, index, position, field4, color, field6, name) =>
      if !InByte(index) || !InU32(position) then Err(StructError)
      else Ok(CueFixed(field1, index, position, field4, color, field6) + NameBytes(name))
    case LoopEntry(field1, index, startPosition, endPosition, field5, loopField6, color, field8, locked, name) =>
      if !InByte(index) || !InU32(startPosition) || !InU32(endPosition) then Err(StructError)
      else Ok(LoopFixed(field1, index, startPosition, endPosition, field5, loopField6, color, field8, locked) + NameBytes(name))
    case FlipEntry(_, _, _, _, _, _, _) => Err(NotImplementedError)
  }

  /** An entry that dump() writes and load() reads back unchanged: integers in
      range, byte strings of their packed width, names free of NUL. */
  predicate Dumpable(e: Entry)
  {
    match e
    case UnknownEntry(_) => true
    case BpmLockEntry(_) => true
    case ColorEntry(_, color) => |color| == 3
    case CueEntry(_, index, position, _, color, field6, name) =>
      InByte(index) && InU32(position) && |color| == 3 && |field6| == 2 && '\0' !in name
    case LoopEntry(_, index, s, t, field5, _, color, _, _, name) =>
      InByte(index) && InU32(s) && InU32(t) && |field5| == 4 && |color| == 3 && '\0' !in name
    case FlipEntry(_, _, _, _, _, _, _) => false
  }

  lemma NameFieldWritten(name: string)
    requires '\0' !in name
    ensures NameField(NameBytes(name)) == Ok(name)
  {
    var b := Utf8.Encode(name);
    var s := b + [NUL];
    Utf8.EncodeNoNul(name);
    assert s[|b|] == NUL;
    assert forall i :: 0 <= i < |b| ==> s[i] == b[i];
    assert IndexOfFrom(s, NUL, 0) == |b|;
    assert s[..|b|] == b;
    Utf8.DecodeEncode(name);
  }

  /** The fields of a packed cue header. */
  lemma CueFixedFields(field1: byte, index: int, position: int, field4: byte, color: seq<byte>, field6: seq<byte>)
    requires InByte(index) && InU32(position)
    ensures var h := CueFixed(field1, index, position, field4, color, field6);
      h[0] == field1 && h[1] as int == index && FromBE(h[2..6]) == position && h[6] == field4
      && h[7..10] == FixedBytes(color, 3) && h[10..12] == FixedBytes(field6, 2)
  {
    ByteValue(index);
    var p := PackU32(position);
    var h := CueFixed(field1, index, position, field4, color, field6);
    var c, f := FixedBytes(color, 3), FixedBytes(field6, 2);
    var a := [field1, index as bv8] + p + [field4] + c;
    assert |a| == 10 && h == a + f;
    assert h[10..12] == f;
    assert h[..10] == a;
    assert h[2..6] == a[2..6] == p;
    assert h[7..10] == a[7..10] == c;
    assert h[0] == field1 && h[6] == field4;
    assert h[1] as int == index;
  }

  /** Any twelve bytes are the packed header of the cue they unpack to. */
  lemma CueFixedOf(d: seq<byte>)
    requires |d| >= 12
    ensures FromBE(d[2..6]) < 0x1_0000_0000
    ensures CueFixed(d[0], d[1] as int, FromBE(d[2..6]), d[6], d[7..10], d[10..12]) == d[..12]
  {
    PackU32FromBE(d[2..6]);
    assert d[..12] == [d[0], d[1]] + d[2..6] + [d[6]] + d[7..10] + d[10..12];
  }

  /** The fields of a packed loop header. */
  lemma LoopFixedFields(field1: byte, index: int, s: int, t: int, field5: seq<byte>,
                        f6: byte, color: seq<byte>, field8: byte, locked: bool)
    requires InByte(index) && InU32(s) && InU32(t)
    ensures var h := LoopFixed(field1, index, s, t, field5, f6, color, field8, locked);
      h[0] == field1 && h[1] as int == index && FromBE(h[2..6]) == s && FromBE(h[6..10]) == t
      && h[10..14] == FixedBytes(field5, 4) && h[14] == f6 && h[15..18] == FixedBytes(color, 3)
      && h[18] == field8 && h[19] == BoolByte(locked)
  {
    ByteValue(index);
    var ps, pt := PackU32(s), PackU32(t);
    var h := LoopFixed(field1, index, s, t, field5, f6, color, field8, locked);
    var tail := FixedBytes(field5, 4) + [f6] + FixedBytes(color, 3) + [field8, BoolByte(locked)];
    assert h == [field1, index as bv8] + ps + (pt + tail);
    Middle([field1, index as bv8], ps, pt + tail);
    assert h == ([field1, index as bv8] + ps) + pt + tail;
    Middle([field1, index as bv8] + ps, pt, tail);
  }

  /** Twenty bytes are the packed header of the loop they unpack to exactly
      when the locked byte is 0 or 1. */
  lemma LoopFixedOf(d: seq<byte>)
    requires |d| >= 20
    ensures FromBE(d[2..6]) < 0x1_0000_0000 && FromBE(d[6..10]) < 0x1_0000_0000
    ensures LoopFixed(d[0], d[1] as int, FromBE(d[2..6]), FromBE(d[6..10]), d[10..14], d[14], d[15..18], d[18], Bool(d[19])) == d[..20]
            <==> d[19] == 0 || d[19] == 1
  {
    PackU32FromBE(d[2..6]);
    PackU32FromBE(d[6..10]);
    var h := LoopFixed(d[0], d[1] as int, FromBE(d[2..6]), FromBE(d[6..10]), d[10..14], d[14], d[15..18], d[18], Bool(d[19]));
    var h18 := [d[0], d[1]] + d[2..6] + d[6..10] + d[10..14] + [d[14]] + d[15..18];
    assert h == h18 + [d[18], BoolByte(Bool(d[19]))];
    assert h[19] == BoolByte(Bool(d[19]));
    if d[19] == 0 || d[19] == 1 {
      assert d[..2] == [d[0], d[1]];
      assert d[..6] == d[..2] + d[2..6];
      assert d[..10] == d[..6] + d[6..10];
      assert d[..14] == d[..10] + d[10..14];
      assert d[..15] == d[..14] + [d[14]];
      assert d[..18] == d[..15] + d[15..18];
      assert d[..20] == d[..18] + [d[18], d[19]];
    }
  }

  /** A cue payload is read field by field from its first twelve bytes and
      the name after them. */
  lemma LoadCueParts(h: seq<byte>, t: seq<byte>, name: string)
    requires |h| == 12 && NameField(t) == Ok(name)
    ensures LoadCue(h + t) == Ok(CueEntry(h[0], h[1] as int, FromBE(h[2..6]), h[6], h[7..10], h[10..12], name))
  {
    var d := h + t;
    assert d[12..] == t;
    assert d[0] == h[0] && d[1] == h[1] && d[6] == h[6];
    assert d[2..6] == h[2..6] && d[7..10] == h[7..10] && d[10..12] == h[10..12];
  }

  /** A loop payload is read field by field from its first twenty bytes and
      the name after them. */
  lemma LoadLoopParts(h: seq<byte>, t: seq<byte>, name: string)
    requires |h| == 20 && NameField(t) == Ok(name)
    ensures LoadLoop(h + t) == Ok(LoopEntry(h[0], h[1] as int, FromBE(h[2..6]), FromBE(h[6..10]), h[10..14],
                                            h[14], h[15..18], h[18], Bool(h[19]), name))
  {
    var d := h + t;
    assert d[20..] == t;
    assert d[0] == h[0] && d[1] == h[1] && d[14] == h[14] && d[18] == h[18] && d[19] == h[19];
    assert d[2..6] == h[2..6] && d[6..10] == h[6..10] && d[10..14] == h[10..14] && d[15..18] == h[15..18];
  }

  lemma LoadDumpCue(e: Entry)
    requires e.CueEntry? && Dumpable(e)
    ensures DumpEntry(e).Ok? && LoadEntry(KindOf(e), DumpEntry(e).value) == Ok(e)
  {
    var h := CueFixed(e.field1, e.index, e.position, e.field4, e.color, e.field6);
    CueFixedFields(e.field1, e.index, e.position, e.field4, e.color, e.field6);
    assert DumpEntry(e) == Ok(h + NameBytes(e.name));
    NameFieldWritten(e.name);
    LoadCueParts(h, NameBytes(e.name), e.name);
    assert e.color[..3] == e.color && e.field6[..2] == e.field6;
  }

  lemma LoadDumpLoop(e: Entry)
    requires e.LoopEntry? && Dumpable(e)
    ensures DumpEntry(e).Ok? && LoadEntry(KindOf(e), DumpEntry(e).value) == Ok(e)
  {
    var LoopEntry(f1, index, s, t, f5, f6, color, f8, locked, name) := e;
    var b := LoopFixed(f1, index, s, t, f5, f6, color, f8, locked) + NameBytes(name);
    assert DumpEntry(e) == Ok(b);
    LoopWritten(f1, index, s, t, f5, f6, color, f8, locked, name);
    LoadEntryLoop(b, e);
  }

  lemma LoadEntryLoop(b: seq<byte>, e: Entry)
    requires LoadLoop(b) == Ok(e)
    ensures LoadEntry(KLoop, b) == Ok(e)
  {
  }

  /** A packed loop header and its name load as the loop's fields. */
  lemma LoopWritten(f1: byte, index: int, s: int, t: int, f5: seq<byte>, f6: byte, color: seq<byte>,
                    f8: byte, locked: bool, name: string)
    requires InByte(index) && InU32(s) && InU32(t) && |f5| == 4 && |color| == 3 && '\0' !in name
    ensures LoadLoop(LoopFixed(f1, index, s, t, f5, f6, color, f8, locked) + NameBytes(name))
            == Ok(LoopEntry(f1, index, s, t, f5, f6, color, f8, locked, name))
  {
    var h := LoopFixed(f1, index, s, t, f5, f6, color, f8, locked);
    LoopFixedFields(f1, index, s, t, f5, f6, color, f8, locked);
    NameFieldWritten(name);
    LoadLoopParts(h, NameBytes(name), name);
    assert f5[..4] == f5 && color[..3] == color;
    assert Bool(BoolByte(locked)) == locked;
  }

  /** load(dump(e)) == e for every entry dump() accepts. */
  lemma LoadDump(e: Entry)
    requires Dumpable(e)
    ensures DumpEntry(e).Ok? && LoadEntry(KindOf(e), DumpEntry(e).value) == Ok(e)
  {
    if e.ColorEntry? {
      LoadDumpColor(e);
    } else if e.CueEntry? {
      LoadDumpCue(e);
    } else if e.LoopEntry? {
      LoadDumpLoop(e);
    }
  }

  lemma LoadDumpColor(e: Entry)
    requires e.ColorEntry? && Dumpable(e)
    ensures DumpEntry(e).Ok? && LoadEntry(KindOf(e), DumpEntry(e).value) == Ok(e)
  {
    assert e.color[..3] == e.color;
    assert ([e.field1] + e.color)[1..4] == e.color;
  }

  /** dump(load(d)) == d for cue payloads: the cue layout loses nothing. */
  lemma DumpLoadCue(d: seq<byte>)
    requires LoadCue(d).Ok?
    ensures DumpEntry(LoadCue(d).value) == Ok(d)
  {
    var name := NameField(d[12..]).value;
    CueFixedOf(d);
    var h := CueFixed(d[0], d[1] as int, FromBE(d[2..6]), d[6], d[7..10], d[10..12]);
    assert DumpEntry(LoadCue(d).value) == Ok(h + d[12..]);
    PrefixSplit(d, h);
  }

  /** dump(load(d)) == d for loop payloads exactly when the locked byte is
      0 or 1. */
  lemma DumpLoadLoop(d: seq<byte>)
    requires LoadLoop(d).Ok?
    ensures DumpEntry(LoadLoop(d).value) == Ok(d) <==> d[19] == 0 || d[19] == 1
  {
    var name := NameField(d[20..]).value;
    LoopFixedOf(d);
    var h := LoopFixed(d[0], d[1] as int, FromBE(d[2..6]), FromBE(d[6..10]), d[10..14], d[14], d[15..18], d[18], Bool(d[19]));
    assert DumpEntry(LoadLoop(d).value) == Ok(h + d[20..]);
    PrefixSplit(d, h);
  }

  /** dump(load(d)) == d for colour payloads. */
  lemma DumpLoadColor(d: seq<byte>)
    requires LoadColor(d).Ok?
    ensures DumpEntry(LoadColor(d).value) == Ok(d)
  {
    assert d[1..4][..3] == d[1..4];
    assert d == [d[0]] + d[1..4];
  }

  /** dump(load(d)) == d for a BPM lock payload exactly when its byte is 0 or 1. */
  lemma DumpLoadBpmLock(d: seq<byte>)
    requires LoadBpmLock(d).Ok?
    ensures DumpEntry(LoadBpmLock(d).value) == Ok(d) <==> d[0] == 0 || d[0] == 1
  {
    assert d == [d[0]];
    assert DumpEntry(LoadBpmLock(d).value) == Ok([BoolByte(d[0] != 0)]);
  }

  // ----- the tag -----

  /** The entries of a decoded payload from position pos: a NUL-terminated
      UTF-8 name (an empty name ends the list), a big-endian u32 length that
      must be positive, and that many bytes (fewer at the end of the data)
      for the entry's load. */
  function Entries(buf: seq<byte>, pos: nat): (r: Result<seq<Entry>>)
    requires pos <= |buf|
    decreases |buf| - pos
  {
    var (nameBytes, p1) := CString(buf, pos);
    var name :- Utf8.Decode(nameBytes);
    if name == [] then Ok([])
    else
      var (lenBytes, p2) := ReadN(buf, p1, 4);
      var len :- UnpackU32(lenBytes);
      if len == 0 then Err(AssertionError)
      else
        var (payload, p3) := ReadN(buf, p2, len);
        var e :- LoadEntry(EntryTypeOf(name), payload);
        Prepend([e], Entries(buf, p3))
  }

  /** The base64 text of the tag: from byte 2 to the first NUL after it,
      newlines removed; ValueError when no NUL follows. */
  function Markers2Text(data: seq<byte>): (r: Result<seq<byte>>)
    requires |data| >= 2
    ensures r.Ok? ==> LF !in r.value
  {
    var idx := IndexOfFrom(data, NUL, 2);
    if idx == -1 then Err(ValueError)
    else
      RemoveByte(data[2..idx], LF);
      Ok(RemoveAll(data[2..idx], [LF]))
  }

  /** markers2.parse. */
  function Parse(data: seq<byte>): (r: Result<seq<Entry>>)
  {
    if |data| < 2 then Err(StructError)
    else if data[0] != 1 || data[1] != 1 then Err(AssertionError)
    else
      var text :- Markers2Text(data);
      var payload :- Decode(text + Padding(|text|));
      if |payload| < 2 then Err(StructError)
      else if payload[0] != 1 || payload[1] != 1 then Err(AssertionError)
      else Entries(payload, 2)
  }

  /** markers2.parse as the loop over a BytesIO cursor it is. */
  method ParseMarkers2(data: seq<byte>) returns (r: Result<seq<Entry>>)
    ensures r == Parse(data)
  {
    if |data| < 2 {
      return Err(StructError);
    }
    if data[0] != 1 || data[1] != 1 {
      return Err(AssertionError);
    }
    var text := Markers2Text(data);
    if text.Err? {
      return Err(text.error);
    }
    var decoded := Decode(text.value + Padding(|text.value|));
    if decoded.Err? {
      return Err(decoded.error);
    }
    var payload := decoded.value;
    if |payload| < 2 {
      return Err(StructError);
    }
    if payload[0] != 1 || payload[1] != 1 {
      return Err(AssertionError);
    }
    var out: seq<Entry> := [];
    var pos := 2;
    assert Prepend(out, Entries(payload, 2)) == Entries(payload, 2) by {
      var r := Entries(payload, 2);
      if r.Ok? {
        assert [] + r.value == r.value;
      }
    }
    while true
      invariant 2 <= pos <= |payload|
      invariant Entries(payload, 2) == Prepend(out, Entries(payload, pos))
      decreases |payload| - pos
    {
      var e, next := NextEntry(payload, pos);
      if e.Err? {
        return Err(e.error);
      }
      if e.value.None? {
        assert out + [] == out;
        return Ok(out);
      }
      PrependStep(Entries(payload, 2), out, Entries(payload, pos), e.value.value, Entries(payload, next));
      out := out + [e.value.value];
      pos := next;
    }
  }

  /** One round of the loop of markers2.parse: the name, the length and the
      entry's load; None at the empty name that ends the list. */
  method NextEntry(buf: seq<byte>, pos: nat) returns (e: Result<Option<Entry>>, next: nat)
    requires pos <= |buf|
    ensures e.Err? ==> Entries(buf, pos) == Err(e.error)
    ensures e == Ok(None) ==> Entries(buf, pos) == Ok([])
    ensures e.Ok? && e.value.Some? ==>
      pos < next <= |buf| && Entries(buf, pos) == Prepend([e.value.value], Entries(buf, next))
  {
    next := pos;
    var nameBytes, p1 := ReadBytes(buf, pos);
    var name := Utf8.Decode(nameBytes);
    if name.Err? {
      return Err(name.error), next;
    }
    if name.value == [] {
      return Ok(None), next;
    }
    var (lenBytes, p2) := ReadN(buf, p1, 4);
    var len := UnpackU32(lenBytes);
    if len.Err? {
      return Err(len.error), next;
    }
    if len.value == 0 {
      return Err(AssertionError), next;
    }
    var kind := GetEntryType(name.value);
    var (chunk, p3) := ReadN(buf, p2, len.value);
    var r: Result<Entry>;
    if kind == KFlip {
      r := FlipLoad(chunk);
    } else {
      r := LoadEntry(kind, chunk);
    }
    if r.Err? {
      return Err(r.error), next;
    }
    return Ok(Some(r.value)), p3;
  }
}
