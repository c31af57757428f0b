// The Serato BeatGrid tag: version 01 00, a big-endian marker count N, N
// eight-byte markers (the last one terminal) and one footer byte.

module Beatgrid {
  import opened Wrappers
  import opened Bytes

  /** An IEEE-754 single as struct packs it ('>f'): four bytes, kept opaque. */
  type F32 = w: seq<byte> | |w| == 4 witness [0, 0, 0, 0]

  /** The three namedtuples of the tag. The position and bpm fields have type
      P: F32 words as parse reads them, reals where the writer computes them. */
  datatype Item<P> =
    | NonTerminal(position: P, beatsTillNextMarker: int)
    | Terminal(position: P, bpm: P)
    | Footer(unknown: int)

  /** A beat grid in the order the tag stores it: non-terminal markers, then
      the terminal marker when there is any marker, then the footer. */
  predicate Ordered<P>(items: seq<Item<P>>)
  {
    && |items| >= 1 && items[|items| - 1].Footer?
    && (|items| >= 2 ==> items[|items| - 2].Terminal?)
    && forall i :: 0 <= i < |items| - 2 ==> items[i].NonTerminal?
  }

  /** The byte length of a tag with n markers: header, count, eight bytes per
      marker, footer. */
  function TagSize(n: nat): nat
  {
    2 + 4 + 8 * n + 1
  }

  /** Item i of a tag that declares n markers, read straight from its offset:
      marker i at 6 + 8i, the footer after the last marker. */
  function ItemAt(data: seq<byte>, n: nat, i: nat): (it: Item<F32>)
    requires |data| >= TagSize(n) && i <= n
  {
    if i == n then Footer(data[6 + 8 * n] as int) else MarkerAt(data, n, i)
  }

  /** Marker i of n: its position word, then the beat count ('>I') or, for
      the last marker, the bpm word. */
  function MarkerAt(data: seq<byte>, n: nat, i: nat): (it: Item<F32>)
    requires i < n && 6 + 8 * i + 8 <= |data|
  {
    var at := 6 + 8 * i;
    var w: F32 := data[at..at + 4];
    var d: F32 := data[at + 4..at + 8];
    if i == n - 1 then Terminal(w, d) else NonTerminal(w, FromBE(d))
  }

  /** The generator from marker i of n on, read at pos; the footer after the
      last marker. Every short read is a struct.error. */
  function Records(buf: seq<byte>, pos: nat, i: nat, n: nat): (r: Result<seq<Item<F32>>>)
    requires pos <= |buf|
    decreases n - i
  {
    if i >= n then
      var (b, _) := ReadN(buf, pos, 1);
      if |b| != 1 then Err(StructError) else Ok([Footer(b[0] as int)])
    else
      var (w, p1) := ReadN(buf, pos, 4);
      if |w| != 4 then Err(StructError)
      else
        var (d, p2) := ReadN(buf, p1, 4);
        if |d| != 4 then Err(StructError)
        else
          var word: F32 := w;
          var second: F32 := d;
          var item: Item<F32> := if i == n - 1 then Terminal(word, second) else NonTerminal(word, FromBE(d));
          Prepend([item], Records(buf, p2, i + 1, n))
  }

  /** beatgrid.parse: version (1, 0), a '>I' count, the markers, the footer.
      Bytes after the footer are ignored. */
  function Parse(data: seq<byte>): (r: Result<seq<Item<F32>>>)
  {
    if |data| < 2 then Err(StructError)
    else if data[0] != 0x01 || data[1] != 0x00 then Err(AssertionError)
    else
      var (countBytes, pos) := ReadN(data, 2, 4);
      var n :- UnpackU32(countBytes);
      Records(data, pos, 0, n)
  }

  /** The declared marker count of a tag with a complete header. */
  function Count(data: seq<byte>): nat
    requires |data| >= 6
  {
    FromBE(data[2..6])
  }

  /** One step of the generator: eight bytes read as marker i. */
  lemma RecordsStep(buf: seq<byte>, i: nat, n: nat)
    requires i < n && 6 + 8 * i + 8 <= |buf|
    ensures Records(buf, 6 + 8 * i, i, n) == Prepend([MarkerAt(buf, n, i)], Records(buf, 6 + 8 * (i + 1), i + 1, n))
  {
    var pos := 6 + 8 * i;
    assert ReadN(buf, pos, 4) == (buf[pos..pos + 4], pos + 4);
    assert ReadN(buf, pos + 4, 4) == (buf[pos + 4..pos + 8], pos + 8);
  }

  /** Records from marker i on succeed exactly when the buffer holds the rest
      of the tag, and then give one item per remaining marker and the footer. */
  lemma {:induction false} RecordsSucceed(buf: seq<byte>, i: nat, n: nat)
    requires i <= n && 6 + 8 * i <= |buf|
    ensures var r := Records(buf, 6 + 8 * i, i, n);
      && (r.Ok? <==> |buf| >= TagSize(n))
      && (r.Ok? ==> |r.value| == n - i + 1)
    decreases n - i
  {
    var pos := 6 + 8 * i;
    if i < n {
      assert TagSize(n) >= pos + 8 + 1;
      if pos + 8 <= |buf| {
        RecordsStep(buf, i, n);
        RecordsSucceed(buf, i + 1, n);
      } else {
        RecordsShort(buf, i, n);
      }
    } else {
      assert TagSize(n) == pos + 1;
    }
  }

  /** A marker cut short by the end of the buffer is a struct.error. */
  lemma RecordsShort(buf: seq<byte>, i: nat, n: nat)
    requires i < n && 6 + 8 * i <= |buf| < 6 + 8 * i + 8
    ensures Records(buf, 6 + 8 * i, i, n) == Err(StructError)
  {
    var pos := 6 + 8 * i;
    var (w, p1) := ReadN(buf, pos, 4);
    if |w| == 4 {
      assert |ReadN(buf, p1, 4).0| < 4;
    }
  }

  /** items are the items of a complete tag from marker i on, each the one
      at its offset. */
  predicate LaidOut(items: seq<Item<F32>>, buf: seq<byte>, n: nat, i: nat)
    requires i <= n && |buf| >= TagSize(n)
  {
    |items| == n - i + 1 && forall j :: 0 <= j < |items| ==> items[j] == ItemAt(buf, n, i + j)
  }

  /** On a complete tag, the records from marker i on are laid out at their
      offsets. */
  lemma {:induction false} RecordsLayout(buf: seq<byte>, i: nat, n: nat)
    requires i <= n && |buf| >= TagSize(n)
    ensures Records(buf, 6 + 8 * i, i, n).Ok?
    ensures LaidOut(Records(buf, 6 + 8 * i, i, n).value, buf, n, i)
    decreases n - i
  {
    RecordsSucceed(buf, i, n);
    if i < n {
      var r := Records(buf, 6 + 8 * i, i, n);
      RecordsStep(buf, i, n);
      RecordsLayout(buf, i + 1, n);
      var rest := Records(buf, 6 + 8 * (i + 1), i + 1, n);
      assert r.value == [ItemAt(buf, n, i)] + rest.value;
      ItemsFrom(r.value, rest.value, buf, n, i);
    }
  }

  /** The items from marker i on: marker i, then the items from i + 1 on. */
  lemma ItemsFrom(r: seq<Item<F32>>, rest: seq<Item<F32>>, buf: seq<byte>, n: nat, i: nat)
    requires i < n && |buf| >= TagSize(n)
    requires r == [ItemAt(buf, n, i)] + rest
    requires LaidOut(rest, buf, n, i + 1)
    ensures LaidOut(r, buf, n, i)
  {
    forall j | 0 <= j < |r| ensures r[j] == ItemAt(buf, n, i + j) {
      if j > 0 {
        assert r[j] == rest[j - 1];
      }
    }
  }

  /** What parse accepts and what it returns: a complete header with version
      01 00 and at least the bytes of the declared markers and the footer;
      then N + 1 items, each read at its offset. */
  lemma ParseLayout(data: seq<byte>)
    ensures Parse(data).Ok? <==> |data| >= 6 && data[0] == 0x01 && data[1] == 0x00 && |data| >= TagSize(Count(data))
    ensures Parse(data).Ok? ==>
      && |Parse(data).value| == Count(data) + 1
      && forall i :: 0 <= i <= Count(data) ==> Parse(data).value[i] == ItemAt(data, Count(data), i)
  {
    if |data| >= 6 && data[0] == 0x01 && data[1] == 0x00 {
      var n := Count(data);
      assert Pow256(4) == 0x1_0000_0000;
      assert UnpackU32(data[2..6]) == Ok(n);
      RecordsSucceed(data, 0, n);
      if |data| >= TagSize(n) {
        RecordsLayout(data, 0, n);
      }
    }
  }

  /** The items parse returns are ordered as the tag promises: N - 1
      non-terminal markers, the terminal one, the footer; N = 0 gives the
      footer alone. */
  lemma ParseOrdered(data: seq<byte>)
    requires Parse(data).Ok?
    ensures Ordered(Parse(data).value)
    ensures Count(data) == 0 ==> |Parse(data).value| == 1
  {
    ParseLayout(data);
    var r := Parse(data).value;
    var n := Count(data);
    assert r[n] == ItemAt(data, n, n);
    if n >= 1 {
      assert r[n - 1] == ItemAt(data, n, n - 1);
    }
    forall i | 0 <= i < |r| - 2 ensures r[i].NonTerminal? {
      assert r[i] == ItemAt(data, n, i);
    }
  }

  /** beatgrid.parse drained into a list: the loop over range(num_markers)
      reading from a cursor, then the footer. */
  method ParseBeatgrid(data: seq<byte>) returns (r: Result<seq<Item<F32>>>)
    ensures r == Parse(data)
  {
    if |data| < 2 {
      return Err(StructError);
    }
    if data[0] != 0x01 || data[1] != 0x00 {
      return Err(AssertionError);
    }
    var (countBytes, pos) := ReadN(data, 2, 4);
    var count := UnpackU32(countBytes);
    if count.Err? {
      return Err(count.error);
    }
    var n := count.value;
    var out: seq<Item<F32>> := [];
    assert Prepend(out, Records(data, pos, 0, n)) == Records(data, pos, 0, n) by {
      var r0 := Records(data, pos, 0, n);
      if r0.Ok? {
        assert [] + r0.value == r0.value;
      }
    }
    for i := 0 to n
      invariant pos <= |data|
      invariant Parse(data) == Prepend(out, Records(data, pos, i, n))
    {
      var (w, p1) := ReadN(data, pos, 4);
      if |w| != 4 {
        return Err(StructError);
      }
      var (d, p2) := ReadN(data, p1, 4);
      if |d| != 4 {
        return Err(StructError);
      }
      var word: F32 := w;
      var second: F32 := d;
      var item: Item<F32>;
      if i == n - 1 {
        item := Terminal(word, second);
      } else {
        item := NonTerminal(word, FromBE(d));
      }
      PrependAssoc(out, [item], Records(data, p2, i + 1, n));
      out := out + [item];
      pos := p2;
    }
    var (b, _) := ReadN(data, pos, 1);
    if |b| != 1 {
      return Err(StructError);
    }
    return Ok(out + [Footer(b[0] as int)]);
  }
}
