// The Serato Overview tag: version 01 05, then the waveform overview as
// rows of 16 bytes.

module Overview {
  import opened Wrappers
  import opened Bytes

  const ROW: nat := 16

  /** The rows read from pos on: chunks of 16 bytes until the stream is
      empty; a shorter final chunk fails the length assertion. */
  function Rows(data: seq<byte>, pos: nat): (r: Result<seq<seq<byte>>>)
    requires pos <= |data|
    decreases |data| - pos
  {
    var (x, next) := ReadN(data, pos, ROW);
    if x == [] then Ok([])
    else if |x| != ROW then Err(AssertionError)
    else Prepend([x], Rows(data, next))
  }

  /** overview.parse drained into a list: a two-byte version that must be
      (1, 5), then the rows. */
  function Parse(data: seq<byte>): (r: Result<seq<seq<byte>>>)
  {
    if |data| < 2 then Err(StructError)
    else if data[0] != 0x01 || data[1] != 0x05 then Err(AssertionError)
    else Rows(data, 2)
  }

  /** The rows from pos on exist exactly when the rest is a whole number of
      rows, and then row j is the j-th 16-byte slice. */
  lemma {:induction false} RowsLayout(data: seq<byte>, pos: nat)
    requires pos <= |data|
    ensures Rows(data, pos).Ok? <==> (|data| - pos) % ROW == 0
    ensures Rows(data, pos).Ok? ==>
      var r := Rows(data, pos).value;
      |r| == (|data| - pos) / ROW
      && forall j :: 0 <= j < |r| ==> r[j] == data[pos + ROW * j..pos + ROW * j + ROW]
    decreases |data| - pos
  {
    var (x, next) := ReadN(data, pos, ROW);
    if x != [] && |x| == ROW {
      RowsLayout(data, next);
      assert next == pos + ROW;
      var rest := Rows(data, next);
      if rest.Ok? {
        var r := Rows(data, pos).value;
        assert r == [x] + rest.value;
        forall j | 0 <= j < |r| ensures r[j] == data[pos + ROW * j..pos + ROW * j + ROW] {
          if j > 0 {
            assert r[j] == rest.value[j - 1];
            assert next + ROW * (j - 1) == pos + ROW * j;
          }
        }
      }
    }
  }

  /** What parse accepts and returns: a (1, 5) header followed by a whole
      number of rows, returned in order; their count is (len - 2) / 16. */
  lemma ParseLayout(data: seq<byte>)
    ensures Parse(data).Ok? <==> |data| >= 2 && data[0] == 0x01 && data[1] == 0x05 && (|data| - 2) % ROW == 0
    ensures Parse(data).Ok? ==>
      var r := Parse(data).value;
      |r| == (|data| - 2) / ROW
      && forall j :: 0 <= j < |r| ==> r[j] == data[2 + ROW * j..2 + ROW * j + ROW]
  {
    if |data| >= 2 && data[0] == 0x01 && data[1] == 0x05 {
      RowsLayout(data, 2);
    }
  }

  /** The generator of parse, drained: read 16 bytes until the stream is
      exhausted. */
  method ParseOverview(data: seq<byte>) returns (r: Result<seq<seq<byte>>>)
    ensures r == Parse(data)
  {
    if |data| < 2 {
      return Err(StructError);
    }
    if data[0] != 0x01 || data[1] != 0x05 {
      return Err(AssertionError);
    }
    var pos: nat := 2;
    var out: seq<seq<byte>> := [];
    PrependNone(Rows(data, pos));
    while true
      invariant pos <= |data|
      invariant Parse(data) == Prepend(out, Rows(data, pos))
      decreases |data| - pos
    {
      var (x, next) := ReadN(data, pos, ROW);
      if x == [] {
        assert out + [] == out;
        return Ok(out);
      }
      if |x| != ROW {
        return Err(AssertionError);
      }
      PrependAssoc(out, [x], Rows(data, next));
      out := out + [x];
      pos := next;
    }
  }
}
