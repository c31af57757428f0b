// The Serato Analysis tag: the analysis version, two bytes, with a trailing
// NUL in FLAC and M4A files.

module Analysis {
  import opened Wrappers
  import opened Bytes

  /** The Analysis entry: its version as a list of small integers. */
  datatype Analysis = Analysis(version: seq<int>)

  /** The bytes of b as integers, as list(b) or a loop of b[n] gives them. */
  function Ints(b: seq<byte>): (v: seq<int>)
    ensures |v| == |b| && forall i :: 0 <= i < |b| ==> v[i] == b[i] as int
  {
    seq(|b|, i requires 0 <= i < |b| => b[i] as int)
  }

  /** analysis.parse: two bytes are the version; three bytes whose last is
      0 give the first two; anything else is a ValueError. The result is a
      one-element list. */
  function Parse(b: seq<byte>): (r: Result<seq<Analysis>>)
  {
    var v := Ints(b);
    if |v| == 3 && v[2] == 0 then Ok([Analysis(v[..2])])
    else if |v| == 2 then Ok([Analysis(v)])
    else Err(ValueError)
  }

  /** parse with its copying loop over the bytes. */
  method ParseAnalysis(b: seq<byte>) returns (r: Result<seq<Analysis>>)
    ensures r == Parse(b)
  {
    var v: seq<int> := [];
    for n := 0 to |b|
      invariant v == Ints(b[..n])
    {
      assert b[..n + 1] == b[..n] + [b[n]];
      v := v + [b[n] as int];
    }
    assert b[..|b|] == b;
    if |v| == 3 && v[2] == 0 {
      r := Ok([Analysis(v[..2])]);
    } else if |v| == 2 {
      r := Ok([Analysis(v)]);
    } else {
      r := Err(ValueError);
    }
  }

  /** What parse accepts, and that it returns exactly one entry whose
      version is the first two bytes. */
  lemma ParseCases(b: seq<byte>)
    ensures Parse(b).Ok? <==> |b| == 2 || (|b| == 3 && b[2] == 0)
    ensures Parse(b).Err? ==> Parse(b).error == ValueError
    ensures Parse(b).Ok? ==> |Parse(b).value| == 1 && Parse(b).value[0].version == Ints(b[..2])
  {
    if |b| == 2 {
      assert b[..2] == b;
    } else if |b| == 3 && b[2] == 0 {
      assert Ints(b)[..2] == Ints(b[..2]);
    }
  }
}
