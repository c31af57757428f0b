// Byte strings as the modelled code handles them: Python `bytes` values,
// big-endian integers packed with `struct`, `bytes.find` and `bytes.replace`.

module Bytes {
  import opened Wrappers

  type byte = bv8
  type u16 = n: int | 0 <= n < 0x1_0000
  type u32 = n: int | 0 <= n < 0x1_0000_0000

  const NUL: byte := 0x00
  const LF: byte := 0x0A        // '\n'
  const EQUALS: byte := 0x3D    // '='
  const UPPER_A: byte := 0x41   // 'A'

  /** The bytes of a Python ASCII literal such as b'Serato Markers2'. */
  function Ascii(s: string): (r: seq<byte>)
    requires forall i :: 0 <= i < |s| ==> s[i] as int < 128
    ensures |r| == |s|
  {
    seq(|s|, i requires 0 <= i < |s| => (s[i] as int) as bv8)
  }

  /** ASCII text without NUL characters encodes to bytes without NUL, each
      byte the code of its character. */
  lemma AsciiNoNul(s: string)
    requires forall i :: 0 <= i < |s| ==> 0 < s[i] as int < 128
    ensures forall i :: 0 <= i < |s| ==> Ascii(s)[i] as int == s[i] as int
    ensures NUL !in Ascii(s)
  {
    forall i | 0 <= i < |s| ensures Ascii(s)[i] as int == s[i] as int {
      ByteValue(s[i] as int);
    }
  }

  lemma AsciiInjective(s: string, t: string)
    requires forall i :: 0 <= i < |s| ==> s[i] as int < 128
    requires forall i :: 0 <= i < |t| ==> t[i] as int < 128
    ensures Ascii(s) == Ascii(t) ==> s == t
  {
    if Ascii(s) == Ascii(t) {
      forall i | 0 <= i < |s| ensures s[i] == t[i] {
        ByteValue(s[i] as int);
        ByteValue(t[i] as int);
        assert Ascii(s)[i] == Ascii(t)[i];
      }
    }
  }

  /** A run of n NUL bytes, Python's b'\x00' * n. */
  function Zeros(n: int): (r: seq<byte>)
    ensures |r| == if n < 0 then 0 else n
    ensures forall i :: 0 <= i < |r| ==> r[i] == NUL
  {
    if n <= 0 then [] else Zeros(n - 1) + [NUL]
  }

  /** Converting a byte value to bv8 and back is the identity. The case split
      into ranges of sixteen keeps each bit-vector query small. */
  lemma ByteValue(k: int)
    requires 0 <= k < 256
    ensures (k as bv8) as int == k
  {
    if k < 128 {
      if k < 64 {
        if k < 32 {
          if k < 16 { } else { }
        } else {
          if k < 48 { } else { }
        }
      } else {
        if k < 96 {
          if k < 80 { } else { }
        } else {
          if k < 112 { } else { }
        }
      }
    } else {
      if k < 192 {
        if k < 160 {
          if k < 144 { } else { }
        } else {
          if k < 176 { } else { }
        }
      } else {
        if k < 224 {
          if k < 208 { } else { }
        } else {
          if k < 240 { } else { }
        }
      }
    }
  }

  // ----- big-endian unsigned integers -----

  function Pow256(k: nat): (r: nat)
    ensures r > 0
  {
    if k == 0 then 1 else 256 * Pow256(k - 1)
  }

  /** The unsigned integer that s spells out in big-endian byte order. */
  function FromBE(s: seq<byte>): (n: nat)
    ensures n < Pow256(|s|)
  {
    if s == [] then 0 else FromBE(s[..|s| - 1]) * 256 + s[|s| - 1] as int
  }

  /** The k-byte big-endian representation of n (struct's '>H', '>I'). */
  function ToBE(n: nat, k: nat): (s: seq<byte>)
    requires n < Pow256(k)
    ensures |s| == k
  {
    if k == 0 then [] else ToBE(n / 256, k - 1) + [(n % 256) as bv8]
  }

  lemma {:induction false} FromToBE(n: nat, k: nat)
    requires n < Pow256(k)
    ensures FromBE(ToBE(n, k)) == n
  {
    if k > 0 {
      var s := ToBE(n, k);
      assert s[..k - 1] == ToBE(n / 256, k - 1);
      FromToBE(n / 256, k - 1);
      ByteValue(n % 256);
    }
  }

  lemma {:induction false} ToFromBE(s: seq<byte>)
    ensures ToBE(FromBE(s), |s|) == s
  {
    if s != [] {
      var p := s[..|s| - 1];
      assert FromBE(s) / 256 == FromBE(p);
      ToFromBE(p);
    }
  }

  lemma ShiftByte(h: int, k: int, a: int, l: int)
    ensures (h * k + a) * 256 + l == h * (256 * k) + a * 256 + l
  {
  }

  /** The first byte of a big-endian number weighs 256 to the power of the
      number of bytes after it. */
  lemma {:induction false} FromBEFront(s: seq<byte>)
    requires |s| >= 1
    ensures FromBE(s) == s[0] as int * Pow256(|s| - 1) + FromBE(s[1..])
  {
    if |s| > 1 {
      var p := s[..|s| - 1];
      var last := s[|s| - 1] as int;
      FromBEFront(p);
      assert p[1..] == s[1..][..|s| - 2];
      assert FromBE(s[1..]) == FromBE(p[1..]) * 256 + last;
      ShiftByte(s[0] as int, Pow256(|s| - 2), FromBE(p[1..]), last);
    }
  }

  /** The low bytes of a big-endian u32: dropping the first byte keeps the
      value modulo 2^24. */
  lemma LowBytesU32(s: seq<byte>)
    requires |s| == 4
    ensures FromBE(s[1..]) == FromBE(s) % 0x100_0000
    ensures FromBE([NUL] + s[1..]) == FromBE(s[1..])
  {
    FromBEFront(s);
    assert Pow256(3) == 0x100_0000;
    var hi, lo := s[0] as int, FromBE(s[1..]);
    assert FromBE(s) == hi * 0x100_0000 + lo && 0 <= lo < 0x100_0000;
    assert FromBE(s) % 0x100_0000 == lo;
    var t := [NUL] + s[1..];
    FromBEFront(t);
    assert t[1..] == s[1..];
  }

  /** struct.pack('>I', n). */
  function PackU32(n: u32): (r: seq<byte>)
    ensures |r| == 4 && FromBE(r) == n
  {
    assert Pow256(4) == 0x1_0000_0000;
    FromToBE(n, 4);
    ToBE(n, 4)
  }

  /** struct.unpack('>I', s)[0]: exactly four bytes, or struct.error. */
  function UnpackU32(s: seq<byte>): (r: Result<u32>)
    ensures r.Ok? <==> |s| == 4
    ensures r.Ok? ==> PackU32(r.value) == s
  {
    if |s| != 4 then Err(StructError)
    else
      assert Pow256(4) == 0x1_0000_0000;
      ToFromBE(s);
      Ok(FromBE(s))
  }

  /** struct.pack('>H', n). */
  function PackU16(n: u16): (r: seq<byte>)
    ensures |r| == 2 && FromBE(r) == n
  {
    assert Pow256(2) == 0x1_0000;
    FromToBE(n, 2);
    ToBE(n, 2)
  }

  /** struct.unpack('>H', s)[0]: exactly two bytes, or struct.error. */
  function UnpackU16(s: seq<byte>): (r: Result<u16>)
    ensures r.Ok? <==> |s| == 2
    ensures r.Ok? ==> PackU16(r.value) == s
  {
    if |s| != 2 then Err(StructError)
    else
      assert Pow256(2) == 0x1_0000;
      ToFromBE(s);
      Ok(FromBE(s))
  }

  lemma UnpackPackU32(n: u32)
    ensures UnpackU32(PackU32(n)) == Ok(n)
  {
    var r := UnpackU32(PackU32(n));
    assert FromBE(PackU32(n)) == n;
  }

  /** Four bytes are the packing of the number they spell. */
  lemma PackU32FromBE(s: seq<byte>)
    requires |s| == 4
    ensures FromBE(s) < 0x1_0000_0000 && PackU32(FromBE(s)) == s
  {
    assert Pow256(4) == 0x1_0000_0000;
    ToFromBE(s);
  }

  lemma UnpackPackU16(n: u16)
    ensures UnpackU16(PackU16(n)) == Ok(n)
  {
    var r := UnpackU16(PackU16(n));
    assert FromBE(PackU16(n)) == n;
  }

  // ----- slicing and BytesIO reads -----

  /** s[i:] for a non-negative i: empty once i passes the end. */
  function SliceFrom(s: seq<byte>, i: nat): (r: seq<byte>)
    ensures i <= |s| ==> r == s[i..]
    ensures i >= |s| ==> r == []
  {
    if i <= |s| then s[i..] else []
  }

  /** BytesIO.read(n) at position pos: up to n bytes, fewer at the end of
      the buffer, and the position after them. */
  function ReadN(buf: seq<byte>, pos: nat, n: nat): (r: (seq<byte>, nat))
    requires pos <= |buf|
    ensures r.1 == pos + |r.0| <= |buf|
    ensures |r.0| == if pos + n <= |buf| then n else |buf| - pos
    ensures r.0 == buf[pos..r.1]
  {
    var e := if pos + n <= |buf| then pos + n else |buf|;
    (buf[pos..e], e)
  }

  /** The bytes x sit in buf from pos on. */
  predicate BytesAt(buf: seq<byte>, pos: nat, x: seq<byte>)
    decreases |x|
  {
    pos + |x| <= |buf| && (x == [] || (buf[pos] == x[0] && BytesAt(buf, pos + 1, x[1..])))
  }

  /** BytesAt, byte by byte. */
  lemma {:induction false} BytesAtEach(buf: seq<byte>, pos: nat, x: seq<byte>)
    ensures BytesAt(buf, pos, x) <==> pos + |x| <= |buf| && forall i :: 0 <= i < |x| ==> buf[pos + i] == x[i]
    decreases |x|
  {
    if x != [] && pos + |x| <= |buf| {
      BytesAtEach(buf, pos + 1, x[1..]);
      if forall i :: 0 <= i < |x| ==> buf[pos + i] == x[i] {
        forall i | 0 <= i < |x| - 1 ensures buf[pos + 1 + i] == x[1..][i] {
          assert buf[pos + (i + 1)] == x[i + 1];
        }
      }
      if BytesAt(buf, pos, x) {
        forall i | 0 <= i < |x| ensures buf[pos + i] == x[i] {
          if i > 0 {
            assert buf[pos + 1 + (i - 1)] == x[1..][i - 1];
          }
        }
      }
    }
  }

  /** A concatenation sits in buf as its two parts, one after the other. */
  lemma {:induction false} BytesAtSplit(buf: seq<byte>, pos: nat, x: seq<byte>, y: seq<byte>, mid: nat)
    requires BytesAt(buf, pos, x + y) && mid == pos + |x|
    ensures BytesAt(buf, pos, x) && BytesAt(buf, mid, y)
  {
    BytesAtEach(buf, pos, x + y);
    BytesAtEach(buf, pos, x);
    BytesAtEach(buf, mid, y);
    forall i | 0 <= i < |x| ensures buf[pos + i] == x[i] {
      assert (x + y)[i] == x[i];
    }
    forall i | 0 <= i < |y| ensures buf[pos + |x| + i] == y[i] {
      assert (x + y)[|x| + i] == y[i];
    }
  }

  /** The end of a concatenation sits in it after the front. */
  lemma {:induction false} BytesAtEnd(a: seq<byte>, x: seq<byte>)
    ensures BytesAt(a + x, |a|, x)
  {
    BytesAtEach(a + x, |a|, x);
    forall i | 0 <= i < |x| ensures (a + x)[|a| + i] == x[i] {
    }
  }

  /** read(n) at the start of n bytes gives them. */
  lemma {:induction false} ReadNAt(buf: seq<byte>, pos: nat, x: seq<byte>)
    requires BytesAt(buf, pos, x)
    ensures ReadN(buf, pos, |x|) == (x, pos + |x|)
  {
    BytesAtEach(buf, pos, x);
    var r := buf[pos..pos + |x|];
    forall i | 0 <= i < |x| ensures r[i] == x[i] {
      assert r[i] == buf[pos + i];
    }
    assert r == x;
  }

  /** struct's 'Ns' packing: the bytes cut or NUL-padded to exactly n. */
  function FixedBytes(s: seq<byte>, n: nat): (r: seq<byte>)
    ensures |r| == n
    ensures |s| >= n ==> r == s[..n]
    ensures |s| < n ==> r == s + Zeros(n - |s|)
  {
    if |s| >= n then s[..n] else s + Zeros(n - |s|)
  }

  /** The middle of a concatenation. */
  lemma {:induction false} Middle(a: seq<byte>, m: seq<byte>, c: seq<byte>)
    ensures (a + m + c)[|a|..|a| + |m|] == m
  {
  }

  /** A prefix in front of the rest of d gives d exactly when it is d's
      own prefix. */
  lemma PrefixSplit(d: seq<byte>, h: seq<byte>)
    requires |h| <= |d|
    ensures h + d[|h|..] == d <==> h == d[..|h|]
  {
    if h == d[..|h|] {
      assert d == d[..|h|] + d[|h|..];
    }
    if h + d[|h|..] == d {
      assert (h + d[|h|..])[..|h|] == h;
    }
  }

  /** The first index at or after `from` holding b, or -1 (bytes.find of a
      single byte; bytes.index raises where this gives -1). */
  function IndexOfFrom(s: seq<byte>, b: byte, from: nat): (r: int)
    ensures r == -1 ==> forall i :: from <= i < |s| ==> s[i] != b
    ensures r != -1 ==> from <= r < |s| && s[r] == b && forall i :: from <= i < r ==> s[i] != b
    decreases |s| - from
  {
    if from >= |s| then -1
    else if s[from] == b then from
    else IndexOfFrom(s, b, from + 1)
  }

  // ----- bytes.find -----

  predicate OccursAt(s: seq<byte>, p: seq<byte>, i: int)
  {
    0 <= i && i + |p| <= |s| && s[i..i + |p|] == p
  }

  /** bytes.find(p, start): the first occurrence of p at or after `start`, or -1. */
  function FindFrom(s: seq<byte>, p: seq<byte>, start: nat): (r: int)
    ensures r == -1 || (start <= r && OccursAt(s, p, r))
    ensures r == -1 ==> forall i :: start <= i ==> !OccursAt(s, p, i)
    ensures r >= 0 ==> forall i :: start <= i < r ==> !OccursAt(s, p, i)
    decreases |s| - start
  {
    if start + |p| > |s| then -1
    else if s[start..start + |p|] == p then start
    else FindFrom(s, p, start + 1)
  }

  /** bytes.find(p): the first occurrence of p in s, or -1. */
  function Find(s: seq<byte>, p: seq<byte>): (r: int)
    ensures r == -1 || OccursAt(s, p, r)
    ensures r == -1 ==> forall i :: !OccursAt(s, p, i)
    ensures r >= 0 ==> forall i :: 0 <= i < r ==> !OccursAt(s, p, i)
  {
    FindFrom(s, p, 0)
  }

  // ----- bytes.replace(p, b'') -----

  /** s.replace(p, b''): scanning left to right, every non-overlapping
      occurrence of p is deleted. */
  function RemoveAll(s: seq<byte>, p: seq<byte>): (r: seq<byte>)
    requires |p| > 0
    ensures |r| <= |s|
    decreases |s|
  {
    if |s| < |p| then s
    else if s[..|p|] == p then RemoveAll(s[|p|..], p)
    else [s[0]] + RemoveAll(s[1..], p)
  }

  /** Deleting a single byte value deletes all of them and keeps the rest. */
  lemma {:induction false} RemoveByte(s: seq<byte>, c: byte)
    ensures forall i :: 0 <= i < |RemoveAll(s, [c])| ==> RemoveAll(s, [c])[i] != c
    ensures (forall i :: 0 <= i < |s| ==> s[i] != c) ==> RemoveAll(s, [c]) == s
  {
    if |s| >= 1 {
      RemoveByte(s[1..], c);
      if s[..1] != [c] {
        assert s == [s[0]] + s[1..];
      }
    }
  }

  /** Deleting a single byte value commutes with concatenation. */
  lemma {:induction false} RemoveByteAppend(a: seq<byte>, b: seq<byte>, c: byte)
    ensures RemoveAll(a + b, [c]) == RemoveAll(a, [c]) + RemoveAll(b, [c])
  {
    if a != [] {
      assert (a + b)[1..] == a[1..] + b;
      assert (a + b)[..1] == a[..1];
      RemoveByteAppend(a[1..], b, c);
    } else {
      assert a + b == b;
    }
  }

  /** When no occurrence of p can start inside a (a holds no byte equal to
      p's last byte, and for a two-byte p, b does not begin with that byte),
      deleting p from a + b leaves a untouched. */
  lemma {:induction false} RemoveAllKeepsPrefix(a: seq<byte>, b: seq<byte>, p: seq<byte>)
    requires 1 <= |p| <= 2
    requires forall i :: 0 <= i < |a| ==> a[i] != p[|p| - 1]
    requires |p| == 2 && |b| > 0 ==> b[0] != p[1]
    ensures RemoveAll(a + b, p) == a + RemoveAll(b, p)
  {
    if a != [] {
      var s := a + b;
      assert s[1..] == a[1..] + b;
      assert s[0] == a[0];
      if |s| >= |p| {
        if |p| == 1 {
          assert s[..|p|] != p by { assert s[..1][0] == a[0]; }
        } else {
          assert s[1] != p[1] by {
            if |a| == 1 { assert s[1] == b[0]; } else { assert s[1] == a[1]; }
          }
          assert s[..|p|] != p by { assert s[..2][1] == s[1]; }
        }
        assert RemoveAll(s, p) == [s[0]] + RemoveAll(s[1..], p);
      }
      RemoveAllKeepsPrefix(a[1..], b, p);
      assert a == [a[0]] + a[1..];
    } else {
      assert a + b == b;
    }
  }
}
