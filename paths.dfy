// The part of pathlib the Traktor reader and path helpers rely on, with POSIX
// separators: a path as its anchor and its parts, parsing a text into a path,
// str(), the '/' operator, relative_to and is_relative_to.

module Paths {
  import opened Wrappers
  import opened Strings

  /** A pure path: its anchor ("/" for an absolute POSIX path, a drive and a
      root on Windows, "" for a relative path) and its parts after the anchor. */
  datatype APath = APath(anchor: string, parts: seq<string>)

  /** PurePath.is_absolute. */
  predicate IsAbsolute(p: APath)
  {
    p.anchor != ""
  }

  /** A part as pathlib keeps it: not empty, not ".", no separator. */
  predicate IsPart(c: string)
  {
    c != "" && c != "." && '/' !in c
  }

  predicate WellFormed(p: APath)
  {
    forall i :: 0 <= i < |p.parts| ==> IsPart(p.parts[i])
  }

  /** The components of a split text that pathlib keeps: empty and "."
      components are dropped. */
  function Components(cs: seq<string>): (r: seq<string>)
    requires forall i :: 0 <= i < |cs| ==> '/' !in cs[i]
    ensures forall i :: 0 <= i < |r| ==> IsPart(r[i])
  {
    if cs == [] then []
    else
      var rest := Components(cs[1..]);
      if cs[0] == "" || cs[0] == "." then rest else [cs[0]] + rest
  }

  /** The anchor PurePosixPath gives a text: exactly two leading slashes
      are kept as the anchor "//", one or three and more become "/". */
  function Anchor(s: string): (a: string)
    ensures a == "" <==> |s| == 0 || s[0] != '/'
  {
    if |s| >= 2 && s[0] == '/' && s[1] == '/' && (|s| == 2 || s[2] != '/') then "//"
    else if |s| > 0 && s[0] == '/' then "/"
    else ""
  }

  /** PurePosixPath(s): the leading slashes are the anchor; the text is cut
      at every '/'. */
  function Parse(s: string): (p: APath)
    ensures WellFormed(p)
    ensures IsAbsolute(p) <==> |s| > 0 && s[0] == '/'
  {
    APath(Anchor(s), Components(Split(s, '/')))
  }

  /** str(p): the anchor followed by the '/'-joined parts; "." for the empty
      relative path. */
  function Str(p: APath): string
  {
    if p.parts == [] then (if p.anchor == "" then "." else p.anchor)
    else p.anchor + Join(p.parts, '/')
  }

  /** p / q: q itself when q is absolute, else q's parts added to p's. */
  function Div(p: APath, q: APath): APath
  {
    if IsAbsolute(q) then q else APath(p.anchor, p.parts + q.parts)
  }

  /** PurePath.is_relative_to: the same anchor and q's parts leading p's. */
  predicate IsRelativeTo(p: APath, q: APath)
  {
    p.anchor == q.anchor && |q.parts| <= |p.parts| && p.parts[..|q.parts|] == q.parts
  }

  /** PurePath.relative_to: the parts of p after those of q, as a relative
      path, or ValueError when p does not lie under q. */
  function RelativeTo(p: APath, q: APath): (r: Result<APath>)
    ensures r.Ok? <==> IsRelativeTo(p, q)
    ensures r.Err? ==> r.error == ValueError
    ensures r.Ok? ==> !IsAbsolute(r.value) && Div(q, r.value) == p
  {
    if IsRelativeTo(p, q) then
      assert p.parts == q.parts + p.parts[|q.parts|..];
      Ok(APath("", p.parts[|q.parts|..]))
    else Err(ValueError)
  }

  /** Splitting a text that starts with the separator gives an empty first
      part. */
  lemma SplitLeading(s: string, sep: char)
    ensures Split([sep] + s, sep) == [""] + Split(s, sep)
  {
    assert IndexOf([sep] + s, sep) == 0;
    assert ([sep] + s)[1..] == s;
  }

  /** Components of a split text, taken piecewise. */
  lemma {:induction false} ComponentsAppend(a: seq<string>, b: seq<string>)
    requires forall i :: 0 <= i < |a| ==> '/' !in a[i]
    requires forall i :: 0 <= i < |b| ==> '/' !in b[i]
    ensures Components(a + b) == Components(a) + Components(b)
  {
    if a != [] {
      assert (a + b)[0] == a[0];
      assert (a + b)[1..] == a[1..] + b;
      ComponentsAppend(a[1..], b);
      if a[0] != "" && a[0] != "." {
        assert Components(a + b) == [a[0]] + Components(a[1..] + b);
      }
    } else {
      assert a + b == b;
    }
  }

  lemma {:induction false} ComponentsOfParts(cs: seq<string>)
    requires forall i :: 0 <= i < |cs| ==> cs[i] != "" && cs[i] != "." && '/' !in cs[i]
    ensures Components(cs) == cs
  {
    if cs != [] {
      ComponentsOfParts(cs[1..]);
    }
  }

  /** Parsing the text of a well-formed POSIX path gives the path back. */
  lemma ParseStr(p: APath)
    requires WellFormed(p) && (p.anchor == "/" || p.anchor == "//" || p.anchor == "")
    ensures Parse(Str(p)) == p
  {
    if p.parts == [] {
      ParseAnchorOnly(p.anchor);
    } else {
      var j := Join(p.parts, '/');
      SplitJoin(p.parts, '/');
      ComponentsOfParts(p.parts);
      JoinHead(p.parts);
      ParseSlashes(j);
      if p.anchor == "" {
        assert Str(p) == j;
      } else if p.anchor == "/" {
        assert Str(p) == ['/'] + j;
      } else {
        assert Str(p) == ['/'] + (['/'] + j);
      }
    }
  }

  /** The text of a path without parts parses back to it. */
  lemma ParseAnchorOnly(a: string)
    requires a == "/" || a == "//" || a == ""
    ensures Parse(Str(APath(a, []))) == APath(a, [])
  {
    if a == "" {
      assert Split(".", '/') == ["."] by {
        assert IndexOf(".", '/') == 1;
      }
    } else {
      assert Split("/", '/') == ["", ""] by {
        SplitLeading("", '/');
        assert IndexOf("", '/') == 0;
      }
      assert Components(["", ""]) == [];
      if a == "//" {
        SplitLeading("/", '/');
        assert a == ['/'] + "/";
        assert Split(a, '/') == [""] + ["", ""];
        EmptyComponent(["", ""]);
      }
    }
  }

  /** One or two slashes before a text that does not start with one are the
      anchor and add no part. */
  lemma ParseSlashes(j: string)
    requires |j| > 0 && j[0] != '/'
    ensures Anchor(['/'] + j) == "/" && Anchor(['/'] + (['/'] + j)) == "//"
    ensures Components(Split(['/'] + j, '/')) == Components(Split(j, '/'))
    ensures Components(Split(['/'] + (['/'] + j), '/')) == Components(Split(j, '/'))
  {
    var a1 := ['/'] + j;
    var a2 := ['/'] + a1;
    assert a1[1] == j[0] && a2[2] == j[0];
    SplitLeading(j, '/');
    SplitLeading(a1, '/');
    EmptyComponent(Split(j, '/'));
    EmptyComponent(Split(a1, '/'));
  }

  lemma EmptyComponent(cs: seq<string>)
    requires forall i :: 0 <= i < |cs| ==> '/' !in cs[i]
    ensures Components([""] + cs) == Components(cs)
  {
    assert ([""] + cs)[1..] == cs;
  }

  /** The joined parts of a well-formed path start with a character other
      than '/'. */
  lemma JoinHead(parts: seq<string>)
    requires |parts| >= 1 && forall i :: 0 <= i < |parts| ==> IsPart(parts[i])
    ensures |Join(parts, '/')| > 0 && Join(parts, '/')[0] != '/'
  {
    var c := parts[0];
    assert IsPart(c) && c[0] in c;
    if |parts| > 1 {
      assert Join(parts, '/') == c + (['/'] + Join(parts[1..], '/'));
    }
  }
}
