/**
 * Unix paths as java.nio.file.Path holds them: an absolute flag and a
 * sequence of names, each non-empty and free of '/'.  Paths.get parses a
 * string into this form and Path.toString renders it back.
 */
module Paths {

  /** One name of a path (a component between separators). */
  type Name = s: string | s != [] && '/' !in s witness "x"

  datatype Path = Path(absolute: bool, names: seq<Name>)

  /** Index of the first '/' in s, or |s| when there is none. */
  function SeparatorIndex(s: string): (k: nat)
    ensures k <= |s|
    ensures k < |s| ==> s[k] == '/'
    ensures forall i :: 0 <= i < k ==> s[i] != '/'
  {
    if s == [] || s[0] == '/' then 0 else 1 + SeparatorIndex(s[1..])
  }

  /** The names of s: its maximal runs without '/'; the empty runs that
      repeated, leading or trailing separators produce are dropped. */
  function Segments(s: string): seq<Name>
    decreases |s|
  {
    if s == [] then []
    else if s[0] == '/' then Segments(s[1..])
    else
      var k := SeparatorIndex(s);
      assert '/' !in s[..k] by {
        forall i | 0 <= i < k ensures s[..k][i] != '/' { }
      }
      [s[..k]] + Segments(s[k..])
  }

  /** Paths.get(s) on a Unix file system. */
  function Parse(s: string): Path
  {
    Path(|s| > 0 && s[0] == '/', Segments(s))
  }

  /** The names joined by single separators. */
  function Join(names: seq<Name>): string
  {
    if names == [] then ""
    else if |names| == 1 then names[0]
    else names[0] + "/" + Join(names[1..])
  }

  /** Path.toString. */
  function Render(p: Path): string
  {
    (if p.absolute then "/" else "") + Join(p.names)
  }

  /** Path.resolve with a single name: the name appended to the directory. */
  function Resolve(dir: Path, name: Name): (r: Path)
    ensures r.absolute == dir.absolute && |r.names| == |dir.names| + 1
    ensures FileName(r) == name && Parent(r) == dir
  {
    Path(dir.absolute, dir.names + [name])
  }

  /** Path.getFileName for a path with at least one name (Java returns
      null for the others). */
  function FileName(p: Path): Name
    requires p.names != []
  {
    p.names[|p.names| - 1]
  }

  /** The directory a path with at least one name lies in (unlike
      Path.getParent, a single relative name gives the empty relative path). */
  function Parent(p: Path): Path
    requires p.names != []
  {
    Path(p.absolute, p.names[..|p.names| - 1])
  }

  /** p is d or one of its ancestors. */
  predicate IsPrefixOf(p: Path, d: Path)
  {
    p.absolute == d.absolute && |p.names| <= |d.names| && p.names == d.names[..|p.names|]
  }

  /** p lies strictly below the directory d. */
  predicate IsUnder(p: Path, d: Path)
  {
    p.absolute == d.absolute && |d.names| < |p.names| && p.names[..|d.names|] == d.names
  }

  /** d and every one of its ancestors, down to the root (or to the
      empty relative path): what Files.createDirectories(d) makes exist. */
  function Prefixes(d: Path): (r: set<Path>)
    ensures forall p :: p in r <==> IsPrefixOf(p, d)
    decreases |d.names|
  {
    if d.names == [] then {d}
    else
      var up := Prefixes(Parent(d));
      assert forall p :: IsPrefixOf(p, d) && p != d ==> IsPrefixOf(p, Parent(d));
      up + {d}
  }

  /** Splitting a name followed by a separator (or by nothing) yields that name first. */
  lemma {:induction false} SegmentsOfName(c: Name, rest: string)
    requires rest == [] || rest[0] == '/'
    ensures Segments(c + rest) == [c] + Segments(rest)
  {
    SeparatorIndexOfName(c, rest);
    var s := c + rest;
    assert s[..|c|] == c && s[|c|..] == rest;
  }

  lemma {:induction false} SeparatorIndexOfName(c: string, rest: string)
    requires '/' !in c
    requires rest == [] || rest[0] == '/'
    ensures SeparatorIndex(c + rest) == |c|
    decreases |c|
  {
    if c != [] {
      assert (c + rest)[1..] == c[1..] + rest;
      SeparatorIndexOfName(c[1..], rest);
    }
  }

  /** Joining names and splitting the result gives the names back, with or
      without a leading separator. */
  lemma {:induction false} SegmentsOfJoin(names: seq<Name>)
    ensures Segments(Join(names)) == names
    ensures Segments("/" + Join(names)) == names
    decreases |names|
  {
    var s := Join(names);
    assert ("/" + s)[1..] == s;
    if |names| == 1 {
      SegmentsOfName(names[0], "");
      assert names[0] + "" == names[0];
    } else if |names| > 1 {
      SegmentsOfJoin(names[1..]);
      SegmentsOfName(names[0], "/" + Join(names[1..]));
      assert s == names[0] + ("/" + Join(names[1..]));
      assert [names[0]] + names[1..] == names;
    }
  }

  /** Paths.get(p.toString()) is p: a rendered path parses back to itself. */
  lemma {:induction false} ParseRender(p: Path)
    ensures Parse(Render(p)) == p
  {
    SegmentsOfJoin(p.names);
    JoinStartsWithName(p.names);
    var s := Render(p);
    if p.absolute {
      assert s == "/" + Join(p.names);
    } else {
      assert s == Join(p.names);
    }
  }

  /** Without a leading separator a joined path starts with its first name. */
  lemma {:induction false} JoinStartsWithName(names: seq<Name>)
    ensures names != [] ==> |Join(names)| > 0 && Join(names)[0] != '/'
  {
    if |names| > 1 {
      assert Join(names) == names[0] + ("/" + Join(names[1..]));
      assert Join(names)[0] == names[0][0];
    }
  }

  /** Distinct paths render to distinct strings. */
  lemma RenderInjective(p: Path, q: Path)
    requires Render(p) == Render(q)
    ensures p == q
  {
    ParseRender(p);
    ParseRender(q);
  }
}
