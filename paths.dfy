/** POSIX paths as `pathlib.PurePosixPath` sees them: an optional root and a list
    of components, with empty and "." components dropped when a string is parsed. */
module Paths {
  import opened PyText

  datatype Path = Path(absolute: bool, parts: seq<string>)

  /** The components pathlib keeps from the pieces between slashes. */
  function KeepParts(pieces: seq<string>): (kept: seq<string>)
    ensures |kept| <= |pieces|
    ensures forall k :: 0 <= k < |kept| ==> kept[k] in pieces && kept[k] != "" && kept[k] != "."
  {
    if |pieces| == 0 then []
    else if pieces[0] == "" || pieces[0] == "." then KeepParts(pieces[1..])
    else [pieces[0]] + KeepParts(pieces[1..])
  }

  /** Pieces are kept or dropped one at a time, in order: appending a piece appends it
      to the kept components unless it is empty or ".". */
  lemma {:induction false} KeepPartsSnoc(pieces: seq<string>, p: string)
    ensures KeepParts(pieces + [p]) == KeepParts(pieces) + (if p == "" || p == "." then [] else [p])
  {
    if |pieces| == 0 {
      assert pieces + [p] == [p];
    } else {
      assert (pieces + [p])[1..] == pieces[1..] + [p];
      KeepPartsSnoc(pieces[1..], p);
    }
  }

  /** `PurePosixPath(s)`: rooted exactly when `s` starts with a slash, and in normal form. */
  function ParsePath(s: string): (r: Path)
    ensures r.absolute <==> |s| > 0 && s[0] == '/'
    ensures Normal(r)
  {
    var pieces := Split(s, '/');
    var kept := KeepParts(pieces);
    assert forall k :: 0 <= k < |kept| ==> '/' !in kept[k];
    Path(|s| > 0 && s[0] == '/', kept)
  }

  /** `str(p)`: the root, then the components joined by slashes; "." for no components.
      For a normal path the text is never empty and starts with a slash exactly when
      the path is rooted. */
  function PathString(p: Path): (r: string)
    ensures p.absolute ==> |r| > 0 && r[0] == '/'
    ensures Normal(p) ==> |r| > 0 && (r[0] == '/' <==> p.absolute)
  {
    if p.absolute then "/" + Join(p.parts, "/")
    else if p.parts == [] then "."
    else
      var first := p.parts[0];
      var j := Join(p.parts, "/");
      JoinEnds(p.parts, "/");
      assert Normal(p) ==> first != "" && '/' !in first;
      assert first != "" ==> j[0] == j[..|first|][0] == first[0];
      j
  }

  /** `p / s`: an absolute right-hand side replaces the left one. */
  function JoinPath(p: Path, s: string): (r: Path)
    ensures ParsePath(s).absolute ==> r == ParsePath(s)
    ensures !ParsePath(s).absolute ==> r.absolute == p.absolute && r.parts == p.parts + ParsePath(s).parts
  {
    var q := ParsePath(s);
    if q.absolute then q else Path(p.absolute, p.parts + q.parts)
  }

  /** A path in the form pathlib produces: no empty or "." component, no slash in one. */
  predicate Normal(p: Path) {
    forall k :: 0 <= k < |p.parts| ==> p.parts[k] != "" && p.parts[k] != "." && '/' !in p.parts[k]
  }

  lemma {:induction false} KeepNormalParts(ps: seq<string>)
    requires forall k :: 0 <= k < |ps| ==> ps[k] != "" && ps[k] != "."
    ensures KeepParts(ps) == ps
  {
    if |ps| > 0 {
      KeepNormalParts(ps[1..]);
    }
  }

  /** Parsing the string form of a normal path gives the path back. */
  lemma ParsePathString(p: Path)
    requires Normal(p)
    ensures ParsePath(PathString(p)) == p
  {
    if p.absolute {
      ParseAbsoluteJoin(p.parts);
    } else if p.parts == [] {
      SplitNoSeparator(".", '/');
      assert KeepParts(["."]) == [];
    } else {
      ParseRelativeJoin(p.parts);
    }
  }

  /** Components joined by slashes parse back to a relative path of those components. */
  lemma ParseRelativeJoin(parts: seq<string>)
    requires Normal(Path(false, parts)) && |parts| > 0
    ensures ParsePath(Join(parts, "/")) == Path(false, parts)
  {
    var j := Join(parts, "/");
    SplitJoin(parts, '/');
    KeepNormalParts(parts);
    JoinEnds(parts, "/");
    assert |parts[0]| > 0 && j[..|parts[0]|] == parts[0];
    assert j[0] != '/';
  }

  /** A slash followed by components joined by slashes parses back to an absolute path
      of those components. */
  lemma ParseAbsoluteJoin(parts: seq<string>)
    requires Normal(Path(true, parts))
    ensures ParsePath("/" + Join(parts, "/")) == Path(true, parts)
  {
    var j := Join(parts, "/");
    SplitAtFirst("", '/', j);
    assert "" + ['/'] + j == "/" + j;
    if parts == [] {
      assert Split(j, '/') == [""];
      assert KeepParts([""] + [""]) == [];
    } else {
      SplitJoin(parts, '/');
      KeepNormalParts(parts);
      assert KeepParts([""] + parts) == KeepParts(parts);
    }
  }

  /** The string form of a parsed path is a fixed point: parsing it again changes nothing. */
  lemma NormaliseIdempotent(s: string)
    ensures ParsePath(PathString(ParsePath(s))) == ParsePath(s)
  {
    ParsePathString(ParsePath(s));
  }
}
