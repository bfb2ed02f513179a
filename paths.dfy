/**
 * The POSIX behaviour of `os.path.join` (two arguments), `os.path.normpath`
 * and `os.path.abspath`, which decide every path the installer touches.
 */
module Paths {
  import opened Text

  predicate IsAbsolute(p: string)
  {
    IsPrefix("/", p)
  }

  /** `os.path.join(a, b)` */
  function Join(a: string, b: string): string
  {
    if IsAbsolute(b) then b
    else if a == [] || EndsWith(a, "/") then a + b
    else a + "/" + b
  }

  /**
   * An absolute second part replaces the first; otherwise the result starts
   * with `a` and ends with `b`, with one `/` between them unless `a` is empty
   * or ends with one already; an absolute `a` gives an absolute result.
   */
  lemma JoinSpec(a: string, b: string)
    ensures var r := Join(a, b);
      && (IsAbsolute(b) ==> r == b)
      && (!IsAbsolute(b) ==> EndsWith(r, b) && IsPrefix(a, r))
      && (!IsAbsolute(b) && a != [] && !EndsWith(a, "/") ==> r == a + "/" + b)
      && (IsAbsolute(a) ==> IsAbsolute(r))
  {
  }

  /**
   * The component walk of `normpath`: empty and `.` components vanish, `..`
   * removes the previous kept component; a `..` with nothing before it is
   * kept on a relative path and dropped at the root.
   */
  function NormComponents(comps: seq<string>, rooted: bool, kept: seq<string>): (r: seq<string>)
    requires forall j :: 0 <= j < |kept| ==> Plain(kept[j], rooted)
    ensures forall j :: 0 <= j < |r| ==> Plain(r[j], rooted)
    ensures |r| <= |kept| + |comps|
    decreases |comps|
  {
    if comps == [] then kept
    else
      var c := comps[0];
      var next :=
        if c == "" || c == "." then kept
        else if c != ".." || (!rooted && kept == []) || (kept != [] && kept[|kept| - 1] == "..") then kept + [c]
        else if kept != [] then kept[..|kept| - 1]
        else kept;
      NormComponents(comps[1..], rooted, next)
  }

  /** A component `normpath` can leave behind: never empty or `.`, and never `..` under the root. */
  predicate Plain(c: string, rooted: bool)
  {
    c != "" && c != "." && (rooted ==> c != "..")
  }

  /**
   * `os.path.normpath(p)`: one leading `/` is kept, as are exactly two (POSIX
   * leaves `//` alone), three or more become one; the components are
   * normalised by `NormComponents`; an empty result is `.`.
   */
  function Normpath(p: string): (r: string)
    ensures r != []
    ensures IsAbsolute(p) ==> IsAbsolute(r)
  {
    if p == [] then "."
    else
      var slashes := Root(p);
      var body := JoinWith(NormComponents(Split(p, '/'), slashes != "", []), '/');
      if slashes + body == [] then "." else slashes + body
  }

  /** At the root, a walk over components `normpath` keeps leaves them all, in order. */
  lemma {:induction false} NormComponentsPlain(comps: seq<string>, kept: seq<string>)
    requires forall j :: 0 <= j < |kept| ==> Plain(kept[j], true)
    requires forall j :: 0 <= j < |comps| ==> Plain(comps[j], true)
    ensures NormComponents(comps, true, kept) == kept + comps
    decreases |comps|
  {
    if comps != [] {
      NormComponentsPlain(comps[1..], kept + [comps[0]]);
      assert kept + [comps[0]] + comps[1..] == kept + comps;
    }
  }

  /** The component walk keeps only components it was given, so none holds a `/` when none did. */
  lemma {:induction false} NormComponentsNoSep(comps: seq<string>, rooted: bool, kept: seq<string>)
    requires forall j :: 0 <= j < |kept| ==> Plain(kept[j], rooted) && '/' !in kept[j]
    requires forall j :: 0 <= j < |comps| ==> '/' !in comps[j]
    ensures forall j :: 0 <= j < |NormComponents(comps, rooted, kept)| ==> '/' !in NormComponents(comps, rooted, kept)[j]
    decreases |comps|
  {
    if comps != [] {
      var c := comps[0];
      var next :=
        if c == "" || c == "." then kept
        else if c != ".." || (!rooted && kept == []) || (kept != [] && kept[|kept| - 1] == "..") then kept + [c]
        else if kept != [] then kept[..|kept| - 1]
        else kept;
      assert forall j :: 0 <= j < |next| ==> Plain(next[j], rooted) && '/' !in next[j];
      assert NormComponents(comps, rooted, kept) == NormComponents(comps[1..], rooted, next);
      NormComponentsNoSep(comps[1..], rooted, next);
    }
  }

  /** The root prefix `normpath` keeps: two leading `/` stay two, more become one. */
  function Root(p: string): string
  {
    if IsPrefix("//", p) && !IsPrefix("///", p) then "//"
    else if IsPrefix("/", p) then "/"
    else ""
  }

  /** The root of one or two `/` before a body that does not start with `/` is that root. */
  lemma RootOf(slashes: string, body: string)
    requires slashes == "/" || slashes == "//"
    requires body == [] || body[0] != '/'
    ensures Root(slashes + body) == slashes
  {
    var p := slashes + body;
    if slashes == "/" {
      assert !IsPrefix("//", p) by {
        if |p| >= 2 { assert p[1] == body[0]; }
      }
    } else {
      assert !IsPrefix("///", p) by {
        if |p| >= 3 { assert p[2] == body[0]; }
      }
    }
  }

  /** The empty pieces `split` finds in a root of one or two `/`. */
  function RootPieces(slashes: string): seq<string>
  {
    if slashes == "/" then [""] else ["", ""]
  }

  /** Splitting a root followed by components gives the root's empty pieces, then the components. */
  lemma SplitRooted(slashes: string, cs: seq<string>)
    requires slashes == "/" || slashes == "//"
    requires cs != [] && forall j :: 0 <= j < |cs| ==> '/' !in cs[j]
    ensures Split(slashes + JoinWith(cs, '/'), '/') == RootPieces(slashes) + cs
  {
    var roots := RootPieces(slashes);
    assert JoinWith(roots, '/') + ['/'] == slashes;
    JoinAppend(roots, cs, '/');
    assert forall j :: 0 <= j < |roots + cs| ==> '/' !in (roots + cs)[j];
    SplitJoin(roots + cs, '/');
  }

  /** An empty component vanishes in the component walk. */
  lemma NormSkipEmpty(comps: seq<string>, rooted: bool, kept: seq<string>)
    requires forall j :: 0 <= j < |kept| ==> Plain(kept[j], rooted)
    requires comps != [] && comps[0] == ""
    ensures NormComponents(comps, rooted, kept) == NormComponents(comps[1..], rooted, kept)
  {
  }

  /** The empty pieces of the root vanish in the component walk. */
  lemma NormRooted(slashes: string, cs: seq<string>)
    requires slashes == "/" || slashes == "//"
    requires forall j :: 0 <= j < |cs| ==> Plain(cs[j], true)
    ensures NormComponents(RootPieces(slashes) + cs, true, []) == cs
  {
    var all := RootPieces(slashes) + cs;
    NormComponentsPlain(cs, []);
    assert all[0] == "";
    NormSkipEmpty(all, true, []);
    if slashes == "//" {
      assert all[1..][0] == "" && all[1..][1..] == cs;
      NormSkipEmpty(all[1..], true, []);
    } else {
      assert all[1..] == cs;
    }
  }

  /** The first character of a join is that of its first part. */
  lemma JoinFirst(cs: seq<string>)
    requires cs != [] && cs[0] != []
    ensures JoinWith(cs, '/') != [] && JoinWith(cs, '/')[0] == cs[0][0]
  {
    if |cs| > 1 {
      assert JoinWith(cs, '/') == cs[0] + ['/'] + JoinWith(cs[1..], '/');
    }
  }

  /** A bare root of one or two `/` is normal. */
  lemma NormpathRoot(slashes: string)
    requires slashes == "/" || slashes == "//"
    ensures Normpath(slashes) == slashes
  {
    var pieces := RootPieces(slashes) + [""];
    assert "/"[1..] == "" && "//"[1..] == "/";
    assert Split("/", '/') == [""] + Split("", '/');
    assert Split(slashes, '/') == pieces;
    NormSkipEmpty(pieces, true, []);
    if slashes == "//" {
      NormSkipEmpty(pieces[1..], true, []);
    }
    RootOf(slashes, "");
    assert slashes + "" == slashes;
  }

  /**
   * A root of one or two `/` followed by components `normpath` keeps, joined
   * by `/`, is already normal.
   */
  lemma NormpathOfParts(slashes: string, cs: seq<string>)
    requires slashes == "/" || slashes == "//"
    requires forall j :: 0 <= j < |cs| ==> Plain(cs[j], true) && '/' !in cs[j]
    ensures Normpath(slashes + JoinWith(cs, '/')) == slashes + JoinWith(cs, '/')
  {
    if cs == [] {
      assert slashes + JoinWith(cs, '/') == slashes;
      NormpathRoot(slashes);
    } else {
      var body := JoinWith(cs, '/');
      var p := slashes + body;
      JoinFirst(cs);
      RootOf(slashes, body);
      SplitRooted(slashes, cs);
      NormRooted(slashes, cs);
      assert NormComponents(Split(p, '/'), Root(p) != "", []) == cs;
      assert p != [] && slashes + body != [];
    }
  }

  /** `normpath` is idempotent on absolute paths, so looking a path up by its normal form is consistent. */
  lemma NormpathIdempotent(p: string)
    requires IsAbsolute(p)
    ensures Normpath(Normpath(p)) == Normpath(p)
  {
    var slashes := Root(p);
    var kept := NormComponents(Split(p, '/'), true, []);
    NormComponentsNoSep(Split(p, '/'), true, []);
    assert forall j :: 0 <= j < |kept| ==> Plain(kept[j], true) && '/' !in kept[j];
    assert Normpath(p) == slashes + JoinWith(kept, '/');
    NormpathOfParts(slashes, kept);
  }

  /** `os.path.abspath(p)` with the current directory `cwd` given explicitly. */
  function Abspath(cwd: string, p: string): (r: string)
    requires IsAbsolute(cwd)
    ensures IsAbsolute(r)
  {
    Normpath(Join(cwd, p))
  }

  /** `/a/b` is its own normal form for plain components `a` and `b`. */
  lemma NormpathTwo(a: string, b: string)
    requires Plain(a, true) && Plain(b, true) && '/' !in a && '/' !in b
    ensures Normpath("/" + a + "/" + b) == "/" + a + "/" + b
  {
    var cs := [a, b];
    assert JoinWith(cs, '/') == a + "/" + b;
    assert "/" + JoinWith(cs, '/') == "/" + a + "/" + b;
    NormpathOfParts("/", cs);
  }
}
