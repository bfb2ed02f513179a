/**
 * The Python string primitives the tool relies on: `str.split`, `str.join`,
 * `str.endswith`, the `in` test on strings, `str.lower` on ASCII letters,
 * `str.replace(old, "")` and `os.path.basename`.
 */
module Text {

  predicate IsPrefix(p: string, s: string)
  {
    |p| <= |s| && s[..|p|] == p
  }

  /** `s.endswith(suffix)` */
  predicate EndsWith(s: string, suffix: string)
  {
    |suffix| <= |s| && s[|s| - |suffix|..] == suffix
  }

  /** `sub in s` for strings: `sub` occurs somewhere in `s`. */
  predicate Contains(s: string, sub: string)
    decreases |s|
  {
    IsPrefix(sub, s) || (s != [] && Contains(s[1..], sub))
  }

  function LowerChar(c: char): char
  {
    if 'A' <= c <= 'Z' then (c as int + 32) as char else c
  }

  /** `s.lower()` restricted to the ASCII letters. */
  function Lower(s: string): (r: string)
    ensures |r| == |s|
    ensures forall i :: 0 <= i < |s| ==> r[i] == LowerChar(s[i])
    ensures forall i :: 0 <= i < |r| ==> !('A' <= r[i] <= 'Z')
  {
    seq(|s|, i requires 0 <= i < |s| => LowerChar(s[i]))
  }

  /** `sep.join(parts)` */
  function JoinWith(parts: seq<string>, sep: char): string
  {
    if parts == [] then ""
    else if |parts| == 1 then parts[0]
    else parts[0] + [sep] + JoinWith(parts[1..], sep)
  }

  /** `s.split(sep)` for a one-character separator: never an empty list. */
  function Split(s: string, sep: char): (r: seq<string>)
    ensures |r| >= 1
    ensures forall i :: 0 <= i < |r| ==> sep !in r[i]
  {
    if s == [] then [""]
    else
      var rest := Split(s[1..], sep);
      if s[0] == sep then [""] + rest else [[s[0]] + rest[0]] + rest[1..]
  }

  /** Joining the pieces of a split gives the string back. */
  lemma {:induction false} JoinSplit(s: string, sep: char)
    ensures JoinWith(Split(s, sep), sep) == s
  {
    if s != [] {
      var rest := Split(s[1..], sep);
      JoinSplit(s[1..], sep);
      if s[0] == sep {
        assert Split(s, sep) == [""] + rest;
        assert ([""] + rest)[1..] == rest;
      } else {
        var r := [[s[0]] + rest[0]] + rest[1..];
        assert Split(s, sep) == r;
        if |rest| > 1 {
          assert r[1..] == rest[1..];
          assert JoinWith(rest, sep) == rest[0] + [sep] + JoinWith(rest[1..], sep);
        }
      }
    }
  }

  /** Joining two non-empty lists of pieces puts one separator between them. */
  lemma {:induction false} JoinAppend(a: seq<string>, b: seq<string>, sep: char)
    requires a != [] && b != []
    ensures JoinWith(a + b, sep) == JoinWith(a, sep) + [sep] + JoinWith(b, sep)
  {
    if |a| == 1 {
      assert (a + b)[1..] == b;
    } else {
      assert (a + b)[1..] == a[1..] + b;
      JoinAppend(a[1..], b, sep);
    }
  }

  /** A string with no separator splits into itself alone. */
  lemma {:induction false} SplitFree(x: string, sep: char)
    requires sep !in x
    ensures Split(x, sep) == [x]
  {
    if x != [] {
      SplitFree(x[1..], sep);
      assert [x[0]] + x[1..] == x;
    }
  }

  /** A separator after a separator-free prefix ends the first piece. */
  lemma {:induction false} SplitAtSep(x: string, y: string, sep: char)
    requires sep !in x
    ensures Split(x + [sep] + y, sep) == [x] + Split(y, sep)
  {
    if x == [] {
      assert (x + [sep] + y)[1..] == y;
    } else {
      assert (x + [sep] + y)[1..] == x[1..] + [sep] + y;
      assert (x + [sep] + y)[0] == x[0] && [x[0]] + x[1..] == x;
      SplitAtSep(x[1..], y, sep);
    }
  }

  /** Splitting a join of separator-free pieces gives the pieces back. */
  lemma {:induction false} SplitJoin(parts: seq<string>, sep: char)
    requires parts != []
    requires forall i :: 0 <= i < |parts| ==> sep !in parts[i]
    ensures Split(JoinWith(parts, sep), sep) == parts
  {
    if |parts| == 1 {
      SplitFree(parts[0], sep);
    } else {
      SplitJoin(parts[1..], sep);
      SplitAtSep(parts[0], JoinWith(parts[1..], sep), sep);
    }
  }

  /** `os.path.basename(p)`: the last `/`-separated piece of `p`. */
  function Basename(p: string): string
  {
    var parts := Split(p, '/');
    parts[|parts| - 1]
  }

  /**
   * The basename is the part of `p` after its last `/`: a suffix of `p` with
   * no `/`, which is either all of `p` or preceded by a `/`.
   */
  lemma BasenameSpec(p: string)
    ensures '/' !in Basename(p)
    ensures EndsWith(p, Basename(p))
    ensures |Basename(p)| == |p| || p[|p| - |Basename(p)| - 1] == '/'
  {
    var parts := Split(p, '/');
    var n := |parts|;
    var b := parts[n - 1];
    assert Basename(p) == b;
    JoinSplit(p, '/');
    if n > 1 {
      assert parts == parts[..n - 1] + [b];
      JoinAppend(parts[..n - 1], [b], '/');
      var pre := JoinWith(parts[..n - 1], '/');
      assert p == pre + ['/'] + b;
      assert p[|p| - |b|..] == b;
      assert p[|p| - |b| - 1] == '/';
    } else {
      assert p == b;
    }
  }

  /** The characterization of `BasenameSpec` determines the basename. */
  lemma BasenameUnique(p: string, b: string)
    requires '/' !in b && EndsWith(p, b)
    requires |b| == |p| || p[|p| - |b| - 1] == '/'
    ensures b == Basename(p)
  {
    BasenameSpec(p);
  }

  /** `s.replace(pat, "")`: every occurrence of `pat`, scanned left to right, removed. */
  function RemoveAll(s: string, pat: string): (r: string)
    requires pat != []
    ensures |r| <= |s|
    ensures forall c :: c in r ==> c in s
    decreases |s|
  {
    if s == [] then []
    else if IsPrefix(pat, s) then RemoveAll(s[|pat|..], pat)
    else [s[0]] + RemoveAll(s[1..], pat)
  }

  /** With no occurrence of the pattern, `replace` changes nothing. */
  lemma {:induction false} RemoveAllAbsent(s: string, pat: string)
    requires pat != [] && !Contains(s, pat)
    ensures RemoveAll(s, pat) == s
  {
    if s != [] {
      RemoveAllAbsent(s[1..], pat);
    }
  }

  /**
   * A trailing `.git` is always removed and does not change what is removed
   * before it: no occurrence of `.git` can overlap it, since `.` occurs in
   * `.git` only at its start.
   */
  lemma {:induction false} RemoveAllGitSuffix(a: string)
    ensures RemoveAll(a + ".git", ".git") == RemoveAll(a, ".git")
  {
    var s := a + ".git";
    if a == [] {
      assert s == ".git";
      assert s[4..] == [];
    } else if IsPrefix(".git", a) {
      assert IsPrefix(".git", s);
      assert s[4..] == a[4..] + ".git";
      RemoveAllGitSuffix(a[4..]);
    } else {
      if |a| < 4 {
        assert s[|a|] == '.' && ".git"[|a|] != '.';
      } else {
        assert s[..4] == a[..4];
      }
      assert !IsPrefix(".git", s);
      assert s[1..] == a[1..] + ".git";
      RemoveAllGitSuffix(a[1..]);
    }
  }
}
