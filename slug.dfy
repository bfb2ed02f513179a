/**
 * `Zoomaker._slugify` with `allow_unicode=False`, the Django slug: keep ASCII,
 * lower-case, drop everything but word characters, whitespace and `-`,
 * turn every run of `-` and whitespace into one `-`, strip `-` and `_` from
 * both ends.
 */
module Slug {
  import opened Text

  /** What Python's `\s` matches among the ASCII characters (it includes 0x1C to 0x1F). */
  predicate IsSpace(c: char)
  {
    c == ' ' || 9 <= c as int <= 13 || 28 <= c as int <= 31
  }

  predicate IsAlnum(c: char)
  {
    'a' <= c <= 'z' || 'A' <= c <= 'Z' || '0' <= c <= '9'
  }

  /** What Python's `\w` matches among the ASCII characters. */
  predicate IsWord(c: char)
  {
    IsAlnum(c) || c == '_'
  }

  predicate IsDashOrSpace(c: char)
  {
    c == '-' || IsSpace(c)
  }

  /** A dash or a space is neither a letter nor a digit. */
  lemma DashOrSpaceNotAlnum(c: char)
    requires IsDashOrSpace(c)
    ensures !IsAlnum(c)
  {
    var n := c as int;
    assert n == 45 || n == 32 || 9 <= n <= 13 || 28 <= n <= 31;
  }

  predicate IsSlugChar(c: char)
  {
    'a' <= c <= 'z' || '0' <= c <= '9' || c == '_' || c == '-'
  }

  predicate NoDoubleDash(s: string)
  {
    forall i :: 0 <= i < |s| - 1 ==> !(s[i] == '-' && s[i + 1] == '-')
  }

  /** The shape of every slug. */
  predicate IsSlug(s: string)
  {
    && (forall i :: 0 <= i < |s| ==> IsSlugChar(s[i]))
    && NoDoubleDash(s)
    && (s != [] ==> s[0] != '-' && s[0] != '_' && s[|s| - 1] != '-' && s[|s| - 1] != '_')
  }

  /**
   * The NFKD-then-`encode('ascii', 'ignore')` step, with the decomposition
   * left out: every non-ASCII character is dropped.
   */
  function AsciiOnly(s: string): string
  {
    if s == [] then []
    else if s[0] as int < 128 then [s[0]] + AsciiOnly(s[1..])
    else AsciiOnly(s[1..])
  }

  /** Only ASCII is left, and an ASCII string is left alone. */
  lemma {:induction false} AsciiOnlySpec(s: string)
    ensures forall i :: 0 <= i < |AsciiOnly(s)| ==> AsciiOnly(s)[i] as int < 128
    ensures (forall i :: 0 <= i < |s| ==> s[i] as int < 128) ==> AsciiOnly(s) == s
  {
    if s != [] {
      AsciiOnlySpec(s[1..]);
      var rest := AsciiOnly(s[1..]);
      if s[0] as int < 128 {
        var r := [s[0]] + rest;
        forall i | 0 <= i < |r| ensures r[i] as int < 128 {
          if i > 0 {
            assert r[i] == rest[i - 1];
          }
        }
        if forall i :: 0 <= i < |s| ==> s[i] as int < 128 {
          assert forall i :: 0 <= i < |s[1..]| ==> s[1..][i] == s[i + 1];
          assert s == [s[0]] + s[1..];
        }
      }
    }
  }

  /** `re.sub(r'[^\w\s-]', '', s)` */
  function KeepWordSpaceDash(s: string): string
  {
    if s == [] then []
    else if IsWord(s[0]) || IsDashOrSpace(s[0]) then [s[0]] + KeepWordSpaceDash(s[1..])
    else KeepWordSpaceDash(s[1..])
  }

  /** Only word characters, whitespace and `-` of the input are kept, and a string of those is left alone. */
  lemma {:induction false} KeepWordSpaceDashSpec(s: string)
    ensures forall i :: 0 <= i < |KeepWordSpaceDash(s)| ==>
      (IsWord(KeepWordSpaceDash(s)[i]) || IsDashOrSpace(KeepWordSpaceDash(s)[i])) && KeepWordSpaceDash(s)[i] in s
    ensures (forall i :: 0 <= i < |s| ==> IsWord(s[i]) || IsDashOrSpace(s[i])) ==> KeepWordSpaceDash(s) == s
  {
    if s != [] {
      KeepWordSpaceDashSpec(s[1..]);
      var rest := KeepWordSpaceDash(s[1..]);
      if IsWord(s[0]) || IsDashOrSpace(s[0]) {
        var r := [s[0]] + rest;
        forall i | 0 <= i < |r| ensures (IsWord(r[i]) || IsDashOrSpace(r[i])) && r[i] in s {
          if i > 0 {
            assert r[i] == rest[i - 1];
            assert rest[i - 1] in s[1..];
          }
        }
        if forall i :: 0 <= i < |s| ==> IsWord(s[i]) || IsDashOrSpace(s[i]) {
          assert forall i :: 0 <= i < |s[1..]| ==> s[1..][i] == s[i + 1];
          assert s == [s[0]] + s[1..];
        }
      } else {
        forall i | 0 <= i < |rest| ensures rest[i] in s {
          assert rest[i] in s[1..];
        }
      }
    }
  }

  /** The rest of `s` after its leading run of `-` and whitespace. */
  function DropRun(s: string): (r: string)
    ensures |r| <= |s|
  {
    if s != [] && IsDashOrSpace(s[0]) then DropRun(s[1..]) else s
  }

  /** `DropRun` removes exactly the leading run of `-` and whitespace. */
  lemma {:induction false} DropRunSpec(s: string)
    ensures var r := DropRun(s);
      && |r| <= |s| && r == s[|s| - |r|..]
      && (r != [] ==> !IsDashOrSpace(r[0]))
      && (forall i :: 0 <= i < |s| - |r| ==> IsDashOrSpace(s[i]))
  {
    if s != [] && IsDashOrSpace(s[0]) {
      DropRunSpec(s[1..]);
      var r := DropRun(s[1..]);
      assert s[1..][|s| - 1 - |r|..] == s[|s| - |r|..];
      forall i | 0 <= i < |s| - |r| ensures IsDashOrSpace(s[i]) {
        if i > 0 {
          assert s[i] == s[1..][i - 1];
        }
      }
    }
  }

  /** `re.sub(r'[-\s]+', '-', s)` */
  function Collapse(s: string): (r: string)
    ensures r == [] <==> s == []
    ensures r != [] ==> r[0] == (if IsDashOrSpace(s[0]) then '-' else s[0])
    decreases |s|
  {
    if s == [] then []
    else if IsDashOrSpace(s[0]) then "-" + Collapse(DropRun(s[1..]))
    else [s[0]] + Collapse(s[1..])
  }

  /** A character in front of a string without `--` adds none unless both are `-`. */
  lemma NoDoubleDashCons(c: char, rest: string)
    requires NoDoubleDash(rest) && (c == '-' && rest != [] ==> rest[0] != '-')
    ensures NoDoubleDash([c] + rest)
  {
    var r := [c] + rest;
    forall i | 0 <= i < |r| - 1 ensures !(r[i] == '-' && r[i + 1] == '-') {
      if i > 0 {
        assert r[i] == rest[i - 1] && r[i + 1] == rest[i];
      }
    }
  }

  /**
   * Every run of `-` and whitespace becomes one `-`: the result has no
   * `--`, and every other character in it is one of the input's.
   */
  lemma {:induction false} CollapseShape(s: string)
    ensures var r := Collapse(s);
      && (forall i :: 0 <= i < |r| ==> r[i] == '-' || (r[i] in s && !IsDashOrSpace(r[i])))
      && NoDoubleDash(r)
    decreases |s|
  {
    if s != [] {
      var t := if IsDashOrSpace(s[0]) then DropRun(s[1..]) else s[1..];
      DropRunSpec(s[1..]);
      CollapseShape(t);
      var rest := Collapse(t);
      var head := if IsDashOrSpace(s[0]) then '-' else s[0];
      var r := [head] + rest;
      assert Collapse(s) == r;
      NoDoubleDashCons(head, rest);
      forall i | 0 <= i < |r| ensures r[i] == '-' || (r[i] in s && !IsDashOrSpace(r[i])) {
        if i > 0 {
          assert r[i] == rest[i - 1];
          assert rest[i - 1] in t ==> rest[i - 1] in s[1..];
        }
      }
    }
  }

  function StripLeading(s: string): string
  {
    if s != [] && (s[0] == '-' || s[0] == '_') then StripLeading(s[1..]) else s
  }

  /** `StripLeading` leaves a suffix that starts with neither `-` nor `_`. */
  lemma {:induction false} StripLeadingSpec(s: string)
    ensures var r := StripLeading(s);
      |r| <= |s| && r == s[|s| - |r|..] && (r != [] ==> r[0] != '-' && r[0] != '_')
  {
    if s != [] && (s[0] == '-' || s[0] == '_') {
      StripLeadingSpec(s[1..]);
      var r := StripLeading(s[1..]);
      assert s[1..][|s| - 1 - |r|..] == s[|s| - |r|..];
    }
  }

  function StripTrailing(s: string): string
  {
    if s != [] && (s[|s| - 1] == '-' || s[|s| - 1] == '_') then StripTrailing(s[..|s| - 1]) else s
  }

  /** `StripTrailing` leaves a prefix that ends with neither `-` nor `_`. */
  lemma {:induction false} StripTrailingSpec(s: string)
    ensures var r := StripTrailing(s);
      |r| <= |s| && r == s[..|r|] && (r != [] ==> r[|r| - 1] != '-' && r[|r| - 1] != '_')
  {
    if s != [] && (s[|s| - 1] == '-' || s[|s| - 1] == '_') {
      var init := s[..|s| - 1];
      StripTrailingSpec(init);
      assert init[..|StripTrailing(init)|] == s[..|StripTrailing(init)|];
    }
  }

  /** `s.strip('-_')` */
  function Strip(s: string): string
  {
    StripTrailing(StripLeading(s))
  }

  /** `_slugify(value)` */
  function Slugify(value: string): string
  {
    Strip(Collapse(KeepWordSpaceDash(Lower(AsciiOnly(value)))))
  }

  /** Whatever the input, `Slugify` returns a slug: lower-case letters, digits, `_` and `-`, no `--`, no `-` or `_` at either end. */
  lemma SlugifyShape(value: string)
    ensures IsSlug(Slugify(value))
  {
    var lowered := Lower(AsciiOnly(value));
    var kept := KeepWordSpaceDash(lowered);
    KeepWordSpaceDashSpec(lowered);
    assert forall i :: 0 <= i < |kept| ==> !('A' <= kept[i] <= 'Z');
    CollapseShape(kept);
    StripShape(Collapse(kept));
  }

  /** A piece of a string of slug characters without `--` is one too. */
  lemma SliceKeepsShape(s: string, lo: int, hi: int)
    requires 0 <= lo <= hi <= |s|
    requires forall i :: 0 <= i < |s| ==> IsSlugChar(s[i])
    requires NoDoubleDash(s)
    ensures forall i :: 0 <= i < hi - lo ==> IsSlugChar(s[lo..hi][i])
    ensures NoDoubleDash(s[lo..hi])
  {
    var t := s[lo..hi];
    forall i | 0 <= i < |t| - 1 ensures !(t[i] == '-' && t[i + 1] == '-') {
      assert t[i] == s[lo + i] && t[i + 1] == s[lo + i + 1];
    }
  }

  /** Stripping a string of slug characters without `--` leaves a slug. */
  lemma StripShape(collapsed: string)
    requires forall i :: 0 <= i < |collapsed| ==> IsSlugChar(collapsed[i])
    requires NoDoubleDash(collapsed)
    ensures IsSlug(Strip(collapsed))
  {
    var lead := StripLeading(collapsed);
    StripLeadingSpec(collapsed);
    StripTrailingSpec(lead);
    SliceKeepsShape(collapsed, |collapsed| - |lead|, |collapsed|);
    var r := StripTrailing(lead);
    SliceKeepsShape(lead, 0, |r|);
    assert r != [] ==> r[0] == lead[0];
  }

  /** The characters without which `Collapse` leaves a string alone. */
  lemma {:induction false} CollapseIdentity(s: string)
    requires forall i :: 0 <= i < |s| ==> !IsSpace(s[i])
    requires NoDoubleDash(s)
    ensures Collapse(s) == s
  {
    if s != [] {
      CollapseIdentity(s[1..]);
      if s[0] == '-' {
        assert DropRun(s[1..]) == s[1..];
      }
      assert s == [s[0]] + s[1..];
    }
  }

  lemma LowerFixes(s: string)
    requires forall i :: 0 <= i < |s| ==> !('A' <= s[i] <= 'Z')
    ensures Lower(s) == s
  {
    var l := Lower(s);
    assert |l| == |s|;
    forall i | 0 <= i < |s| ensures l[i] == s[i] {
      assert l[i] == LowerChar(s[i]);
    }
  }

  lemma StripFixes(s: string)
    requires s != [] ==> s[0] != '-' && s[0] != '_' && s[|s| - 1] != '-' && s[|s| - 1] != '_'
    ensures Strip(s) == s
  {
  }

  /** The first three steps leave a string of slug characters alone. */
  lemma SlugCharsFixed(s: string)
    requires forall i :: 0 <= i < |s| ==> IsSlugChar(s[i])
    ensures AsciiOnly(s) == s && Lower(s) == s && KeepWordSpaceDash(s) == s
    ensures forall i :: 0 <= i < |s| ==> !IsSpace(s[i])
  {
    forall i | 0 <= i < |s| ensures s[i] as int < 128 && (IsWord(s[i]) || IsDashOrSpace(s[i])) && !IsSpace(s[i]) {
      SlugCharFacts(s[i]);
    }
    AsciiOnlySpec(s);
    KeepWordSpaceDashSpec(s);
    LowerFixes(s);
  }

  lemma SlugCharFacts(c: char)
    requires IsSlugChar(c)
    ensures c as int < 128 && (IsWord(c) || IsDashOrSpace(c)) && !IsSpace(c) && !('A' <= c <= 'Z')
  {
  }

  /** A slug is a fixed point of `Slugify`. */
  lemma SlugifyFixesSlugs(s: string)
    requires IsSlug(s)
    ensures Slugify(s) == s
  {
    SlugCharsFixed(s);
    CollapseIdentity(s);
    StripFixes(s);
  }

  /** A lower-case word is its own slug. */
  lemma SlugifyWord(w: string)
    requires forall i :: 0 <= i < |w| ==> 'a' <= w[i] <= 'z'
    ensures Slugify(w) == w
  {
    assert IsSlug(w);
    SlugifyFixesSlugs(w);
  }

  /** `_slugify` is idempotent, and maps the empty string to itself. */
  lemma SlugifyIdempotent(value: string)
    ensures Slugify(Slugify(value)) == Slugify(value)
    ensures value == "" ==> Slugify(value) == ""
  {
    SlugifyShape(value);
    SlugifyFixesSlugs(Slugify(value));
  }

  /** The letters and digits of a string, in order. */
  function Alnums(s: string): (r: string)
    ensures forall i :: 0 <= i < |r| ==> IsAlnum(r[i])
  {
    if s == [] then [] else (if IsAlnum(s[0]) then [s[0]] else []) + Alnums(s[1..])
  }

  lemma {:induction false} AlnumsAppend(a: string, b: string)
    ensures Alnums(a + b) == Alnums(a) + Alnums(b)
  {
    if a == [] {
      assert a + b == b;
    } else {
      var h := if IsAlnum(a[0]) then [a[0]] else [];
      assert (a + b)[0] == a[0] && (a + b)[1..] == a[1..] + b;
      AlnumsAppend(a[1..], b);
      assert Alnums(a) == h + Alnums(a[1..]);
      assert Alnums(a + b) == h + Alnums(a[1..] + b);
      assert h + (Alnums(a[1..]) + Alnums(b)) == (h + Alnums(a[1..])) + Alnums(b);
    }
  }

  lemma {:induction false} AlnumsKeep(s: string)
    ensures Alnums(KeepWordSpaceDash(s)) == Alnums(s)
  {
    if s != [] {
      AlnumsKeep(s[1..]);
      AlnumsAppend([s[0]], KeepWordSpaceDash(s[1..]));
    }
  }

  lemma {:induction false} AlnumsDropRun(s: string)
    ensures Alnums(DropRun(s)) == Alnums(s)
  {
    if s != [] && IsDashOrSpace(s[0]) {
      AlnumsDropRun(s[1..]);
      DashOrSpaceNotAlnum(s[0]);
    }
  }

  lemma {:induction false} AlnumsCollapse(s: string)
    ensures Alnums(Collapse(s)) == Alnums(s)
    decreases |s|
  {
    if s != [] {
      if IsDashOrSpace(s[0]) {
        AlnumsCollapse(DropRun(s[1..]));
        AlnumsDropRun(s[1..]);
        AlnumsAppend("-", Collapse(DropRun(s[1..])));
      } else {
        AlnumsCollapse(s[1..]);
        AlnumsAppend([s[0]], Collapse(s[1..]));
      }
    }
  }

  lemma {:induction false} AlnumsStripLeading(s: string)
    ensures Alnums(StripLeading(s)) == Alnums(s)
  {
    if s != [] && (s[0] == '-' || s[0] == '_') {
      AlnumsStripLeading(s[1..]);
    }
  }

  lemma {:induction false} AlnumsStripTrailing(s: string)
    ensures Alnums(StripTrailing(s)) == Alnums(s)
  {
    if s != [] && (s[|s| - 1] == '-' || s[|s| - 1] == '_') {
      var init := s[..|s| - 1];
      AlnumsStripTrailing(init);
      assert s == init + [s[|s| - 1]];
      AlnumsAppend(init, [s[|s| - 1]]);
    }
  }

  /**
   * Nothing but separators is lost: the letters and digits of the slug are
   * exactly those of the lower-cased ASCII input, in the same order.
   */
  lemma SlugifyKeepsAlnums(value: string)
    ensures Alnums(Slugify(value)) == Alnums(Lower(AsciiOnly(value)))
  {
    var lowered := Lower(AsciiOnly(value));
    var kept := KeepWordSpaceDash(lowered);
    AlnumsKeep(lowered);
    AlnumsCollapse(kept);
    AlnumsStripLeading(Collapse(kept));
    AlnumsStripTrailing(StripLeading(Collapse(kept)));
  }
}
