/**
 * Path strings, path segments and the segment glob matcher used by the
 * generator-ownership table.
 *
 * A path is a '/'-separated string; the matcher works on its segments.
 * Within one segment `*` matches any run of characters; a whole segment
 * `**` matches zero or more whole segments; every other character is
 * literal.  A path segment that starts with '.' (a hidden file or
 * directory) is only matched by a pattern segment that itself starts with
 * a literal '.'; in particular `**` never crosses a hidden segment.
 */
module Glob {

  const Sep: char := '/'

  // ---------------------------------------------------------------------
  // Splitting and joining
  // ---------------------------------------------------------------------

  /** The segments of a '/'-separated string; "" has the one segment "". */
  function Split(s: string): (r: seq<string>)
    ensures |r| >= 1
    ensures forall k :: 0 <= k < |r| ==> Sep !in r[k]
    decreases |s|
  {
    if |s| == 0 then [""]
    else
      var rest := Split(s[1..]);
      if s[0] == Sep then [""] + rest
      else [[s[0]] + rest[0]] + rest[1..]
  }

  /** The segments put back together with '/' between neighbours. */
  function Join(segs: seq<string>): (r: string)
    requires |segs| >= 1
    ensures |r| >= |segs| - 1
    decreases |segs|
  {
    if |segs| == 1 then segs[0] else segs[0] + [Sep] + Join(segs[1..])
  }

  predicate NoSep(segs: seq<string>)
  {
    forall k :: 0 <= k < |segs| ==> Sep !in segs[k]
  }

  /** Joining the segments of a string gives the string back. */
  lemma {:induction false} JoinSplit(s: string)
    ensures Join(Split(s)) == s
    decreases |s|
  {
    if |s| > 0 {
      var rest := Split(s[1..]);
      JoinSplit(s[1..]);
      if s[0] == Sep {
        assert Split(s) == [""] + rest;
        assert Split(s)[1..] == rest;
        assert s == [s[0]] + s[1..];
      } else {
        var r := [[s[0]] + rest[0]] + rest[1..];
        assert Split(s) == r;
        if |rest| == 1 {
          assert s == [s[0]] + s[1..];
        } else {
          assert r[1..] == rest[1..];
          assert Join(rest) == rest[0] + [Sep] + Join(rest[1..]);
          assert s == [s[0]] + s[1..];
        }
      }
    }
  }

  /** Splitting joined segments that hold no '/' gives the segments back. */
  lemma {:induction false} SplitJoin(segs: seq<string>)
    requires |segs| >= 1 && NoSep(segs)
    ensures Split(Join(segs)) == segs
    decreases |segs|
  {
    if |segs| == 1 {
      SplitPlain(segs[0]);
    } else {
      SplitJoin(segs[1..]);
      SplitAppend(segs[0], Join(segs[1..]));
      assert segs == [segs[0]] + segs[1..];
    }
  }

  /** A string without '/' is one segment. */
  lemma {:induction false} SplitPlain(s: string)
    requires Sep !in s
    ensures Split(s) == [s]
    decreases |s|
  {
    if |s| > 0 {
      assert Sep !in s[1..] by {
        forall k | 0 <= k < |s[1..]| ensures s[1..][k] != Sep {
          assert s[1..][k] == s[k + 1];
        }
      }
      SplitPlain(s[1..]);
      assert s == [s[0]] + s[1..];
    }
  }

  /** A segment followed by '/' and more text splits off as the first segment. */
  lemma {:induction false} SplitAppend(a: string, t: string)
    requires Sep !in a
    ensures Split(a + [Sep] + t) == [a] + Split(t)
    decreases |a|
  {
    if |a| == 0 {
      assert a + [Sep] + t == [Sep] + t;
      assert ([Sep] + t)[1..] == t;
    } else {
      var u := a + [Sep] + t;
      assert u[0] == a[0] && u[1..] == a[1..] + [Sep] + t;
      assert Sep !in a[1..] by {
        forall k | 0 <= k < |a[1..]| ensures a[1..][k] != Sep {
          assert a[1..][k] == a[k + 1];
        }
      }
      SplitAppend(a[1..], t);
      assert [a[0]] + a[1..] == a;
    }
  }

  // ---------------------------------------------------------------------
  // Matching one segment
  // ---------------------------------------------------------------------

  /** `p[i..]` matches `s[j..]`, where `*` in `p` matches any run of characters. */
  predicate WildAt(p: string, i: nat, s: string, j: nat)
    requires i <= |p| && j <= |s|
    decreases |p| - i + |s| - j
  {
    if i == |p| then j == |s|
    else if p[i] == '*' then WildAt(p, i + 1, s, j) || (j < |s| && WildAt(p, i, s, j + 1))
    else j < |s| && p[i] == s[j] && WildAt(p, i + 1, s, j + 1)
  }

  predicate Wild(p: string, s: string)
  {
    WildAt(p, 0, s, 0)
  }

  /** A hidden segment: a file or directory whose name starts with '.'. */
  predicate Hidden(s: string)
  {
    |s| > 0 && s[0] == '.'
  }

  /** The pattern segment `p` matches the path segment `s`. */
  predicate SegmentMatches(p: string, s: string)
  {
    (Hidden(s) ==> Hidden(p)) && Wild(p, s)
  }

  /** A pattern segment with no `*`: it stands only for itself. */
  predicate Plain(p: string)
  {
    '*' !in p
  }

  /** Without `*` a pattern segment matches exactly the equal segment. */
  lemma {:induction false} WildPlain(p: string, i: nat, s: string, j: nat)
    requires i <= |p| && j <= |s|
    requires forall k :: i <= k < |p| ==> p[k] != '*'
    ensures WildAt(p, i, s, j) <==> p[i..] == s[j..]
    decreases |p| - i
  {
    if i < |p| && j < |s| {
      WildPlain(p, i + 1, s, j + 1);
      if p[i] == s[j] && p[i + 1..] == s[j + 1..] {
        assert p[i..] == [p[i]] + p[i + 1..];
        assert s[j..] == [s[j]] + s[j + 1..];
      }
      if p[i..] == s[j..] {
        assert p[i..][0] == p[i];
        assert p[i..][1..] == p[i + 1..];
        assert s[j..][1..] == s[j + 1..];
      }
    } else if i < |p| {
      assert |p[i..]| > 0;
    } else if j < |s| {
      assert |s[j..]| > 0;
    }
  }

  lemma PlainSegment(p: string, s: string)
    requires Plain(p)
    ensures SegmentMatches(p, s) <==> p == s
  {
    WildPlain(p, 0, s, 0);
    assert p[0..] == p && s[0..] == s;
  }

  /** Every segment matches itself. */
  lemma {:induction false} WildSelf(s: string, i: nat)
    requires i <= |s|
    ensures WildAt(s, i, s, i)
    decreases |s| - i
  {
    if i < |s| {
      WildSelf(s, i + 1);
    }
  }

  /** A run of `*` matches any rest of the segment. */
  lemma {:induction false} StarRest(p: string, i: nat, s: string, j: nat)
    requires i < |p| && p[i] == '*' && i + 1 == |p| && j <= |s|
    ensures WildAt(p, i, s, j)
    decreases |s| - j
  {
    if j < |s| {
      StarRest(p, i, s, j + 1);
    }
  }

  /** `q*` with a literal `q` matches exactly the segments that start with `q`. */
  lemma {:induction false} PrefixStar(p: string, n: nat, s: string, j: nat)
    requires n + 1 == |p| && p[n] == '*' && forall k :: 0 <= k < n ==> p[k] != '*'
    requires j <= n && j <= |s|
    requires p[..j] == s[..j]
    ensures WildAt(p, j, s, j) <==> (n <= |s| && p[..n] == s[..n])
    decreases n - j
  {
    if j == n {
      StarRest(p, n, s, j);
      assert p[..n] == s[..n];
    } else {
      if j < |s| && p[j] == s[j] {
        assert p[..j + 1] == p[..j] + [p[j]] && s[..j + 1] == s[..j] + [s[j]];
        PrefixStar(p, n, s, j + 1);
      } else if n <= |s| {
        assert p[..n][j] == p[j];
        assert s[..n][j] == s[j];
      }
    }
  }

  lemma PrefixStarSegment(q: string, s: string)
    requires Plain(q) && !Hidden(s)
    ensures SegmentMatches(q + "*", s) <==> |q| <= |s| && s[..|q|] == q
  {
    var p := q + "*";
    assert p[..|q|] == q;
    forall k | 0 <= k < |q| ensures p[k] != '*' {
      assert p[k] == q[k];
    }
    PrefixStar(p, |q|, s, 0);
  }

  /** `*q` with a literal `q` matches exactly the segments that end with `q`. */
  lemma {:induction false} StarSuffix(p: string, s: string, j: nat)
    requires |p| >= 1 && p[0] == '*' && forall k :: 1 <= k < |p| ==> p[k] != '*'
    requires j <= |s|
    ensures WildAt(p, 0, s, j) <==> (|p| - 1 <= |s| - j && p[1..] == s[|s| - (|p| - 1)..])
    decreases |s| - j
  {
    WildPlain(p, 1, s, j);
    if j < |s| {
      StarSuffix(p, s, j + 1);
      if p[1..] == s[j..] {
        assert |p| - 1 == |s| - j;
      }
    }
  }

  lemma StarSuffixSegment(q: string, s: string)
    requires Plain(q) && !Hidden(s)
    ensures SegmentMatches("*" + q, s) <==> |q| <= |s| && s[|s| - |q|..] == q
  {
    var p := "*" + q;
    assert p[1..] == q;
    forall k | 1 <= k < |p| ensures p[k] != '*' {
      assert p[k] == q[k - 1];
    }
    StarSuffix(p, s, 0);
  }

  /** `.*` matches exactly the hidden segments. */
  lemma DotStarSegment(s: string)
    ensures SegmentMatches(".*", s) <==> Hidden(s)
  {
    if Hidden(s) {
      StarRest(".*", 1, s, 1);
    }
  }

  /** A lone `*` matches every segment that is not hidden. */
  lemma StarSegment(s: string)
    ensures SegmentMatches("*", s) <==> !Hidden(s)
  {
    StarRest("*", 0, s, 0);
  }


  // ---------------------------------------------------------------------
  // Matching a whole path, on the text of the pattern segments
  // ---------------------------------------------------------------------

  const DoubleStar: string := "**"

  /** Pattern segments `ps[i..]`, as text, match path segments `ss[j..]`. */
  predicate TextMatchAt(ps: seq<string>, i: nat, ss: seq<string>, j: nat)
    requires i <= |ps| && j <= |ss|
    decreases |ps| - i + |ss| - j
  {
    if i == |ps| then j == |ss|
    else if ps[i] == DoubleStar then
      TextMatchAt(ps, i + 1, ss, j) || (j < |ss| && !Hidden(ss[j]) && TextMatchAt(ps, i, ss, j + 1))
    else j < |ss| && SegmentMatches(ps[i], ss[j]) && TextMatchAt(ps, i + 1, ss, j + 1)
  }

  // ---------------------------------------------------------------------
  // Compiled pattern segments
  // ---------------------------------------------------------------------

  /**
   * A pattern segment read once: a literal name, a segment glob holding at
   * least one `*`, or the whole-segment wildcard `**`.
   */
  datatype Seg = Lit(name: string) | Star(glob: string) | Globstar

  function Text(g: Seg): string
  {
    match g
    case Lit(n) => n
    case Star(t) => t
    case Globstar => DoubleStar
  }

  /** Reads the text of one pattern segment. */
  function Compile(t: string): (g: Seg)
    ensures Text(g) == t && WellFormed(g)
  {
    if t == DoubleStar then Globstar else if '*' in t then Star(t) else Lit(t)
  }

  /** The form `Compile` produces: names hold no `*`, globs hold one and are not `**`. */
  predicate WellFormed(g: Seg)
  {
    match g
    case Lit(n) => Plain(n)
    case Star(t) => !Plain(t) && t != DoubleStar
    case Globstar => true
  }

  lemma CompileText(g: Seg)
    requires WellFormed(g)
    ensures Compile(Text(g)) == g
  {
    if g.Lit? {
      DoubleStarNotPlain();
    }
  }

  lemma DoubleStarNotPlain()
    ensures !Plain(DoubleStar)
  {
    assert DoubleStar[0] == '*';
  }

  function CompileAll(ts: seq<string>): (gs: seq<Seg>)
    ensures |gs| == |ts| && forall k :: 0 <= k < |ts| ==> gs[k] == Compile(ts[k])
  {
    seq(|ts|, k requires 0 <= k < |ts| => Compile(ts[k]))
  }

  function TextAll(gs: seq<Seg>): (ts: seq<string>)
    ensures |ts| == |gs| && forall k :: 0 <= k < |gs| ==> ts[k] == Text(gs[k])
  {
    seq(|gs|, k requires 0 <= k < |gs| => Text(gs[k]))
  }

  /** Literal segments for a directory written out by name. */
  function Lits(names: seq<string>): (gs: seq<Seg>)
    ensures |gs| == |names| && forall k :: 0 <= k < |names| ==> gs[k] == Lit(names[k])
  {
    seq(|names|, k requires 0 <= k < |names| => Lit(names[k]))
  }

  /** The compiled segment `g`, other than `**`, matches the path segment `s`. */
  predicate SegMatches(g: Seg, s: string)
    requires !g.Globstar?
  {
    match g
    case Lit(n) => n == s
    case Star(t) => SegmentMatches(t, s)
  }

  /** A well-formed compiled segment matches as its text does. */
  lemma SegMatchesText(g: Seg, s: string)
    requires WellFormed(g) && !g.Globstar?
    ensures SegMatches(g, s) == SegmentMatches(Text(g), s)
  {
    if g.Lit? {
      PlainSegment(g.name, s);
    }
  }

  /** Compiled pattern segments `ps[i..]` match path segments `ss[j..]`. */
  predicate MatchAt(ps: seq<Seg>, i: nat, ss: seq<string>, j: nat)
    requires i <= |ps| && j <= |ss|
    decreases |ps| - i + |ss| - j
  {
    if i == |ps| then j == |ss|
    else if ps[i].Globstar? then
      MatchAt(ps, i + 1, ss, j) || (j < |ss| && !Hidden(ss[j]) && MatchAt(ps, i, ss, j + 1))
    else j < |ss| && SegMatches(ps[i], ss[j]) && MatchAt(ps, i + 1, ss, j + 1)
  }

  /** The pattern matches the path, both given as segments. */
  predicate Matches(ps: seq<Seg>, ss: seq<string>)
  {
    MatchAt(ps, 0, ss, 0)
  }

  /** Compiling the pattern text does not change what it matches. */
  lemma {:induction false} CompiledAgrees(ps: seq<string>, i: nat, ss: seq<string>, j: nat)
    requires i <= |ps| && j <= |ss|
    ensures MatchAt(CompileAll(ps), i, ss, j) == TextMatchAt(ps, i, ss, j)
    decreases |ps| - i + |ss| - j
  {
    var gs := CompileAll(ps);
    if i < |ps| {
      CompiledAgrees(ps, i + 1, ss, j);
      if j < |ss| {
        CompiledAgrees(ps, i + 1, ss, j + 1);
        CompiledAgrees(ps, i, ss, j + 1);
        if !gs[i].Globstar? {
          SegMatchesText(gs[i], ss[j]);
        }
      }
    }
  }

  lemma CompiledMatches(ps: seq<string>, ss: seq<string>)
    ensures Matches(CompileAll(ps), ss) == TextMatchAt(ps, 0, ss, 0)
  {
    CompiledAgrees(ps, 0, ss, 0);
  }

  // ---------------------------------------------------------------------
  // What a pattern matches
  // ---------------------------------------------------------------------

  /** A pattern of names matches exactly the path with those names. */
  lemma {:induction false} NamesAt(names: seq<string>, i: nat, ss: seq<string>, j: nat)
    requires i <= |names| && j <= |ss|
    ensures MatchAt(Lits(names), i, ss, j) <==> names[i..] == ss[j..]
    decreases |names| - i
  {
    if i < |names| && j < |ss| {
      NamesAt(names, i + 1, ss, j + 1);
      if names[i..] == ss[j..] {
        assert names[i..][0] == names[i] && names[i..][1..] == names[i + 1..];
        assert ss[j..][1..] == ss[j + 1..];
      }
      if names[i] == ss[j] && names[i + 1..] == ss[j + 1..] {
        assert names[i..] == [names[i]] + names[i + 1..];
        assert ss[j..] == [ss[j]] + ss[j + 1..];
      }
    } else if i < |names| {
      assert |names[i..]| > 0;
    } else if j < |ss| {
      assert |ss[j..]| > 0;
    }
  }

  lemma NamesMatch(names: seq<string>, ss: seq<string>)
    ensures Matches(Lits(names), ss) <==> names == ss
  {
    NamesAt(names, 0, ss, 0);
    assert names[0..] == names && ss[0..] == ss;
  }

  /** `**` at the end of a pattern matches any run of non-hidden segments. */
  lemma {:induction false} TrailingGlobstar(ps: seq<Seg>, ss: seq<string>, j: nat)
    requires |ps| >= 1 && ps[|ps| - 1] == Globstar && j <= |ss|
    ensures MatchAt(ps, |ps| - 1, ss, j) <==> forall k :: j <= k < |ss| ==> !Hidden(ss[k])
    decreases |ss| - j
  {
    if j < |ss| {
      TrailingGlobstar(ps, ss, j + 1);
    }
  }

  /**
   * A directory followed by `**` matches the directory itself and every
   * descendant reached through non-hidden segments, and nothing else.
   */
  lemma {:induction false} UnderRootAt(root: seq<string>, ss: seq<string>, i: nat)
    requires i <= |root| && i <= |ss| && root[..i] == ss[..i]
    ensures MatchAt(Lits(root) + [Globstar], i, ss, i) <==>
      (|root| <= |ss| && ss[..|root|] == root && forall k :: |root| <= k < |ss| ==> !Hidden(ss[k]))
    decreases |root| - i
  {
    var ps := Lits(root) + [Globstar];
    if i == |root| {
      TrailingGlobstar(ps, ss, i);
      assert ss[..|root|] == root;
    } else {
      assert ps[i] == Lit(root[i]);
      if i < |ss| {
        if root[i] == ss[i] {
          assert root[..i + 1] == root[..i] + [root[i]];
          assert ss[..i + 1] == ss[..i] + [ss[i]];
          UnderRootAt(root, ss, i + 1);
        } else if |root| <= |ss| {
          assert ss[..|root|][i] == ss[i];
        }
      }
    }
  }

  lemma UnderRoot(root: seq<string>, ss: seq<string>)
    ensures Matches(Lits(root) + [Globstar], ss) <==>
      (|root| <= |ss| && ss[..|root|] == root && forall k :: |root| <= k < |ss| ==> !Hidden(ss[k]))
  {
    UnderRootAt(root, ss, 0);
  }

  /** Without `**`, a pattern only matches paths with as many segments: `*` spans one. */
  lemma {:induction false} SameDepth(ps: seq<Seg>, i: nat, ss: seq<string>, j: nat)
    requires i <= |ps| && j <= |ss| && Globstar !in ps
    requires MatchAt(ps, i, ss, j)
    ensures |ps| - i == |ss| - j
    decreases |ps| - i
  {
    if i < |ps| {
      assert ps[i] != Globstar;
      SameDepth(ps, i + 1, ss, j + 1);
    }
  }

  lemma SameDepthMatches(ps: seq<Seg>, ss: seq<string>)
    requires Globstar !in ps && Matches(ps, ss)
    ensures |ps| == |ss|
  {
    SameDepth(ps, 0, ss, 0);
  }

  /**
   * A pattern none of whose segments starts with '.' never matches a path
   * that goes through a hidden segment.
   */
  lemma {:induction false} NoDotNoHidden(ps: seq<Seg>, i: nat, ss: seq<string>, j: nat, h: nat)
    requires i <= |ps| && j <= h < |ss| && Hidden(ss[h])
    requires forall k :: 0 <= k < |ps| ==> !Hidden(Text(ps[k]))
    ensures !MatchAt(ps, i, ss, j)
    decreases |ps| - i + |ss| - j
  {
    if i < |ps| {
      if ps[i].Globstar? {
        NoDotNoHidden(ps, i + 1, ss, j, h);
        if j < h {
          NoDotNoHidden(ps, i, ss, j + 1, h);
        }
      } else if j < h {
        NoDotNoHidden(ps, i + 1, ss, j + 1, h);
      }
    }
  }

  /** Matching after a prefix of pattern segments is matching the rest on its own. */
  lemma {:induction false} Shift(pre: seq<Seg>, rest: seq<Seg>, ss: seq<string>, i: nat, j: nat)
    requires i <= |rest| && j <= |ss|
    ensures MatchAt(pre + rest, |pre| + i, ss, j) == MatchAt(rest, i, ss, j)
    decreases |rest| - i + |ss| - j
  {
    if i < |rest| {
      assert (pre + rest)[|pre| + i] == rest[i];
      Shift(pre, rest, ss, i + 1, j);
      if j < |ss| {
        Shift(pre, rest, ss, i + 1, j + 1);
        Shift(pre, rest, ss, i, j + 1);
      }
    }
  }

  /**
   * A pattern written under a directory matches a path exactly when the
   * path lies in that directory and the rest of the pattern matches the
   * rest of the path.
   */
  lemma {:induction false} UnderNames(root: seq<string>, rest: seq<Seg>, ss: seq<string>, i: nat)
    requires i <= |root| && i <= |ss| && root[..i] == ss[..i]
    ensures MatchAt(Lits(root) + rest, i, ss, i) <==>
      |root| <= |ss| && ss[..|root|] == root && MatchAt(rest, 0, ss, |root|)
    decreases |root| - i
  {
    var ps := Lits(root) + rest;
    if i == |root| {
      Shift(Lits(root), rest, ss, 0, |root|);
      assert ss[..|root|] == root;
    } else {
      assert ps[i] == Lit(root[i]);
      if i < |ss| && root[i] == ss[i] {
        assert root[..i + 1] == root[..i] + [root[i]];
        assert ss[..i + 1] == ss[..i] + [ss[i]];
        UnderNames(root, rest, ss, i + 1);
      } else if |root| <= |ss| {
        assert ss[..|root|][i] == ss[i];
      }
    }
  }

  /** Matching from segment `j` on does not look at the segments before `d`. */
  lemma {:induction false} DropAt(ps: seq<Seg>, i: nat, ss: seq<string>, j: nat, d: nat)
    requires i <= |ps| && d <= j <= |ss|
    ensures MatchAt(ps, i, ss, j) == MatchAt(ps, i, ss[d..], j - d)
    decreases |ps| - i + |ss| - j
  {
    if i < |ps| {
      if j < |ss| {
        assert ss[d..][j - d] == ss[j];
        DropAt(ps, i, ss, j + 1, d);
      }
      DropAt(ps, i + 1, ss, j, d);
      if j < |ss| {
        DropAt(ps, i + 1, ss, j + 1, d);
      }
    }
  }

  /**
   * `**` followed by one literal name matches exactly the paths whose last
   * segment is that name and whose segments before it are not hidden.
   */
  lemma {:induction false} EndsWithName(n: string, ss: seq<string>, j: nat)
    requires j <= |ss|
    ensures MatchAt([Globstar, Lit(n)], 0, ss, j) <==>
      j < |ss| && ss[|ss| - 1] == n && forall k :: j <= k < |ss| - 1 ==> !Hidden(ss[k])
    decreases |ss| - j
  {
    var ps := [Globstar, Lit(n)];
    assert MatchAt(ps, 1, ss, j) <==> j < |ss| && ss[j] == n && j + 1 == |ss|;
    if j < |ss| {
      EndsWithName(n, ss, j + 1);
    }
  }
}
