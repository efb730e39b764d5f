/**
 * Generator ownership: an ordered list of glob patterns, some negated with
 * a leading '!', decides for every repository path whether the code
 * generator owns it (true) or whether it is written by hand (false).
 *
 * The walk starts with "hand-written" and visits the patterns in order;
 * every pattern that matches the path sets the verdict to "owned" unless
 * the pattern is negated, in which case it sets it to "hand-written".  The
 * last matching pattern therefore decides, and a path no pattern matches
 * stays hand-written.
 */
module Ownership {
  import opened Glob
  import opened Wrappers

  /** One table entry: a pattern read segment by segment, negated by a leading '!'. */
  datatype Pattern = Pattern(negated: bool, segments: seq<Seg>)

  const Bang: char := '!'

  // ---------------------------------------------------------------------
  // Pattern text
  // ---------------------------------------------------------------------

  /** Reads a table entry such as "!docs/README.md" or "yarn.lock". */
  function Parse(text: string): (p: Pattern)
    ensures p.negated <==> |text| > 0 && text[0] == Bang
    ensures |p.segments| >= 1 && forall k :: 0 <= k < |p.segments| ==> WellFormed(p.segments[k])
    ensures Join(TextAll(p.segments)) == if p.negated then text[1..] else text
    ensures NoSep(TextAll(p.segments))
  {
    var body := if |text| > 0 && text[0] == Bang then text[1..] else text;
    var parts := Split(body);
    JoinSplit(body);
    assert TextAll(CompileAll(parts)) == parts;
    Pattern(|text| > 0 && text[0] == Bang, CompileAll(parts))
  }

  /** Writes a pattern back as a table entry. */
  function Render(p: Pattern): (text: string)
    requires |p.segments| >= 1
    ensures p.negated ==> |text| > 0 && text[0] == Bang && text[1..] == Join(TextAll(p.segments))
    ensures !p.negated ==> text == Join(TextAll(p.segments))
  {
    var body := Join(TextAll(p.segments));
    if p.negated then [Bang] + body else body
  }

  /** A pattern that can be written as text and read back unchanged. */
  predicate Writable(p: Pattern)
  {
    |p.segments| >= 1 &&
    (forall k :: 0 <= k < |p.segments| ==> WellFormed(p.segments[k])) &&
    NoSep(TextAll(p.segments)) &&
    (!p.negated ==> !(|Text(p.segments[0])| > 0 && Text(p.segments[0])[0] == Bang))
  }

  lemma RenderParse(text: string)
    ensures Render(Parse(text)) == text
  {
    if |text| > 0 && text[0] == Bang {
      assert text == [Bang] + text[1..];
    }
  }

  lemma ParseRender(p: Pattern)
    requires Writable(p)
    ensures Parse(Render(p)) == p
  {
    var texts := TextAll(p.segments);
    SplitJoin(texts);
    forall k | 0 <= k < |p.segments| ensures Compile(texts[k]) == p.segments[k] {
      CompileText(p.segments[k]);
    }
    assert CompileAll(texts) == p.segments;
    var t := Render(p);
    if p.negated {
      assert t[1..] == Join(texts);
    } else if |t| > 0 && t[0] == Bang {
      JoinHead(texts);
      assert false;
    }
  }

  /** An entry written as `/`-separated names, with or without a leading '!', reads as those names compiled. */
  lemma ReadsAs(text: string, neg: bool, names: seq<string>)
    requires |names| >= 1 && NoSep(names)
    requires text == if neg then [Bang] + Join(names) else Join(names)
    requires !neg ==> !(|names[0]| > 0 && names[0][0] == Bang)
    ensures Parse(text) == Pattern(neg, CompileAll(names))
  {
    var p := Pattern(neg, CompileAll(names));
    assert TextAll(p.segments) == names;
    ParseRender(p);
  }

  /** The first character of joined segments belongs to the first segment, or is the separator. */
  lemma JoinHead(segs: seq<string>)
    requires |segs| >= 1 && |Join(segs)| > 0
    ensures Join(segs)[0] == if |segs[0]| > 0 then segs[0][0] else Sep
  {
  }

  // ---------------------------------------------------------------------
  // The walk
  // ---------------------------------------------------------------------

  predicate Hits(p: Pattern, path: seq<string>)
  {
    Matches(p.segments, path)
  }

  /** The verdict after visiting `p`, given the verdict before it. */
  function Step(owned: bool, p: Pattern, path: seq<string>): bool
  {
    if Hits(p, path) then !p.negated else owned
  }

  /** Visits `pats` in order, starting from the verdict `owned`. */
  function Walk(pats: seq<Pattern>, path: seq<string>, owned: bool): bool
    decreases |pats|
  {
    if |pats| == 0 then owned else Walk(pats[1..], path, Step(owned, pats[0], path))
  }

  /** Whether the generator owns `path` under the table `pats`. */
  predicate Classify(pats: seq<Pattern>, path: seq<string>)
  {
    Walk(pats, path, false)
  }

  /** The verdict of the last pattern among the first `k` that matches, if any. */
  function LastVerdict(pats: seq<Pattern>, k: nat, path: seq<string>): (v: Option<bool>)
    requires k <= |pats|
    ensures v.None? <==> forall i :: 0 <= i < k ==> !Hits(pats[i], path)
  {
    if k == 0 then None
    else if Hits(pats[k - 1], path) then Some(!pats[k - 1].negated)
    else LastVerdict(pats, k - 1, path)
  }

  /** Visiting a concatenation is visiting one part after the other. */
  lemma {:induction false} WalkAppend(a: seq<Pattern>, b: seq<Pattern>, path: seq<string>, owned: bool)
    ensures Walk(a + b, path, owned) == Walk(b, path, Walk(a, path, owned))
    decreases |a|
  {
    if |a| > 0 {
      assert (a + b)[0] == a[0] && (a + b)[1..] == a[1..] + b;
      WalkAppend(a[1..], b, path, Step(owned, a[0], path));
    } else {
      assert a + b == b;
    }
  }

  lemma WalkSnoc(a: seq<Pattern>, p: Pattern, path: seq<string>, owned: bool)
    ensures Walk(a + [p], path, owned) == Step(Walk(a, path, owned), p, path)
  {
    WalkAppend(a, [p], path, owned);
  }

  /** The walk ends with the verdict of the last matching pattern, or where it started. */
  lemma {:induction false} WalkIsLast(pats: seq<Pattern>, path: seq<string>, owned: bool)
    ensures Walk(pats, path, owned) ==
      match LastVerdict(pats, |pats|, path)
      case None => owned
      case Some(b) => b
    decreases |pats|
  {
    if |pats| > 0 {
      var n := |pats| - 1;
      assert pats == pats[..n] + [pats[n]];
      WalkSnoc(pats[..n], pats[n], path, owned);
      WalkIsLast(pats[..n], path, owned);
      LastVerdictPrefix(pats, n, path);
    }
  }

  /** The last match among the first `k` patterns does not look past them. */
  lemma {:induction false} LastVerdictPrefix(pats: seq<Pattern>, k: nat, path: seq<string>)
    requires k <= |pats|
    ensures LastVerdict(pats[..k], k, path) == LastVerdict(pats, k, path)
    decreases k
  {
    if k > 0 {
      assert pats[..k][k - 1] == pats[k - 1];
      assert pats[..k][..k - 1] == pats[..k - 1];
      LastVerdictPrefix(pats, k - 1, path);
      LastVerdictPrefix(pats[..k], k - 1, path);
    }
  }

  /**
   * The reference reading of the table: a path is owned exactly when some
   * non-negated pattern matches it and no pattern after that one does.
   */
  lemma ClassifyMeans(pats: seq<Pattern>, path: seq<string>)
    ensures Classify(pats, path) <==>
      exists i :: 0 <= i < |pats| && Hits(pats[i], path) && !pats[i].negated &&
        forall j :: i < j < |pats| ==> !Hits(pats[j], path)
  {
    WalkIsLast(pats, path, false);
    if Classify(pats, path) {
      var i := LastIndex(pats, |pats|, path);
      assert Hits(pats[i], path) && !pats[i].negated;
    } else {
      forall i | 0 <= i < |pats| && Hits(pats[i], path) && !pats[i].negated
        ensures exists j :: i < j < |pats| && Hits(pats[j], path)
      {
        var m := LastIndex(pats, |pats|, path);
        assert m != i;
      }
    }
  }

  /** Where the last match among the first `k` patterns sits. */
  lemma {:induction false} LastIndex(pats: seq<Pattern>, k: nat, path: seq<string>) returns (i: nat)
    requires k <= |pats| && LastVerdict(pats, k, path).Some?
    ensures i < k && Hits(pats[i], path)
    ensures LastVerdict(pats, k, path) == Some(!pats[i].negated)
    ensures forall j :: i < j < k ==> !Hits(pats[j], path)
    decreases k
  {
    if Hits(pats[k - 1], path) {
      i := k - 1;
    } else {
      i := LastIndex(pats, k - 1, path);
    }
  }

  /** A path that no pattern matches is hand-written. */
  lemma Unmatched(pats: seq<Pattern>, path: seq<string>)
    requires forall i :: 0 <= i < |pats| ==> !Hits(pats[i], path)
    ensures !Classify(pats, path)
  {
    WalkIsLast(pats, path, false);
  }

  /** Appending patterns that do not match a path leaves its verdict alone. */
  lemma AppendUnmatched(a: seq<Pattern>, b: seq<Pattern>, path: seq<string>)
    requires forall i :: 0 <= i < |b| ==> !Hits(b[i], path)
    ensures Classify(a + b, path) == Classify(a, path)
  {
    WalkAppend(a, b, path, false);
    WalkIsLast(b, path, Walk(a, path, false));
  }

  /** A pattern appended at the end decides every path it matches. */
  lemma AppendMatched(a: seq<Pattern>, p: Pattern, path: seq<string>)
    requires Hits(p, path)
    ensures Classify(a + [p], path) == !p.negated
  {
    WalkSnoc(a, p, path, false);
  }

  /** A negated pattern can only take ownership away; a plain one can only add it. */
  lemma Monotone(a: seq<Pattern>, p: Pattern, path: seq<string>)
    ensures p.negated && Classify(a + [p], path) ==> Classify(a, path)
    ensures !p.negated && Classify(a, path) ==> Classify(a + [p], path)
  {
    WalkSnoc(a, p, path, false);
  }

  /**
   * Order matters: two adjacent patterns of opposite sign that both match a
   * path, with nothing later matching it, decide it in opposite ways
   * depending on which comes second.
   */
  lemma SwapFlips(a: seq<Pattern>, p: Pattern, q: Pattern, c: seq<Pattern>, path: seq<string>)
    requires Hits(p, path) && Hits(q, path) && p.negated != q.negated
    requires forall i :: 0 <= i < |c| ==> !Hits(c[i], path)
    ensures Classify(a + [p, q] + c, path) == !q.negated
    ensures Classify(a + [q, p] + c, path) == !p.negated
  {
    AppendUnmatched(a + [p, q], c, path);
    AppendUnmatched(a + [q, p], c, path);
    assert a + [p, q] == (a + [p]) + [q];
    assert a + [q, p] == (a + [q]) + [p];
    AppendMatched(a + [p], q, path);
    AppendMatched(a + [q], p, path);
  }

  // ---------------------------------------------------------------------
  // Tables written as sections under a shared root directory
  // ---------------------------------------------------------------------

  /**
   * A table entry: a fixed pattern, or one of two patterns chosen by
   * whether the release process is running.
   */
  datatype Entry = Always(pattern: Pattern) | OnRelease(released: Pattern, otherwise: Pattern)

  /** The pattern an entry stands for in a run with the given `release` flag. */
  function Choose(e: Entry, release: bool): (p: Pattern)
    ensures e.Always? ==> p == e.pattern
    ensures e.OnRelease? ==> p == (if release then e.released else e.otherwise)
  {
    match e
    case Always(p) => p
    case OnRelease(a, b) => if release then a else b
  }

  // A sectioned table is given by the root of each section and its rules,
  // section by section; `Sections` below counts them.

  /** Rules written relative to `root`, as full patterns. */
  function Under(root: seq<string>, rules: seq<Entry>, release: bool): (r: seq<Pattern>)
    ensures |r| == |rules|
    ensures forall k :: 0 <= k < |r| ==>
      r[k] == Pattern(Choose(rules[k], release).negated, Lits(root) + Choose(rules[k], release).segments)
  {
    seq(|rules|, k requires 0 <= k < |rules| =>
      Pattern(Choose(rules[k], release).negated, Lits(root) + Choose(rules[k], release).segments))
  }

  /** `root[i..]` is the start of `path[i..]`. */
  predicate PrefixAt(root: seq<string>, i: nat, path: seq<string>)
    requires i <= |root|
    decreases |root| - i
  {
    i == |root| || (i < |path| && root[i] == path[i] && PrefixAt(root, i + 1, path))
  }

  /** `path` lies at or below the directory `root`. */
  predicate InRoot(root: seq<string>, path: seq<string>)
  {
    PrefixAt(root, 0, path)
  }

  lemma {:induction false} PrefixAtMeans(root: seq<string>, i: nat, path: seq<string>)
    requires i <= |root| && i <= |path| && root[..i] == path[..i]
    ensures PrefixAt(root, i, path) <==> |root| <= |path| && path[..|root|] == root
    decreases |root| - i
  {
    if i < |root| {
      if i < |path| && root[i] == path[i] {
        assert root[..i + 1] == root[..i] + [root[i]] && path[..i + 1] == path[..i] + [path[i]];
        PrefixAtMeans(root, i + 1, path);
      } else if |root| <= |path| {
        assert path[..|root|][i] == path[i];
      }
    }
  }

  lemma InRootMeans(root: seq<string>, path: seq<string>)
    ensures InRoot(root, path) <==> |root| <= |path| && path[..|root|] == root
  {
    PrefixAtMeans(root, 0, path);
  }

  /** The verdict of the last of the first `k` rules matching `path` after its first `off` segments. */
  function LastIn(rules: seq<Entry>, k: nat, path: seq<string>, off: nat, release: bool): Option<bool>
    requires k <= |rules| && off <= |path|
  {
    if k == 0 then None
    else
      var p := Choose(rules[k - 1], release);
      if MatchAt(p.segments, 0, path, off) then Some(!p.negated)
      else LastIn(rules, k - 1, path, off, release)
  }

  /** Rules none of which depends on the release flag. */
  predicate Fixed(rules: seq<Entry>)
  {
    forall k :: 0 <= k < |rules| ==> rules[k].Always?
  }

  /** The verdict of fixed rules is the same in every run. */
  lemma {:induction false} LastInFixed(rules: seq<Entry>, k: nat, path: seq<string>, off: nat, release: bool)
    requires k <= |rules| && off <= |path| && Fixed(rules)
    ensures LastIn(rules, k, path, off, release) == LastIn(rules, k, path, off, false)
    decreases k
  {
    if k > 0 {
      LastInFixed(rules, k - 1, path, off, release);
    }
  }

  /**
   * Rule `e` of a section under `root` treats `path` alike in both runs: it
   * is fixed, the path lies outside the root, or neither of its two
   * patterns matches the path there.
   */
  predicate Inert(root: seq<string>, e: Entry, path: seq<string>)
  {
    e.Always? ||
    !(|root| <= |path| && InRoot(root, path)) ||
    (!MatchAt(e.released.segments, 0, path, |root|) && !MatchAt(e.otherwise.segments, 0, path, |root|))
  }

  /** Rules that treat a path alike in both runs give it the same verdict in both. */
  lemma {:induction false} LastInAgrees(root: seq<string>, rules: seq<Entry>, k: nat, path: seq<string>)
    requires k <= |rules| && |root| <= |path| && InRoot(root, path)
    requires forall b :: 0 <= b < k ==> Inert(root, rules[b], path)
    ensures LastIn(rules, k, path, |root|, true) == LastIn(rules, k, path, |root|, false)
    decreases k
  {
    if k > 0 {
      LastInAgrees(root, rules, k - 1, path);
    }
  }

  /** Within its root, a section's rules decide as the full patterns would; outside it they say nothing. */
  lemma {:induction false} LastInUnder(root: seq<string>, rules: seq<Entry>, k: nat, path: seq<string>, release: bool)
    requires k <= |rules|
    ensures |root| <= |path| && InRoot(root, path) ==>
      LastIn(rules, k, path, |root|, release) == LastVerdict(Under(root, rules, release), k, path)
    ensures !(|root| <= |path| && InRoot(root, path)) ==> LastVerdict(Under(root, rules, release), k, path).None?
    decreases k
  {
    InRootMeans(root, path);
    if k > 0 {
      LastInUnder(root, rules, k - 1, path, release);
      UnderNames(root, Choose(rules[k - 1], release).segments, path, 0);
    }
  }

  /** The first `n` sections of a table, each under its root, one after the other. */
  function Flatten(roots: seq<seq<string>>, rules: seq<seq<Entry>>, n: nat, release: bool): seq<Pattern>
    requires n <= |roots| && n <= |rules|
  {
    if n == 0 then [] else Flatten(roots, rules, n - 1, release) + Under(roots[n - 1], rules[n - 1], release)
  }

  /**
   * The verdict of the first `n` sections, found from the last section
   * backwards: a section whose root does not contain the path is skipped
   * whole.
   */
  function Decide(roots: seq<seq<string>>, rules: seq<seq<Entry>>, n: nat, path: seq<string>, release: bool): bool
    requires n <= |roots| && n <= |rules|
  {
    if n == 0 then false
    else
      var root := roots[n - 1];
      var rs := rules[n - 1];
      if |root| <= |path| && InRoot(root, path) then
        match LastIn(rs, |rs|, path, |root|, release)
        case Some(b) => b
        case None => Decide(roots, rules, n - 1, path, release)
      else Decide(roots, rules, n - 1, path, release)
  }

  /** Deciding section by section gives the verdict of the in-order walk. */
  lemma {:induction false} DecideIsClassify(roots: seq<seq<string>>, rules: seq<seq<Entry>>, n: nat, path: seq<string>, release: bool)
    requires n <= |roots| && n <= |rules|
    ensures Decide(roots, rules, n, path, release) == Classify(Flatten(roots, rules, n, release), path)
    decreases n
  {
    if n > 0 {
      var sec := Under(roots[n - 1], rules[n - 1], release);
      DecideIsClassify(roots, rules, n - 1, path, release);
      WalkAppend(Flatten(roots, rules, n - 1, release), sec, path, false);
      WalkIsLast(sec, path, Classify(Flatten(roots, rules, n - 1, release), path));
      LastInUnder(roots[n - 1], rules[n - 1], |rules[n - 1]|, path, release);
    }
  }

  /** The release flag changes no verdict on a path that every rule of the table treats alike in both runs. */
  lemma {:induction false} DecideAgrees(roots: seq<seq<string>>, rules: seq<seq<Entry>>, n: nat, path: seq<string>)
    requires n <= |roots| && n <= |rules|
    requires forall a, b :: 0 <= a < n && 0 <= b < |rules[a]| ==> Inert(roots[a], rules[a][b], path)
    ensures Decide(roots, rules, n, path, true) == Decide(roots, rules, n, path, false)
    decreases n
  {
    if n > 0 {
      DecideAgrees(roots, rules, n - 1, path);
      var root := roots[n - 1];
      if |root| <= |path| && InRoot(root, path) {
        LastInAgrees(root, rules[n - 1], |rules[n - 1]|, path);
      }
    }
  }

  /** Section `j` lies within the path's depth and none of its rules matches the path. */
  predicate Passes(roots: seq<seq<string>>, rules: seq<seq<Entry>>, j: nat, path: seq<string>, release: bool)
  {
    j < |roots| && j < |rules| && |roots[j]| <= |path| && LastIn(rules[j], |rules[j]|, path, |roots[j]|, release) == None
  }

  /**
   * A path that no section decides is hand-written: every root either does
   * not contain it or is one of `passes`.
   */
  lemma {:induction false} NoneDecides(roots: seq<seq<string>>, rules: seq<seq<Entry>>, n: nat, path: seq<string>, release: bool, passes: set<nat>)
    requires n <= |roots| && n <= |rules|
    requires forall j :: 0 <= j < n ==> j in passes || !InRoot(roots[j], path)
    requires forall j :: j in passes ==> Passes(roots, rules, j, path, release)
    ensures !Decide(roots, rules, n, path, release)
    decreases n
  {
    if n > 0 {
      NoneDecides(roots, rules, n - 1, path, release, passes);
    }
  }

  /**
   * Sections after `k` up to `n` do not change the verdict when each either
   * has a root that does not contain the path or is one of `passes`.
   */
  lemma {:induction false} DecidedAbove(roots: seq<seq<string>>, rules: seq<seq<Entry>>, n: nat, path: seq<string>, release: bool, k: nat, passes: set<nat>)
    requires k < n <= |roots| && n <= |rules|
    requires forall j :: k < j < n ==> j in passes || !InRoot(roots[j], path)
    requires forall j :: j in passes ==> Passes(roots, rules, j, path, release)
    ensures Decide(roots, rules, n, path, release) == Decide(roots, rules, k + 1, path, release)
    decreases n
  {
    if k + 1 < n {
      DecidedAbove(roots, rules, n - 1, path, release, k, passes);
    }
  }

  /** Section `k`, whose root contains the path and one of whose rules `sec` matches it, decides it. */
  lemma DecideAt(roots: seq<seq<string>>, rules: seq<seq<Entry>>, path: seq<string>, release: bool, k: nat, sec: seq<Entry>, b: bool)
    requires k < |roots| && k < |rules| && rules[k] == sec && |roots[k]| <= |path| && InRoot(roots[k], path)
    requires LastIn(sec, |sec|, path, |roots[k]|, release) == Some(b)
    ensures Decide(roots, rules, k + 1, path, release) == b
  {
  }

  /** Section `k`, whose rules `sec` do not match the path, leaves the verdict to the sections before it. */
  lemma DecidePast(roots: seq<seq<string>>, rules: seq<seq<Entry>>, path: seq<string>, release: bool, k: nat, sec: seq<Entry>)
    requires k < |roots| && k < |rules| && rules[k] == sec && |roots[k]| <= |path|
    requires LastIn(sec, |sec|, path, |roots[k]|, release) == None
    ensures Decide(roots, rules, k + 1, path, release) == Decide(roots, rules, k, path, release)
  {
  }
}
