/**
 * Properties of the shipped table that hold for whole families of paths,
 * and the effect of reordering two of its entries.
 */
module TableLaws {
  import opened Glob
  import opened Wrappers
  import opened Ownership
  import opened GenerationTable
  import opened TablePaths

  // ---------------------------------------------------------------------
  // The JavaScript client's tests
  // ---------------------------------------------------------------------

  const JsTestsDir: seq<string> := ["clients", "flapjack-search-javascript", "packages", "flapjack-search", "__tests__"]

  /**
   * A path strictly below the JavaScript client's tests directory, with no
   * hidden name below that directory, whose last name is not `LICENSE`.
   */
  predicate JsTestsFile(path: seq<string>)
  {
    |path| > |JsTestsDir| && path[..|JsTestsDir|] == JsTestsDir &&
    (forall k :: |JsTestsDir| <= k < |path| ==> !Hidden(path[k])) &&
    path[|path| - 1] != "LICENSE"
  }

  lemma JsTestsNames(path: seq<string>)
    requires JsTestsFile(path)
    ensures path[0] == "clients" && path[1] == "flapjack-search-javascript" && path[2] == "packages"
    ensures path[3] == "flapjack-search" && path[4] == "__tests__"
  {
    assert forall i :: 0 <= i < 5 ==> path[..5][i] == path[i];
  }

  lemma JsTestsRoots(path: seq<string>)
    requires JsTestsFile(path)
    ensures forall j :: 11 < j < 24 ==> j in {22, 23} || !InRoot(Roots()[j], path)
  {
    JsTestsNames(path);
    assert forall j :: 11 < j < 17 ==> !InRoot(Roots()[j], path);
  }

  lemma JsTestsInLicenses(path: seq<string>, release: bool)
    requires JsTestsFile(path)
    ensures LastIn(Licenses(), 1, path, 1, release) == None
  {
    EndsWithName("LICENSE", path, 1);
  }

  lemma JsTestsInTopLevel(path: seq<string>, release: bool)
    requires JsTestsFile(path)
    ensures LastIn(TopLevel(), 1, path, 0, release) == None
  {
    JsTestsNames(path);
  }

  /** Line 78 excludes the tests, and line 79, the only later entry of the section, does not reach them. */
  lemma JsTestsInJavaScript(path: seq<string>, release: bool)
    requires JsTestsFile(path)
    ensures LastIn(JavaScript(), 10, path, 2, release) == Some(false)
  {
    JsTestsNames(path);
    var tests := [Lit("packages"), Lit("flapjack-search"), Lit("__tests__"), Globstar];
    var vitest := [Lit("packages"), Lit("flapjack-search"), Lit("vitest.config.ts")];
    assert Choose(JavaScript()[8], release) == Pattern(true, tests);
    assert Choose(JavaScript()[9], release) == Pattern(true, vitest);
    TrailingGlobstar(tests, path, 5);
    assert MatchAt(tests, 2, path, 4);
    assert MatchAt(tests, 0, path, 2);
    assert !MatchAt(vitest, 2, path, 4);
    assert !MatchAt(vitest, 0, path, 2);
  }

  lemma JsTestsAbove(path: seq<string>, release: bool)
    requires JsTestsFile(path)
    ensures Owned(release, path) == Decide(Roots(), Rules(), 12, path, release)
  {
    JsTestsNames(path);
    JsTestsRoots(path);
    JsTestsInLicenses(path, release);
    JsTestsInTopLevel(path, release);
    DecidedAbove(Roots(), Rules(), 24, path, release, 11, {22, 23});
  }

  lemma JsTestsHead(path: seq<string>, release: bool)
    requires JsTestsFile(path)
    ensures !Decide(Roots(), Rules(), 12, path, release)
  {
    JsTestsNames(path);
    JsTestsInJavaScript(path, release);
    DecideAt(Roots(), Rules(), path, release, 11, JavaScript(), false);
  }

  /**
   * Every file below the JavaScript client's tests directory is hand-written
   * in every run, unless a name below that directory is hidden or the file
   * is a `LICENSE` (see `TablePaths.JsTestsLicense`).
   */
  lemma JsTestsPreserved(path: seq<string>, release: bool)
    requires JsTestsFile(path)
    ensures !Owned(release, path)
  {
    JsTestsAbove(path, release);
    JsTestsHead(path, release);
  }

  // ---------------------------------------------------------------------
  // Agent instructions under clients
  // ---------------------------------------------------------------------

  /** The client directories, each the root of a section of its own. */
  const ClientDirs: set<string> := {
    "flapjack-search-csharp", "flapjack-search-dart", "flapjack-search-go", "flapjack-search-java",
    "flapjack-search-javascript", "flapjack-search-kotlin", "flapjack-search-php", "flapjack-search-python",
    "flapjack-search-ruby", "flapjack-search-scala", "flapjack-search-swift"
  }

  /**
   * An `AGENTS.md` anywhere below `clients` but outside every client
   * directory, reached through names none of which is hidden.
   */
  predicate SharedAgentsFile(path: seq<string>)
  {
    |path| >= 2 && path[0] == "clients" && path[|path| - 1] == "AGENTS.md" && path[1] !in ClientDirs &&
    forall k :: 1 <= k < |path| ==> !Hidden(path[k])
  }

  lemma SharedAgentsRoots(path: seq<string>)
    requires SharedAgentsFile(path)
    ensures forall j :: 3 < j < 24 ==> j in {22, 23} || !InRoot(Roots()[j], path)
  {
    assert forall j :: 3 < j < 13 ==> !InRoot(Roots()[j], path);
    assert forall j :: 13 <= j < 22 ==> !InRoot(Roots()[j], path);
  }

  lemma SharedAgentsInLicenses(path: seq<string>, release: bool)
    requires SharedAgentsFile(path)
    ensures LastIn(Licenses(), 1, path, 1, release) == None
  {
    EndsWithName("LICENSE", path, 1);
  }

  lemma SharedAgentsInTopLevel(path: seq<string>, release: bool)
    requires SharedAgentsFile(path)
    ensures LastIn(TopLevel(), 1, path, 0, release) == None
  {
  }

  /** Line 16, the last entry of its section, excludes the file. */
  lemma SharedAgentsInClientsShared(path: seq<string>, release: bool)
    requires SharedAgentsFile(path)
    ensures LastIn(ClientsShared(), 6, path, 1, release) == Some(false)
  {
    EndsWithName("AGENTS.md", path, 1);
    assert Choose(ClientsShared()[5], release) == Pattern(true, [Globstar, Lit("AGENTS.md")]);
  }

  lemma SharedAgentsAbove(path: seq<string>, release: bool)
    requires SharedAgentsFile(path)
    ensures Owned(release, path) == Decide(Roots(), Rules(), 4, path, release)
  {
    SharedAgentsRoots(path);
    SharedAgentsInLicenses(path, release);
    SharedAgentsInTopLevel(path, release);
    DecidedAbove(Roots(), Rules(), 24, path, release, 3, {22, 23});
  }

  lemma SharedAgentsHead(path: seq<string>, release: bool)
    requires SharedAgentsFile(path)
    ensures !Decide(Roots(), Rules(), 4, path, release)
  {
    SharedAgentsInClientsShared(path, release);
    DecideAt(Roots(), Rules(), path, release, 3, ClientsShared(), false);
  }

  /**
   * Every `AGENTS.md` below `clients` outside the client directories is
   * hand-written in every run, unless a name on its way is hidden (see
   * `TablePaths.HiddenSharedAgents`).
   */
  lemma SharedAgentsPreserved(path: seq<string>, release: bool)
    requires SharedAgentsFile(path)
    ensures !Owned(release, path)
  {
    SharedAgentsAbove(path, release);
    SharedAgentsHead(path, release);
  }

  // ---------------------------------------------------------------------
  // Order within a section
  // ---------------------------------------------------------------------

  /** The Dart section with the entries of lines 40 and 41 exchanged. */
  function DartExchanged(): seq<Entry>
  {
    Dart()[7 := Dart()[8]][8 := Dart()[7]]
  }

  /** The table with the Dart section so reordered. */
  function RulesExchanged(): seq<seq<Entry>>
  {
    Rules()[6 := DartExchanged()]
  }

  lemma VersionDartInExchanged(release: bool)
    ensures LastIn(DartExchanged(), 11, VersionDartPath, 2, release) == Some(false)
  {
    assert LastIn(DartExchanged(), 9, VersionDartPath, 2, false) == Some(false);
    assert LastIn(DartExchanged(), 11, VersionDartPath, 2, false) == Some(false);
    LastInFixed(DartExchanged(), 11, VersionDartPath, 2, release);
  }

  lemma ExchangedAbove(release: bool)
    ensures Decide(Roots(), RulesExchanged(), 24, VersionDartPath, release) == Decide(Roots(), RulesExchanged(), 7, VersionDartPath, release)
  {
    VersionDartRoots();
    VersionDartInLicenses(release);
    VersionDartInTopLevel(release);
    DecidedAbove(Roots(), RulesExchanged(), 24, VersionDartPath, release, 6, {22, 23});
  }

  lemma ExchangedHead(release: bool)
    ensures !Decide(Roots(), RulesExchanged(), 7, VersionDartPath, release)
  {
    VersionDartInExchanged(release);
    DecideAt(Roots(), RulesExchanged(), VersionDartPath, release, 6, DartExchanged(), false);
  }

  /**
   * The order of lines 40 and 41 decides the Dart version file: as shipped
   * it is owned, and with the two entries exchanged the in-order walk
   * leaves it hand-written.
   */
  lemma DartOrderMatters(release: bool)
    ensures Owned(release, VersionDartPath)
    ensures !Classify(Flatten(Roots(), RulesExchanged(), 24, release), VersionDartPath)
  {
    VersionDart(release);
    ExchangedAbove(release);
    ExchangedHead(release);
    DecideIsClassify(Roots(), RulesExchanged(), 24, VersionDartPath, release);
  }

  // ---------------------------------------------------------------------
  // Hidden names
  // ---------------------------------------------------------------------

  /** Line 7 alone does not reach a hidden file under `docs`; line 8 does. */
  lemma DocsHiddenNeedsDotPattern()
    ensures !Matches(Lits(["docs"]) + [Globstar], DocsHiddenPath)
    ensures Matches(Lits(["docs"]) + [Globstar, Star(".*")], DocsHiddenPath)
  {
    UnderRoot(["docs"], DocsHiddenPath);
    assert Hidden(DocsHiddenPath[2]);
    UnderNames(["docs"], [Globstar, Star(".*")], DocsHiddenPath, 0);
  }
}
