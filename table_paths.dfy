/**
 * What the shipped table decides for particular repository paths.
 *
 * For each path, `...Roots` lists the later sections whose roots do not
 * contain it, `...In<Section>` evaluates the sections whose roots do, and
 * the remaining lemmas put these together into a verdict of `Owned`.
 */
module TablePaths {
  import opened Glob
  import opened Wrappers
  import opened Ownership
  import opened GenerationTable

  const YarnLockPath: seq<string> := ["yarn.lock"]

  lemma YarnLockInTopLevel(release: bool)
    ensures LastIn(TopLevel(), 1, YarnLockPath, 0, release) == Some(true)
  {
    assert MatchAt(Choose(TopLevel()[0], false).segments, 0, YarnLockPath, 0);
    assert LastIn(TopLevel(), 1, YarnLockPath, 0, false) == Some(true);
    LastInFixed(TopLevel(), 1, YarnLockPath, 0, release);
  }

  /** The root `yarn.lock` is owned: the last entry of the table names it. */
  lemma YarnLock(release: bool)
    ensures Owned(release, YarnLockPath)
  {
    YarnLockInTopLevel(release);
    DecideAt(Roots(), Rules(), YarnLockPath, release, 23, TopLevel(), true);
  }

  const CodegenTypesPath: seq<string> := ["scripts", "ci", "codegen", "types.ts"]

  lemma CodegenTypesRoots()
    ensures forall j :: 0 <= j < 24 ==> j in {23} || !InRoot(Roots()[j], CodegenTypesPath)
  {
    assert forall j :: 0 <= j < 8 ==> j in {23} || !InRoot(Roots()[j], CodegenTypesPath);
    assert forall j :: 8 <= j < 16 ==> j in {23} || !InRoot(Roots()[j], CodegenTypesPath);
  }

  lemma CodegenTypesInTopLevel(release: bool)
    ensures LastIn(TopLevel(), 1, CodegenTypesPath, 0, release) == None
  {

    assert LastIn(TopLevel(), 1, CodegenTypesPath, 0, false) == None;
    LastInFixed(TopLevel(), 1, CodegenTypesPath, 0, release);
  }

  /** The push-task types are written by hand: nothing in the table matches their path. */
  lemma CodegenTypes(release: bool)
    ensures !Owned(release, CodegenTypesPath)
  {
    CodegenTypesRoots();
    CodegenTypesInTopLevel(release);
    NoneDecides(Roots(), Rules(), 24, CodegenTypesPath, release, {23});
  }

  const BundledSpecPath: seq<string> := ["specs", "bundled", "search.yml"]

  lemma BundledSpecRoots()
    ensures forall j :: 1 <= j < 24 ==> j in {23} || !InRoot(Roots()[j], BundledSpecPath)
  {
    assert forall j :: 1 <= j < 9 ==> j in {23} || !InRoot(Roots()[j], BundledSpecPath);
    assert forall j :: 9 <= j < 17 ==> j in {23} || !InRoot(Roots()[j], BundledSpecPath);
  }

  lemma BundledSpecInBundled(release: bool)
    ensures LastIn(Bundled(), 2, BundledSpecPath, 2, release) == Some(true)
  {
    StarSuffixSegment(".yml", "search.yml");
    assert "*" + ".yml" == "*.yml";
    StarSuffixSegment(".json", "search.yml");
    assert "*" + ".json" == "*.json";
    assert MatchAt(Choose(Bundled()[0], false).segments, 0, BundledSpecPath, 2);
    assert LastIn(Bundled(), 1, BundledSpecPath, 2, false) == Some(true);
    assert LastIn(Bundled(), 2, BundledSpecPath, 2, false) == Some(true);
    LastInFixed(Bundled(), 2, BundledSpecPath, 2, release);
  }

  lemma BundledSpecInTopLevel(release: bool)
    ensures LastIn(TopLevel(), 1, BundledSpecPath, 0, release) == None
  {

    assert LastIn(TopLevel(), 1, BundledSpecPath, 0, false) == None;
    LastInFixed(TopLevel(), 1, BundledSpecPath, 0, release);
  }

  lemma BundledSpecAbove(release: bool)
    ensures Owned(release, BundledSpecPath) == Decide(Roots(), Rules(), 1, BundledSpecPath, release)
  {
    BundledSpecRoots();
    BundledSpecInTopLevel(release);
    DecidedAbove(Roots(), Rules(), 24, BundledSpecPath, release, 0, {23});
  }

  lemma BundledSpecHead(release: bool)
    ensures Decide(Roots(), Rules(), 1, BundledSpecPath, release) == true
  {
    BundledSpecInBundled(release);
    DecideAt(Roots(), Rules(), BundledSpecPath, release, 0, Bundled(), true);
  }

  /** A bundled specification at the top of `specs/bundled` is owned. */
  lemma BundledSpec(release: bool)
    ensures Owned(release, BundledSpecPath)
  {
    BundledSpecAbove(release);
    BundledSpecHead(release);
  }

  const BundledNestedSpecPath: seq<string> := ["specs", "bundled", "sub", "search.yml"]

  lemma BundledNestedSpecRoots()
    ensures forall j :: 0 <= j < 24 ==> j in {0, 23} || !InRoot(Roots()[j], BundledNestedSpecPath)
  {
    assert forall j :: 0 <= j < 8 ==> j in {0, 23} || !InRoot(Roots()[j], BundledNestedSpecPath);
    assert forall j :: 8 <= j < 16 ==> j in {0, 23} || !InRoot(Roots()[j], BundledNestedSpecPath);
  }

  lemma BundledNestedSpecInBundled(release: bool)
    ensures LastIn(Bundled(), 2, BundledNestedSpecPath, 2, release) == None
  {
    StarSuffixSegment(".yml", "sub");
    assert "*" + ".yml" == "*.yml";
    StarSuffixSegment(".json", "sub");
    assert "*" + ".json" == "*.json";
    assert LastIn(Bundled(), 1, BundledNestedSpecPath, 2, false) == None;
    assert LastIn(Bundled(), 2, BundledNestedSpecPath, 2, false) == None;
    LastInFixed(Bundled(), 2, BundledNestedSpecPath, 2, release);
  }

  lemma BundledNestedSpecInTopLevel(release: bool)
    ensures LastIn(TopLevel(), 1, BundledNestedSpecPath, 0, release) == None
  {

    assert LastIn(TopLevel(), 1, BundledNestedSpecPath, 0, false) == None;
    LastInFixed(TopLevel(), 1, BundledNestedSpecPath, 0, release);
  }

  /** `*` stays within one segment: a bundled specification one directory further down is not owned. */
  lemma BundledNestedSpec(release: bool)
    ensures !Owned(release, BundledNestedSpecPath)
  {
    BundledNestedSpecRoots();
    BundledNestedSpecInBundled(release);
    BundledNestedSpecInTopLevel(release);
    NoneDecides(Roots(), Rules(), 24, BundledNestedSpecPath, release, {0, 23});
  }

  const DocsReadmePath: seq<string> := ["docs", "README.md"]

  lemma DocsReadmeRoots()
    ensures forall j :: 3 <= j < 24 ==> j in {23} || !InRoot(Roots()[j], DocsReadmePath)
  {
    assert forall j :: 3 <= j < 11 ==> j in {23} || !InRoot(Roots()[j], DocsReadmePath);
    assert forall j :: 11 <= j < 19 ==> j in {23} || !InRoot(Roots()[j], DocsReadmePath);
  }

  lemma DocsReadmeInDocs(release: bool)
    ensures LastIn(Docs(), 4, DocsReadmePath, 1, release) == Some(false)
  {
    assert MatchAt(Choose(Docs()[3], false).segments, 0, DocsReadmePath, 1);
    assert LastIn(Docs(), 4, DocsReadmePath, 1, false) == Some(false);
    LastInFixed(Docs(), 4, DocsReadmePath, 1, release);
  }

  lemma DocsReadmeInTopLevel(release: bool)
    ensures LastIn(TopLevel(), 1, DocsReadmePath, 0, release) == None
  {

    assert LastIn(TopLevel(), 1, DocsReadmePath, 0, false) == None;
    LastInFixed(TopLevel(), 1, DocsReadmePath, 0, release);
  }

  lemma DocsReadmeAbove(release: bool)
    ensures Owned(release, DocsReadmePath) == Decide(Roots(), Rules(), 3, DocsReadmePath, release)
  {
    DocsReadmeRoots();
    DocsReadmeInTopLevel(release);
    DecidedAbove(Roots(), Rules(), 24, DocsReadmePath, release, 2, {23});
  }

  lemma DocsReadmeHead(release: bool)
    ensures Decide(Roots(), Rules(), 3, DocsReadmePath, release) == false
  {
    DocsReadmeInDocs(release);
    DecideAt(Roots(), Rules(), DocsReadmePath, release, 2, Docs(), false);
  }

  /** `docs/README.md` is hand-written although line 7 owns everything else below `docs`. */
  lemma DocsReadme(release: bool)
    ensures !Owned(release, DocsReadmePath)
  {
    DocsReadmeAbove(release);
    DocsReadmeHead(release);
  }

  const DocsHiddenPath: seq<string> := ["docs", "guides", ".hidden"]

  lemma DocsHiddenRoots()
    ensures forall j :: 3 <= j < 24 ==> j in {23} || !InRoot(Roots()[j], DocsHiddenPath)
  {
    assert forall j :: 3 <= j < 11 ==> j in {23} || !InRoot(Roots()[j], DocsHiddenPath);
    assert forall j :: 11 <= j < 19 ==> j in {23} || !InRoot(Roots()[j], DocsHiddenPath);
  }

  lemma DocsHiddenInDocs(release: bool)
    ensures LastIn(Docs(), 4, DocsHiddenPath, 1, release) == Some(true)
  {
    DotStarSegment("guides");
    DotStarSegment(".hidden");
    assert MatchAt(Choose(Docs()[2], false).segments, 0, DocsHiddenPath, 1);
    assert LastIn(Docs(), 3, DocsHiddenPath, 1, false) == Some(true);
    assert LastIn(Docs(), 4, DocsHiddenPath, 1, false) == Some(true);
    LastInFixed(Docs(), 4, DocsHiddenPath, 1, release);
  }

  lemma DocsHiddenInTopLevel(release: bool)
    ensures LastIn(TopLevel(), 1, DocsHiddenPath, 0, release) == None
  {

    assert LastIn(TopLevel(), 1, DocsHiddenPath, 0, false) == None;
    LastInFixed(TopLevel(), 1, DocsHiddenPath, 0, release);
  }

  lemma DocsHiddenAbove(release: bool)
    ensures Owned(release, DocsHiddenPath) == Decide(Roots(), Rules(), 3, DocsHiddenPath, release)
  {
    DocsHiddenRoots();
    DocsHiddenInTopLevel(release);
    DecidedAbove(Roots(), Rules(), 24, DocsHiddenPath, release, 2, {23});
  }

  lemma DocsHiddenHead(release: bool)
    ensures Decide(Roots(), Rules(), 3, DocsHiddenPath, release) == true
  {
    DocsHiddenInDocs(release);
    DecideAt(Roots(), Rules(), DocsHiddenPath, release, 2, Docs(), true);
  }

  /** A hidden file under `docs` is owned through the dot pattern of line 8; line 7 alone does not reach hidden names. */
  lemma DocsHidden(release: bool)
    ensures Owned(release, DocsHiddenPath)
  {
    DocsHiddenAbove(release);
    DocsHiddenHead(release);
  }

  const ClientsReadmePath: seq<string> := ["clients", "README.md"]

  lemma ClientsReadmeRoots()
    ensures forall j :: 4 <= j < 24 ==> j in {22, 23} || !InRoot(Roots()[j], ClientsReadmePath)
  {
    assert forall j :: 4 <= j < 12 ==> j in {22, 23} || !InRoot(Roots()[j], ClientsReadmePath);
    assert forall j :: 12 <= j < 20 ==> j in {22, 23} || !InRoot(Roots()[j], ClientsReadmePath);
  }

  lemma ClientsReadmeInClientsSharedStart()
    ensures LastIn(ClientsShared(), 2, ClientsReadmePath, 1, false) == Some(false)
  {
    assert MatchAt(Choose(ClientsShared()[0], false).segments, 0, ClientsReadmePath, 1);
    assert LastIn(ClientsShared(), 1, ClientsReadmePath, 1, false) == Some(false);
  }


  lemma ClientsReadmeInClientsShared(release: bool)
    ensures LastIn(ClientsShared(), 6, ClientsReadmePath, 1, release) == Some(false)
  {
    ClientsReadmeInClientsSharedStart();
    assert LastIn(ClientsShared(), 3, ClientsReadmePath, 1, false) == Some(false);
    assert LastIn(ClientsShared(), 4, ClientsReadmePath, 1, false) == Some(false);
    assert LastIn(ClientsShared(), 5, ClientsReadmePath, 1, false) == Some(false);
    assert LastIn(ClientsShared(), 6, ClientsReadmePath, 1, false) == Some(false);
    LastInFixed(ClientsShared(), 6, ClientsReadmePath, 1, release);
  }

  lemma ClientsReadmeInLicenses(release: bool)
    ensures LastIn(Licenses(), 1, ClientsReadmePath, 1, release) == None
  {

    assert LastIn(Licenses(), 1, ClientsReadmePath, 1, false) == None;
    LastInFixed(Licenses(), 1, ClientsReadmePath, 1, release);
  }

  lemma ClientsReadmeInTopLevel(release: bool)
    ensures LastIn(TopLevel(), 1, ClientsReadmePath, 0, release) == None
  {

    assert LastIn(TopLevel(), 1, ClientsReadmePath, 0, false) == None;
    LastInFixed(TopLevel(), 1, ClientsReadmePath, 0, release);
  }

  lemma ClientsReadmeAbove(release: bool)
    ensures Owned(release, ClientsReadmePath) == Decide(Roots(), Rules(), 4, ClientsReadmePath, release)
  {
    ClientsReadmeRoots();
    ClientsReadmeInLicenses(release);
    ClientsReadmeInTopLevel(release);
    DecidedAbove(Roots(), Rules(), 24, ClientsReadmePath, release, 3, {22, 23});
  }

  lemma ClientsReadmeHead(release: bool)
    ensures Decide(Roots(), Rules(), 4, ClientsReadmePath, release) == false
  {
    ClientsReadmeInClientsShared(release);
    DecideAt(Roots(), Rules(), ClientsReadmePath, release, 3, ClientsShared(), false);
  }

  /** `clients/README.md` is hand-written although line 6 owns everything else below `clients`. */
  lemma ClientsReadme(release: bool)
    ensures !Owned(release, ClientsReadmePath)
  {
    ClientsReadmeAbove(release);
    ClientsReadmeHead(release);
  }

  const ClientsAgentsPath: seq<string> := ["clients", "AGENTS.md"]

  lemma ClientsAgentsRoots()
    ensures forall j :: 4 <= j < 24 ==> j in {22, 23} || !InRoot(Roots()[j], ClientsAgentsPath)
  {
    assert forall j :: 4 <= j < 12 ==> j in {22, 23} || !InRoot(Roots()[j], ClientsAgentsPath);
    assert forall j :: 12 <= j < 20 ==> j in {22, 23} || !InRoot(Roots()[j], ClientsAgentsPath);
  }

  lemma ClientsAgentsInClientsShared(release: bool)
    ensures LastIn(ClientsShared(), 6, ClientsAgentsPath, 1, release) == Some(false)
  {
    assert MatchAt(Choose(ClientsShared()[5], false).segments, 0, ClientsAgentsPath, 1);
    assert LastIn(ClientsShared(), 6, ClientsAgentsPath, 1, false) == Some(false);
    LastInFixed(ClientsShared(), 6, ClientsAgentsPath, 1, release);
  }

  lemma ClientsAgentsInLicenses(release: bool)
    ensures LastIn(Licenses(), 1, ClientsAgentsPath, 1, release) == None
  {

    assert LastIn(Licenses(), 1, ClientsAgentsPath, 1, false) == None;
    LastInFixed(Licenses(), 1, ClientsAgentsPath, 1, release);
  }

  lemma ClientsAgentsInTopLevel(release: bool)
    ensures LastIn(TopLevel(), 1, ClientsAgentsPath, 0, release) == None
  {

    assert LastIn(TopLevel(), 1, ClientsAgentsPath, 0, false) == None;
    LastInFixed(TopLevel(), 1, ClientsAgentsPath, 0, release);
  }

  lemma ClientsAgentsAbove(release: bool)
    ensures Owned(release, ClientsAgentsPath) == Decide(Roots(), Rules(), 4, ClientsAgentsPath, release)
  {
    ClientsAgentsRoots();
    ClientsAgentsInLicenses(release);
    ClientsAgentsInTopLevel(release);
    DecidedAbove(Roots(), Rules(), 24, ClientsAgentsPath, release, 3, {22, 23});
  }

  lemma ClientsAgentsHead(release: bool)
    ensures Decide(Roots(), Rules(), 4, ClientsAgentsPath, release) == false
  {
    ClientsAgentsInClientsShared(release);
    DecideAt(Roots(), Rules(), ClientsAgentsPath, release, 3, ClientsShared(), false);
  }

  /** `clients/AGENTS.md` is hand-written. */
  lemma ClientsAgents(release: bool)
    ensures !Owned(release, ClientsAgentsPath)
  {
    ClientsAgentsAbove(release);
    ClientsAgentsHead(release);
  }

  const NestedAgentsPath: seq<string> := ["clients", "common", "docs", "AGENTS.md"]

  lemma NestedAgentsRoots()
    ensures forall j :: 4 <= j < 24 ==> j in {22, 23} || !InRoot(Roots()[j], NestedAgentsPath)
  {
    assert forall j :: 4 <= j < 12 ==> j in {22, 23} || !InRoot(Roots()[j], NestedAgentsPath);
    assert forall j :: 12 <= j < 20 ==> j in {22, 23} || !InRoot(Roots()[j], NestedAgentsPath);
  }

  lemma NestedAgentsInClientsShared(release: bool)
    ensures LastIn(ClientsShared(), 6, NestedAgentsPath, 1, release) == Some(false)
  {
    assert MatchAt(Choose(ClientsShared()[5], false).segments, 0, NestedAgentsPath, 1);
    assert LastIn(ClientsShared(), 6, NestedAgentsPath, 1, false) == Some(false);
    LastInFixed(ClientsShared(), 6, NestedAgentsPath, 1, release);
  }

  lemma NestedAgentsInLicenses(release: bool)
    ensures LastIn(Licenses(), 1, NestedAgentsPath, 1, release) == None
  {

    assert LastIn(Licenses(), 1, NestedAgentsPath, 1, false) == None;
    LastInFixed(Licenses(), 1, NestedAgentsPath, 1, release);
  }

  lemma NestedAgentsInTopLevel(release: bool)
    ensures LastIn(TopLevel(), 1, NestedAgentsPath, 0, release) == None
  {

    assert LastIn(TopLevel(), 1, NestedAgentsPath, 0, false) == None;
    LastInFixed(TopLevel(), 1, NestedAgentsPath, 0, release);
  }

  lemma NestedAgentsAbove(release: bool)
    ensures Owned(release, NestedAgentsPath) == Decide(Roots(), Rules(), 4, NestedAgentsPath, release)
  {
    NestedAgentsRoots();
    NestedAgentsInLicenses(release);
    NestedAgentsInTopLevel(release);
    DecidedAbove(Roots(), Rules(), 24, NestedAgentsPath, release, 3, {22, 23});
  }

  lemma NestedAgentsHead(release: bool)
    ensures Decide(Roots(), Rules(), 4, NestedAgentsPath, release) == false
  {
    NestedAgentsInClientsShared(release);
    DecideAt(Roots(), Rules(), NestedAgentsPath, release, 3, ClientsShared(), false);
  }

  /** An `AGENTS.md` further down `clients`, outside every client section, is hand-written. */
  lemma NestedAgents(release: bool)
    ensures !Owned(release, NestedAgentsPath)
  {
    NestedAgentsAbove(release);
    NestedAgentsHead(release);
  }

  const HiddenSharedAgentsPath: seq<string> := ["clients", "common", ".github", "AGENTS.md"]

  lemma HiddenSharedAgentsRoots()
    ensures forall j :: 4 <= j < 24 ==> j in {22, 23} || !InRoot(Roots()[j], HiddenSharedAgentsPath)
  {
    assert forall j :: 4 <= j < 12 ==> j in {22, 23} || !InRoot(Roots()[j], HiddenSharedAgentsPath);
    assert forall j :: 12 <= j < 20 ==> j in {22, 23} || !InRoot(Roots()[j], HiddenSharedAgentsPath);
  }

  lemma HiddenSharedAgentsInClientsShared(release: bool)
    ensures LastIn(ClientsShared(), 6, HiddenSharedAgentsPath, 1, release) == Some(true)
  {
    assert MatchAt(Choose(ClientsShared()[3], false).segments, 0, HiddenSharedAgentsPath, 1);
    assert LastIn(ClientsShared(), 4, HiddenSharedAgentsPath, 1, false) == Some(true);
    assert LastIn(ClientsShared(), 5, HiddenSharedAgentsPath, 1, false) == Some(true);
    assert LastIn(ClientsShared(), 6, HiddenSharedAgentsPath, 1, false) == Some(true);
    LastInFixed(ClientsShared(), 6, HiddenSharedAgentsPath, 1, release);
  }

  lemma HiddenSharedAgentsInLicenses(release: bool)
    ensures LastIn(Licenses(), 1, HiddenSharedAgentsPath, 1, release) == None
  {

    assert LastIn(Licenses(), 1, HiddenSharedAgentsPath, 1, false) == None;
    LastInFixed(Licenses(), 1, HiddenSharedAgentsPath, 1, release);
  }

  lemma HiddenSharedAgentsInTopLevel(release: bool)
    ensures LastIn(TopLevel(), 1, HiddenSharedAgentsPath, 0, release) == None
  {

    assert LastIn(TopLevel(), 1, HiddenSharedAgentsPath, 0, false) == None;
    LastInFixed(TopLevel(), 1, HiddenSharedAgentsPath, 0, release);
  }

  lemma HiddenSharedAgentsAbove(release: bool)
    ensures Owned(release, HiddenSharedAgentsPath) == Decide(Roots(), Rules(), 4, HiddenSharedAgentsPath, release)
  {
    HiddenSharedAgentsRoots();
    HiddenSharedAgentsInLicenses(release);
    HiddenSharedAgentsInTopLevel(release);
    DecidedAbove(Roots(), Rules(), 24, HiddenSharedAgentsPath, release, 3, {22, 23});
  }

  lemma HiddenSharedAgentsHead(release: bool)
    ensures Decide(Roots(), Rules(), 4, HiddenSharedAgentsPath, release) == true
  {
    HiddenSharedAgentsInClientsShared(release);
    DecideAt(Roots(), Rules(), HiddenSharedAgentsPath, release, 3, ClientsShared(), true);
  }

  /** An `AGENTS.md` under a hidden `.github` directory is owned: line 14 matches it, and the `**` of line 16 does not cross `.github`. */
  lemma HiddenSharedAgents(release: bool)
    ensures Owned(release, HiddenSharedAgentsPath)
  {
    HiddenSharedAgentsAbove(release);
    HiddenSharedAgentsHead(release);
  }

  const JavaAgentsPath: seq<string> := ["clients", "flapjack-search-java", "AGENTS.md"]

  lemma JavaAgentsRoots()
    ensures forall j :: 10 <= j < 24 ==> j in {22, 23} || !InRoot(Roots()[j], JavaAgentsPath)
  {
    assert forall j :: 10 <= j < 18 ==> j in {22, 23} || !InRoot(Roots()[j], JavaAgentsPath);
  }

  lemma JavaAgentsInJavaStart()
    ensures LastIn(Java(), 1, JavaAgentsPath, 2, false) == Some(false)
  {
    assert MatchAt(Choose(Java()[0], false).segments, 0, JavaAgentsPath, 2);
  }


  lemma JavaAgentsInJava(release: bool)
    ensures LastIn(Java(), 5, JavaAgentsPath, 2, release) == Some(false)
  {
    JavaAgentsInJavaStart();
    assert LastIn(Java(), 2, JavaAgentsPath, 2, false) == Some(false);
    assert LastIn(Java(), 3, JavaAgentsPath, 2, false) == Some(false);
    assert LastIn(Java(), 4, JavaAgentsPath, 2, false) == Some(false);
    assert LastIn(Java(), 5, JavaAgentsPath, 2, false) == Some(false);
    LastInFixed(Java(), 5, JavaAgentsPath, 2, release);
  }

  lemma JavaAgentsInLicenses(release: bool)
    ensures LastIn(Licenses(), 1, JavaAgentsPath, 1, release) == None
  {

    assert LastIn(Licenses(), 1, JavaAgentsPath, 1, false) == None;
    LastInFixed(Licenses(), 1, JavaAgentsPath, 1, release);
  }

  lemma JavaAgentsInTopLevel(release: bool)
    ensures LastIn(TopLevel(), 1, JavaAgentsPath, 0, release) == None
  {

    assert LastIn(TopLevel(), 1, JavaAgentsPath, 0, false) == None;
    LastInFixed(TopLevel(), 1, JavaAgentsPath, 0, release);
  }

  lemma JavaAgentsAbove(release: bool)
    ensures Owned(release, JavaAgentsPath) == Decide(Roots(), Rules(), 10, JavaAgentsPath, release)
  {
    JavaAgentsRoots();
    JavaAgentsInLicenses(release);
    JavaAgentsInTopLevel(release);
    DecidedAbove(Roots(), Rules(), 24, JavaAgentsPath, release, 9, {22, 23});
  }

  lemma JavaAgentsHead(release: bool)
    ensures Decide(Roots(), Rules(), 10, JavaAgentsPath, release) == false
  {
    JavaAgentsInJava(release);
    DecideAt(Roots(), Rules(), JavaAgentsPath, release, 9, Java(), false);
  }

  /** The Java client's `AGENTS.md` is hand-written: line 58, later than line 16, excludes the whole client again. */
  lemma JavaAgents(release: bool)
    ensures !Owned(release, JavaAgentsPath)
  {
    JavaAgentsAbove(release);
    JavaAgentsHead(release);
  }

  const CSharpNestedAgentsPath: seq<string> := ["clients", "flapjack-search-csharp", "flapjacksearch", "AGENTS.md"]

  lemma CSharpNestedAgentsRoots()
    ensures forall j :: 5 <= j < 24 ==> j in {22, 23} || !InRoot(Roots()[j], CSharpNestedAgentsPath)
  {
    assert forall j :: 5 <= j < 13 ==> j in {22, 23} || !InRoot(Roots()[j], CSharpNestedAgentsPath);
    assert forall j :: 13 <= j < 21 ==> j in {22, 23} || !InRoot(Roots()[j], CSharpNestedAgentsPath);
  }

  lemma CSharpNestedAgentsInCSharpStart()
    ensures LastIn(CSharp(), 3, CSharpNestedAgentsPath, 2, false) == Some(true)
  {
    StarSegment("flapjacksearch");
    assert MatchAt(Choose(CSharp()[0], false).segments, 0, CSharpNestedAgentsPath, 2);
    assert LastIn(CSharp(), 1, CSharpNestedAgentsPath, 2, false) == Some(true);
    assert LastIn(CSharp(), 2, CSharpNestedAgentsPath, 2, false) == Some(true);
  }


  lemma CSharpNestedAgentsInCSharp(release: bool)
    ensures LastIn(CSharp(), 9, CSharpNestedAgentsPath, 2, release) == Some(true)
  {
    StarSegment("flapjacksearch");
    CSharpNestedAgentsInCSharpStart();
    assert LastIn(CSharp(), 4, CSharpNestedAgentsPath, 2, false) == Some(true);
    assert LastIn(CSharp(), 5, CSharpNestedAgentsPath, 2, false) == Some(true);
    assert LastIn(CSharp(), 6, CSharpNestedAgentsPath, 2, false) == Some(true);
    assert LastIn(CSharp(), 7, CSharpNestedAgentsPath, 2, false) == Some(true);
    assert LastIn(CSharp(), 8, CSharpNestedAgentsPath, 2, false) == Some(true);
    assert LastIn(CSharp(), 9, CSharpNestedAgentsPath, 2, false) == Some(true);
    LastInFixed(CSharp(), 9, CSharpNestedAgentsPath, 2, release);
  }

  lemma CSharpNestedAgentsInLicenses(release: bool)
    ensures LastIn(Licenses(), 1, CSharpNestedAgentsPath, 1, release) == None
  {

    assert LastIn(Licenses(), 1, CSharpNestedAgentsPath, 1, false) == None;
    LastInFixed(Licenses(), 1, CSharpNestedAgentsPath, 1, release);
  }

  lemma CSharpNestedAgentsInTopLevel(release: bool)
    ensures LastIn(TopLevel(), 1, CSharpNestedAgentsPath, 0, release) == None
  {

    assert LastIn(TopLevel(), 1, CSharpNestedAgentsPath, 0, false) == None;
    LastInFixed(TopLevel(), 1, CSharpNestedAgentsPath, 0, release);
  }

  lemma CSharpNestedAgentsAbove(release: bool)
    ensures Owned(release, CSharpNestedAgentsPath) == Decide(Roots(), Rules(), 5, CSharpNestedAgentsPath, release)
  {
    CSharpNestedAgentsRoots();
    CSharpNestedAgentsInLicenses(release);
    CSharpNestedAgentsInTopLevel(release);
    DecidedAbove(Roots(), Rules(), 24, CSharpNestedAgentsPath, release, 4, {22, 23});
  }

  lemma CSharpNestedAgentsHead(release: bool)
    ensures Decide(Roots(), Rules(), 5, CSharpNestedAgentsPath, release) == true
  {
    CSharpNestedAgentsInCSharp(release);
    DecideAt(Roots(), Rules(), CSharpNestedAgentsPath, release, 4, CSharp(), true);
  }

  /** An `AGENTS.md` inside the C# sources is owned: line 19, which owns everything below the C# client, comes after line 16. */
  lemma CSharpNestedAgents(release: bool)
    ensures Owned(release, CSharpNestedAgentsPath)
  {
    CSharpNestedAgentsAbove(release);
    CSharpNestedAgentsHead(release);
  }

  const CSharpReadmePath: seq<string> := ["clients", "flapjack-search-csharp", "README.md"]

  lemma CSharpReadmeRoots()
    ensures forall j :: 5 <= j < 24 ==> j in {22, 23} || !InRoot(Roots()[j], CSharpReadmePath)
  {
    assert forall j :: 5 <= j < 13 ==> j in {22, 23} || !InRoot(Roots()[j], CSharpReadmePath);
    assert forall j :: 13 <= j < 21 ==> j in {22, 23} || !InRoot(Roots()[j], CSharpReadmePath);
  }

  lemma CSharpReadmeInCSharpStart()
    ensures LastIn(CSharp(), 4, CSharpReadmePath, 2, false) == Some(false)
  {
    StarSegment("README.md");
    assert MatchAt(Choose(CSharp()[1], false).segments, 0, CSharpReadmePath, 2);
    assert LastIn(CSharp(), 2, CSharpReadmePath, 2, false) == Some(false);
    assert LastIn(CSharp(), 3, CSharpReadmePath, 2, false) == Some(false);
  }


  lemma CSharpReadmeInCSharp(release: bool)
    ensures LastIn(CSharp(), 9, CSharpReadmePath, 2, release) == Some(false)
  {
    StarSegment("README.md");
    CSharpReadmeInCSharpStart();
    assert LastIn(CSharp(), 5, CSharpReadmePath, 2, false) == Some(false);
    assert LastIn(CSharp(), 6, CSharpReadmePath, 2, false) == Some(false);
    assert LastIn(CSharp(), 7, CSharpReadmePath, 2, false) == Some(false);
    assert LastIn(CSharp(), 8, CSharpReadmePath, 2, false) == Some(false);
    assert LastIn(CSharp(), 9, CSharpReadmePath, 2, false) == Some(false);
    LastInFixed(CSharp(), 9, CSharpReadmePath, 2, release);
  }

  lemma CSharpReadmeInLicenses(release: bool)
    ensures LastIn(Licenses(), 1, CSharpReadmePath, 1, release) == None
  {

    assert LastIn(Licenses(), 1, CSharpReadmePath, 1, false) == None;
    LastInFixed(Licenses(), 1, CSharpReadmePath, 1, release);
  }

  lemma CSharpReadmeInTopLevel(release: bool)
    ensures LastIn(TopLevel(), 1, CSharpReadmePath, 0, release) == None
  {

    assert LastIn(TopLevel(), 1, CSharpReadmePath, 0, false) == None;
    LastInFixed(TopLevel(), 1, CSharpReadmePath, 0, release);
  }

  lemma CSharpReadmeAbove(release: bool)
    ensures Owned(release, CSharpReadmePath) == Decide(Roots(), Rules(), 5, CSharpReadmePath, release)
  {
    CSharpReadmeRoots();
    CSharpReadmeInLicenses(release);
    CSharpReadmeInTopLevel(release);
    DecidedAbove(Roots(), Rules(), 24, CSharpReadmePath, release, 4, {22, 23});
  }

  lemma CSharpReadmeHead(release: bool)
    ensures Decide(Roots(), Rules(), 5, CSharpReadmePath, release) == false
  {
    CSharpReadmeInCSharp(release);
    DecideAt(Roots(), Rules(), CSharpReadmePath, release, 4, CSharp(), false);
  }

  /** `*` stays within one segment: the C# client's top-level `README.md` is hand-written. */
  lemma CSharpReadme(release: bool)
    ensures !Owned(release, CSharpReadmePath)
  {
    CSharpReadmeAbove(release);
    CSharpReadmeHead(release);
  }

  const CSharpApiPath: seq<string> := ["clients", "flapjack-search-csharp", "flapjacksearch", "Api", "SearchClient.cs"]

  lemma CSharpApiRoots()
    ensures forall j :: 5 <= j < 24 ==> j in {22, 23} || !InRoot(Roots()[j], CSharpApiPath)
  {
    assert forall j :: 5 <= j < 13 ==> j in {22, 23} || !InRoot(Roots()[j], CSharpApiPath);
    assert forall j :: 13 <= j < 21 ==> j in {22, 23} || !InRoot(Roots()[j], CSharpApiPath);
  }

  lemma CSharpApiInCSharpStart()
    ensures LastIn(CSharp(), 3, CSharpApiPath, 2, false) == Some(true)
  {
    StarSegment("flapjacksearch");
    assert MatchAt(Choose(CSharp()[0], false).segments, 0, CSharpApiPath, 2);
    assert LastIn(CSharp(), 1, CSharpApiPath, 2, false) == Some(true);
    assert LastIn(CSharp(), 2, CSharpApiPath, 2, false) == Some(true);
  }


  lemma CSharpApiInCSharp(release: bool)
    ensures LastIn(CSharp(), 9, CSharpApiPath, 2, release) == Some(true)
  {
    StarSegment("flapjacksearch");
    CSharpApiInCSharpStart();
    assert LastIn(CSharp(), 4, CSharpApiPath, 2, false) == Some(true);
    assert LastIn(CSharp(), 5, CSharpApiPath, 2, false) == Some(true);
    assert LastIn(CSharp(), 6, CSharpApiPath, 2, false) == Some(true);
    assert LastIn(CSharp(), 7, CSharpApiPath, 2, false) == Some(true);
    assert LastIn(CSharp(), 8, CSharpApiPath, 2, false) == Some(true);
    assert LastIn(CSharp(), 9, CSharpApiPath, 2, false) == Some(true);
    LastInFixed(CSharp(), 9, CSharpApiPath, 2, release);
  }

  lemma CSharpApiInLicenses(release: bool)
    ensures LastIn(Licenses(), 1, CSharpApiPath, 1, release) == None
  {

    assert LastIn(Licenses(), 1, CSharpApiPath, 1, false) == None;
    LastInFixed(Licenses(), 1, CSharpApiPath, 1, release);
  }

  lemma CSharpApiInTopLevel(release: bool)
    ensures LastIn(TopLevel(), 1, CSharpApiPath, 0, release) == None
  {

    assert LastIn(TopLevel(), 1, CSharpApiPath, 0, false) == None;
    LastInFixed(TopLevel(), 1, CSharpApiPath, 0, release);
  }

  lemma CSharpApiAbove(release: bool)
    ensures Owned(release, CSharpApiPath) == Decide(Roots(), Rules(), 5, CSharpApiPath, release)
  {
    CSharpApiRoots();
    CSharpApiInLicenses(release);
    CSharpApiInTopLevel(release);
    DecidedAbove(Roots(), Rules(), 24, CSharpApiPath, release, 4, {22, 23});
  }

  lemma CSharpApiHead(release: bool)
    ensures Decide(Roots(), Rules(), 5, CSharpApiPath, release) == true
  {
    CSharpApiInCSharp(release);
    DecideAt(Roots(), Rules(), CSharpApiPath, release, 4, CSharp(), true);
  }

  /** A generated C# API file two directories down is owned. */
  lemma CSharpApi(release: bool)
    ensures Owned(release, CSharpApiPath)
  {
    CSharpApiAbove(release);
    CSharpApiHead(release);
  }

  const VersionDartPath: seq<string> := ["clients", "flapjack-search-dart", "packages", "client_core", "lib", "src", "version.dart"]

  lemma VersionDartRoots()
    ensures forall j :: 7 <= j < 24 ==> j in {22, 23} || !InRoot(Roots()[j], VersionDartPath)
  {
    assert forall j :: 7 <= j < 15 ==> j in {22, 23} || !InRoot(Roots()[j], VersionDartPath);
    assert forall j :: 15 <= j < 23 ==> j in {22, 23} || !InRoot(Roots()[j], VersionDartPath);
  }

  lemma VersionDartInDart(release: bool)
    ensures LastIn(Dart(), 11, VersionDartPath, 2, release) == Some(true)
  {
    StarSegment("client_core");
    assert MatchAt(Choose(Dart()[8], false).segments, 0, VersionDartPath, 2);
    assert LastIn(Dart(), 9, VersionDartPath, 2, false) == Some(true);
    assert LastIn(Dart(), 10, VersionDartPath, 2, false) == Some(true);
    assert LastIn(Dart(), 11, VersionDartPath, 2, false) == Some(true);
    LastInFixed(Dart(), 11, VersionDartPath, 2, release);
  }

  lemma VersionDartInLicenses(release: bool)
    ensures LastIn(Licenses(), 1, VersionDartPath, 1, release) == None
  {

    assert LastIn(Licenses(), 1, VersionDartPath, 1, false) == None;
    LastInFixed(Licenses(), 1, VersionDartPath, 1, release);
  }

  lemma VersionDartInTopLevel(release: bool)
    ensures LastIn(TopLevel(), 1, VersionDartPath, 0, release) == None
  {

    assert LastIn(TopLevel(), 1, VersionDartPath, 0, false) == None;
    LastInFixed(TopLevel(), 1, VersionDartPath, 0, release);
  }

  lemma VersionDartAbove(release: bool)
    ensures Owned(release, VersionDartPath) == Decide(Roots(), Rules(), 7, VersionDartPath, release)
  {
    VersionDartRoots();
    VersionDartInLicenses(release);
    VersionDartInTopLevel(release);
    DecidedAbove(Roots(), Rules(), 24, VersionDartPath, release, 6, {22, 23});
  }

  lemma VersionDartHead(release: bool)
    ensures Decide(Roots(), Rules(), 7, VersionDartPath, release) == true
  {
    VersionDartInDart(release);
    DecideAt(Roots(), Rules(), VersionDartPath, release, 6, Dart(), true);
  }

  /** The Dart version file is owned: line 41 re-owns it after line 40 gave its package back. */
  lemma VersionDart(release: bool)
    ensures Owned(release, VersionDartPath)
  {
    VersionDartAbove(release);
    VersionDartHead(release);
  }

  const JsPackageJsonPath: seq<string> := ["clients", "flapjack-search-javascript", "packages", "flapjack-search", "package.json"]

  lemma JsPackageJsonRoots()
    ensures forall j :: 12 <= j < 24 ==> j in {22, 23} || !InRoot(Roots()[j], JsPackageJsonPath)
  {
    assert forall j :: 12 <= j < 20 ==> j in {22, 23} || !InRoot(Roots()[j], JsPackageJsonPath);
  }

  lemma JsPackageJsonInJavaScriptReleasedStart()
    ensures LastIn(JavaScript(), 6, JsPackageJsonPath, 2, true) == Some(false)
  {
    assert MatchAt(Choose(JavaScript()[4], true).segments, 0, JsPackageJsonPath, 2);
    assert LastIn(JavaScript(), 5, JsPackageJsonPath, 2, true) == Some(false);
  }

  lemma JsPackageJsonInJavaScriptReleased()
    ensures LastIn(JavaScript(), 10, JsPackageJsonPath, 2, true) == Some(false)
  {
    JsPackageJsonInJavaScriptReleasedStart();
    assert LastIn(JavaScript(), 7, JsPackageJsonPath, 2, true) == Some(false);
    assert LastIn(JavaScript(), 8, JsPackageJsonPath, 2, true) == Some(false);
    assert LastIn(JavaScript(), 9, JsPackageJsonPath, 2, true) == Some(false);
  }

  lemma JsPackageJsonInJavaScriptOtherwiseStart()
    ensures LastIn(JavaScript(), 6, JsPackageJsonPath, 2, false) == Some(true)
  {
    assert MatchAt(Choose(JavaScript()[4], false).segments, 0, JsPackageJsonPath, 2);
    assert LastIn(JavaScript(), 5, JsPackageJsonPath, 2, false) == Some(true);
  }

  lemma JsPackageJsonInJavaScriptOtherwise()
    ensures LastIn(JavaScript(), 10, JsPackageJsonPath, 2, false) == Some(true)
  {
    JsPackageJsonInJavaScriptOtherwiseStart();
    assert LastIn(JavaScript(), 7, JsPackageJsonPath, 2, false) == Some(true);
    assert LastIn(JavaScript(), 8, JsPackageJsonPath, 2, false) == Some(true);
    assert LastIn(JavaScript(), 9, JsPackageJsonPath, 2, false) == Some(true);
  }

  lemma JsPackageJsonInJavaScript(release: bool)
    ensures LastIn(JavaScript(), 10, JsPackageJsonPath, 2, release) == Some(!release)
  {
    if release {
      JsPackageJsonInJavaScriptReleased();
    } else {
      JsPackageJsonInJavaScriptOtherwise();
    }
  }

  lemma JsPackageJsonInLicenses(release: bool)
    ensures LastIn(Licenses(), 1, JsPackageJsonPath, 1, release) == None
  {

    assert LastIn(Licenses(), 1, JsPackageJsonPath, 1, false) == None;
    LastInFixed(Licenses(), 1, JsPackageJsonPath, 1, release);
  }

  lemma JsPackageJsonInTopLevel(release: bool)
    ensures LastIn(TopLevel(), 1, JsPackageJsonPath, 0, release) == None
  {

    assert LastIn(TopLevel(), 1, JsPackageJsonPath, 0, false) == None;
    LastInFixed(TopLevel(), 1, JsPackageJsonPath, 0, release);
  }

  lemma JsPackageJsonAbove(release: bool)
    ensures Owned(release, JsPackageJsonPath) == Decide(Roots(), Rules(), 12, JsPackageJsonPath, release)
  {
    JsPackageJsonRoots();
    JsPackageJsonInLicenses(release);
    JsPackageJsonInTopLevel(release);
    DecidedAbove(Roots(), Rules(), 24, JsPackageJsonPath, release, 11, {22, 23});
  }

  lemma JsPackageJsonHead(release: bool)
    ensures Decide(Roots(), Rules(), 12, JsPackageJsonPath, release) == !release
  {
    JsPackageJsonInJavaScript(release);
    DecideAt(Roots(), Rules(), JsPackageJsonPath, release, 11, JavaScript(), !release);
  }

  /** A JavaScript package manifest is owned exactly when the release process is not running. */
  lemma JsPackageJson(release: bool)
    ensures Owned(release, JsPackageJsonPath) <==> !release
  {
    JsPackageJsonAbove(release);
    JsPackageJsonHead(release);
  }

  const JsRequesterPackageJsonPath: seq<string> := ["clients", "flapjack-search-javascript", "packages", "requester-fetch", "package.json"]

  lemma JsRequesterPackageJsonRoots()
    ensures forall j :: 12 <= j < 24 ==> j in {22, 23} || !InRoot(Roots()[j], JsRequesterPackageJsonPath)
  {
    assert forall j :: 12 <= j < 20 ==> j in {22, 23} || !InRoot(Roots()[j], JsRequesterPackageJsonPath);
  }

  lemma JsRequesterPackageJsonInJavaScriptReleasedStart()
    ensures LastIn(JavaScript(), 6, JsRequesterPackageJsonPath, 2, true) == Some(false)
  {
    PrefixStarSegment("requester-", "requester-fetch");
    assert "requester-" + "*" == "requester-*";
    assert MatchAt(Choose(JavaScript()[5], true).segments, 0, JsRequesterPackageJsonPath, 2);
  }

  lemma JsRequesterPackageJsonInJavaScriptReleased()
    ensures LastIn(JavaScript(), 10, JsRequesterPackageJsonPath, 2, true) == Some(false)
  {
    PrefixStarSegment("requester-", "requester-fetch");
    assert "requester-" + "*" == "requester-*";
    JsRequesterPackageJsonInJavaScriptReleasedStart();
    assert LastIn(JavaScript(), 7, JsRequesterPackageJsonPath, 2, true) == Some(false);
    assert LastIn(JavaScript(), 8, JsRequesterPackageJsonPath, 2, true) == Some(false);
    assert LastIn(JavaScript(), 9, JsRequesterPackageJsonPath, 2, true) == Some(false);
  }

  lemma JsRequesterPackageJsonInJavaScriptOtherwiseStart()
    ensures LastIn(JavaScript(), 6, JsRequesterPackageJsonPath, 2, false) == Some(false)
  {
    PrefixStarSegment("requester-", "requester-fetch");
    assert "requester-" + "*" == "requester-*";
    assert MatchAt(Choose(JavaScript()[5], false).segments, 0, JsRequesterPackageJsonPath, 2);
  }

  lemma JsRequesterPackageJsonInJavaScriptOtherwise()
    ensures LastIn(JavaScript(), 10, JsRequesterPackageJsonPath, 2, false) == Some(false)
  {
    PrefixStarSegment("requester-", "requester-fetch");
    assert "requester-" + "*" == "requester-*";
    JsRequesterPackageJsonInJavaScriptOtherwiseStart();
    assert LastIn(JavaScript(), 7, JsRequesterPackageJsonPath, 2, false) == Some(false);
    assert LastIn(JavaScript(), 8, JsRequesterPackageJsonPath, 2, false) == Some(false);
    assert LastIn(JavaScript(), 9, JsRequesterPackageJsonPath, 2, false) == Some(false);
  }

  lemma JsRequesterPackageJsonInJavaScript(release: bool)
    ensures LastIn(JavaScript(), 10, JsRequesterPackageJsonPath, 2, release) == Some(false)
  {
    if release {
      JsRequesterPackageJsonInJavaScriptReleased();
    } else {
      JsRequesterPackageJsonInJavaScriptOtherwise();
    }
  }

  lemma JsRequesterPackageJsonInLicenses(release: bool)
    ensures LastIn(Licenses(), 1, JsRequesterPackageJsonPath, 1, release) == None
  {

    assert LastIn(Licenses(), 1, JsRequesterPackageJsonPath, 1, false) == None;
    LastInFixed(Licenses(), 1, JsRequesterPackageJsonPath, 1, release);
  }

  lemma JsRequesterPackageJsonInTopLevel(release: bool)
    ensures LastIn(TopLevel(), 1, JsRequesterPackageJsonPath, 0, release) == None
  {

    assert LastIn(TopLevel(), 1, JsRequesterPackageJsonPath, 0, false) == None;
    LastInFixed(TopLevel(), 1, JsRequesterPackageJsonPath, 0, release);
  }

  lemma JsRequesterPackageJsonAbove(release: bool)
    ensures Owned(release, JsRequesterPackageJsonPath) == Decide(Roots(), Rules(), 12, JsRequesterPackageJsonPath, release)
  {
    JsRequesterPackageJsonRoots();
    JsRequesterPackageJsonInLicenses(release);
    JsRequesterPackageJsonInTopLevel(release);
    DecidedAbove(Roots(), Rules(), 24, JsRequesterPackageJsonPath, release, 11, {22, 23});
  }

  lemma JsRequesterPackageJsonHead(release: bool)
    ensures Decide(Roots(), Rules(), 12, JsRequesterPackageJsonPath, release) == false
  {
    JsRequesterPackageJsonInJavaScript(release);
    DecideAt(Roots(), Rules(), JsRequesterPackageJsonPath, release, 11, JavaScript(), false);
  }

  /** A requester package manifest is hand-written in every run: the later `requester-*` exclusion wins. */
  lemma JsRequesterPackageJson(release: bool)
    ensures !Owned(release, JsRequesterPackageJsonPath)
  {
    JsRequesterPackageJsonAbove(release);
    JsRequesterPackageJsonHead(release);
  }

  const JsTestPath: seq<string> := ["clients", "flapjack-search-javascript", "packages", "flapjack-search", "__tests__", "flapjack-search.node.test.ts"]

  lemma JsTestRoots()
    ensures forall j :: 12 <= j < 24 ==> j in {22, 23} || !InRoot(Roots()[j], JsTestPath)
  {
    assert forall j :: 12 <= j < 20 ==> j in {22, 23} || !InRoot(Roots()[j], JsTestPath);
  }

  lemma JsTestInJavaScriptReleased()
    ensures LastIn(JavaScript(), 10, JsTestPath, 2, true) == Some(false)
  {
    assert MatchAt(Choose(JavaScript()[8], true).segments, 0, JsTestPath, 2);
    assert LastIn(JavaScript(), 9, JsTestPath, 2, true) == Some(false);
  }

  lemma JsTestInJavaScriptOtherwise()
    ensures LastIn(JavaScript(), 10, JsTestPath, 2, false) == Some(false)
  {
    assert MatchAt(Choose(JavaScript()[8], false).segments, 0, JsTestPath, 2);
    assert LastIn(JavaScript(), 9, JsTestPath, 2, false) == Some(false);
  }

  lemma JsTestInJavaScript(release: bool)
    ensures LastIn(JavaScript(), 10, JsTestPath, 2, release) == Some(false)
  {
    if release {
      JsTestInJavaScriptReleased();
    } else {
      JsTestInJavaScriptOtherwise();
    }
  }

  lemma JsTestInLicenses(release: bool)
    ensures LastIn(Licenses(), 1, JsTestPath, 1, release) == None
  {

    assert LastIn(Licenses(), 1, JsTestPath, 1, false) == None;
    LastInFixed(Licenses(), 1, JsTestPath, 1, release);
  }

  lemma JsTestInTopLevel(release: bool)
    ensures LastIn(TopLevel(), 1, JsTestPath, 0, release) == None
  {

    assert LastIn(TopLevel(), 1, JsTestPath, 0, false) == None;
    LastInFixed(TopLevel(), 1, JsTestPath, 0, release);
  }

  lemma JsTestAbove(release: bool)
    ensures Owned(release, JsTestPath) == Decide(Roots(), Rules(), 12, JsTestPath, release)
  {
    JsTestRoots();
    JsTestInLicenses(release);
    JsTestInTopLevel(release);
    DecidedAbove(Roots(), Rules(), 24, JsTestPath, release, 11, {22, 23});
  }

  lemma JsTestHead(release: bool)
    ensures Decide(Roots(), Rules(), 12, JsTestPath, release) == false
  {
    JsTestInJavaScript(release);
    DecideAt(Roots(), Rules(), JsTestPath, release, 11, JavaScript(), false);
  }

  /** A JavaScript test file is hand-written. */
  lemma JsTest(release: bool)
    ensures !Owned(release, JsTestPath)
  {
    JsTestAbove(release);
    JsTestHead(release);
  }

  const JsTestsLicensePath: seq<string> := ["clients", "flapjack-search-javascript", "packages", "flapjack-search", "__tests__", "LICENSE"]

  lemma JsTestsLicenseInLicenses(release: bool)
    ensures LastIn(Licenses(), 1, JsTestsLicensePath, 1, release) == Some(true)
  {
    assert MatchAt(Choose(Licenses()[0], false).segments, 0, JsTestsLicensePath, 1);
    assert LastIn(Licenses(), 1, JsTestsLicensePath, 1, false) == Some(true);
    LastInFixed(Licenses(), 1, JsTestsLicensePath, 1, release);
  }

  lemma JsTestsLicenseInTopLevel(release: bool)
    ensures LastIn(TopLevel(), 1, JsTestsLicensePath, 0, release) == None
  {

    assert LastIn(TopLevel(), 1, JsTestsLicensePath, 0, false) == None;
    LastInFixed(TopLevel(), 1, JsTestsLicensePath, 0, release);
  }

  lemma JsTestsLicenseAbove(release: bool)
    ensures Owned(release, JsTestsLicensePath) == Decide(Roots(), Rules(), 23, JsTestsLicensePath, release)
  {
    JsTestsLicenseInTopLevel(release);
    DecidedAbove(Roots(), Rules(), 24, JsTestsLicensePath, release, 22, {23});
  }

  lemma JsTestsLicenseHead(release: bool)
    ensures Decide(Roots(), Rules(), 23, JsTestsLicensePath, release) == true
  {
    JsTestsLicenseInLicenses(release);
    DecideAt(Roots(), Rules(), JsTestsLicensePath, release, 22, Licenses(), true);
  }

  /** A `LICENSE` under the JavaScript tests is owned: the `LICENSE` rule of line 162 comes after the tests exclusion of line 78. */
  lemma JsTestsLicense(release: bool)
    ensures Owned(release, JsTestsLicensePath)
  {
    JsTestsLicenseAbove(release);
    JsTestsLicenseHead(release);
  }

  const JsTestsHiddenGithubPath: seq<string> := ["clients", "flapjack-search-javascript", "packages", "flapjack-search", "__tests__", ".github", "ci.yml"]

  lemma JsTestsHiddenGithubRoots()
    ensures forall j :: 4 <= j < 24 ==> j in {11, 22, 23} || !InRoot(Roots()[j], JsTestsHiddenGithubPath)
  {
    assert forall j :: 4 <= j < 12 ==> j in {11, 22, 23} || !InRoot(Roots()[j], JsTestsHiddenGithubPath);
    assert forall j :: 12 <= j < 20 ==> j in {11, 22, 23} || !InRoot(Roots()[j], JsTestsHiddenGithubPath);
  }

  lemma JsTestsHiddenGithubInClientsShared(release: bool)
    ensures LastIn(ClientsShared(), 6, JsTestsHiddenGithubPath, 1, release) == Some(true)
  {
    assert MatchAt(Choose(ClientsShared()[3], false).segments, 0, JsTestsHiddenGithubPath, 1);
    assert LastIn(ClientsShared(), 4, JsTestsHiddenGithubPath, 1, false) == Some(true);
    assert LastIn(ClientsShared(), 5, JsTestsHiddenGithubPath, 1, false) == Some(true);
    assert LastIn(ClientsShared(), 6, JsTestsHiddenGithubPath, 1, false) == Some(true);
    LastInFixed(ClientsShared(), 6, JsTestsHiddenGithubPath, 1, release);
  }

  lemma JsTestsHiddenGithubInJavaScriptReleasedStart()
    ensures LastIn(JavaScript(), 4, JsTestsHiddenGithubPath, 2, true) == None
  {
    StarSegment("packages");
    assert LastIn(JavaScript(), 1, JsTestsHiddenGithubPath, 2, true) == None;
    assert LastIn(JavaScript(), 2, JsTestsHiddenGithubPath, 2, true) == None;
    assert LastIn(JavaScript(), 3, JsTestsHiddenGithubPath, 2, true) == None;
  }

  lemma JsTestsHiddenGithubInJavaScriptReleased()
    ensures LastIn(JavaScript(), 10, JsTestsHiddenGithubPath, 2, true) == None
  {
    StarSegment("packages");
    JsTestsHiddenGithubInJavaScriptReleasedStart();
    assert LastIn(JavaScript(), 5, JsTestsHiddenGithubPath, 2, true) == None;
    assert LastIn(JavaScript(), 6, JsTestsHiddenGithubPath, 2, true) == None;
    assert LastIn(JavaScript(), 7, JsTestsHiddenGithubPath, 2, true) == None;
    assert LastIn(JavaScript(), 8, JsTestsHiddenGithubPath, 2, true) == None;
    assert LastIn(JavaScript(), 9, JsTestsHiddenGithubPath, 2, true) == None;
  }

  lemma JsTestsHiddenGithubInJavaScriptOtherwiseStart()
    ensures LastIn(JavaScript(), 4, JsTestsHiddenGithubPath, 2, false) == None
  {
    StarSegment("packages");
    assert LastIn(JavaScript(), 1, JsTestsHiddenGithubPath, 2, false) == None;
    assert LastIn(JavaScript(), 2, JsTestsHiddenGithubPath, 2, false) == None;
    assert LastIn(JavaScript(), 3, JsTestsHiddenGithubPath, 2, false) == None;
  }

  lemma JsTestsHiddenGithubInJavaScriptOtherwise()
    ensures LastIn(JavaScript(), 10, JsTestsHiddenGithubPath, 2, false) == None
  {
    StarSegment("packages");
    JsTestsHiddenGithubInJavaScriptOtherwiseStart();
    assert LastIn(JavaScript(), 5, JsTestsHiddenGithubPath, 2, false) == None;
    assert LastIn(JavaScript(), 6, JsTestsHiddenGithubPath, 2, false) == None;
    assert LastIn(JavaScript(), 7, JsTestsHiddenGithubPath, 2, false) == None;
    assert LastIn(JavaScript(), 8, JsTestsHiddenGithubPath, 2, false) == None;
    assert LastIn(JavaScript(), 9, JsTestsHiddenGithubPath, 2, false) == None;
  }

  lemma JsTestsHiddenGithubInJavaScript(release: bool)
    ensures LastIn(JavaScript(), 10, JsTestsHiddenGithubPath, 2, release) == None
  {
    if release {
      JsTestsHiddenGithubInJavaScriptReleased();
    } else {
      JsTestsHiddenGithubInJavaScriptOtherwise();
    }
  }

  lemma JsTestsHiddenGithubInLicenses(release: bool)
    ensures LastIn(Licenses(), 1, JsTestsHiddenGithubPath, 1, release) == None
  {

    assert LastIn(Licenses(), 1, JsTestsHiddenGithubPath, 1, false) == None;
    LastInFixed(Licenses(), 1, JsTestsHiddenGithubPath, 1, release);
  }

  lemma JsTestsHiddenGithubInTopLevel(release: bool)
    ensures LastIn(TopLevel(), 1, JsTestsHiddenGithubPath, 0, release) == None
  {

    assert LastIn(TopLevel(), 1, JsTestsHiddenGithubPath, 0, false) == None;
    LastInFixed(TopLevel(), 1, JsTestsHiddenGithubPath, 0, release);
  }

  lemma JsTestsHiddenGithubUpper(release: bool)
    ensures Owned(release, JsTestsHiddenGithubPath) == Decide(Roots(), Rules(), 12, JsTestsHiddenGithubPath, release)
  {
    JsTestsHiddenGithubRoots();
    JsTestsHiddenGithubInLicenses(release);
    JsTestsHiddenGithubInTopLevel(release);
    DecidedAbove(Roots(), Rules(), 24, JsTestsHiddenGithubPath, release, 11, {22, 23});
  }

  lemma JsTestsHiddenGithubPast(release: bool)
    ensures Decide(Roots(), Rules(), 12, JsTestsHiddenGithubPath, release) == Decide(Roots(), Rules(), 11, JsTestsHiddenGithubPath, release)
  {
    JsTestsHiddenGithubInJavaScript(release);
    DecidePast(Roots(), Rules(), JsTestsHiddenGithubPath, release, 11, JavaScript());
  }

  lemma JsTestsHiddenGithubLower(release: bool)
    ensures Decide(Roots(), Rules(), 11, JsTestsHiddenGithubPath, release) == Decide(Roots(), Rules(), 4, JsTestsHiddenGithubPath, release)
  {
    JsTestsHiddenGithubRoots();
    DecidedAbove(Roots(), Rules(), 11, JsTestsHiddenGithubPath, release, 3, {});
  }

  lemma JsTestsHiddenGithubAbove(release: bool)
    ensures Owned(release, JsTestsHiddenGithubPath) == Decide(Roots(), Rules(), 4, JsTestsHiddenGithubPath, release)
  {
    JsTestsHiddenGithubUpper(release);
    JsTestsHiddenGithubPast(release);
    JsTestsHiddenGithubLower(release);
  }

  lemma JsTestsHiddenGithubHead(release: bool)
    ensures Decide(Roots(), Rules(), 4, JsTestsHiddenGithubPath, release) == true
  {
    JsTestsHiddenGithubInClientsShared(release);
    DecideAt(Roots(), Rules(), JsTestsHiddenGithubPath, release, 3, ClientsShared(), true);
  }

  /** A `.github` directory under the JavaScript tests is owned: line 78 does not reach hidden names, so line 14 decides. */
  lemma JsTestsHiddenGithub(release: bool)
    ensures Owned(release, JsTestsHiddenGithubPath)
  {
    JsTestsHiddenGithubAbove(release);
    JsTestsHiddenGithubHead(release);
  }

  const JavaLicensePath: seq<string> := ["clients", "flapjack-search-java", "LICENSE"]

  lemma JavaLicenseInLicenses(release: bool)
    ensures LastIn(Licenses(), 1, JavaLicensePath, 1, release) == Some(true)
  {
    assert MatchAt(Choose(Licenses()[0], false).segments, 0, JavaLicensePath, 1);
    assert LastIn(Licenses(), 1, JavaLicensePath, 1, false) == Some(true);
    LastInFixed(Licenses(), 1, JavaLicensePath, 1, release);
  }

  lemma JavaLicenseInTopLevel(release: bool)
    ensures LastIn(TopLevel(), 1, JavaLicensePath, 0, release) == None
  {

    assert LastIn(TopLevel(), 1, JavaLicensePath, 0, false) == None;
    LastInFixed(TopLevel(), 1, JavaLicensePath, 0, release);
  }

  lemma JavaLicenseAbove(release: bool)
    ensures Owned(release, JavaLicensePath) == Decide(Roots(), Rules(), 23, JavaLicensePath, release)
  {
    JavaLicenseInTopLevel(release);
    DecidedAbove(Roots(), Rules(), 24, JavaLicensePath, release, 22, {23});
  }

  lemma JavaLicenseHead(release: bool)
    ensures Decide(Roots(), Rules(), 23, JavaLicensePath, release) == true
  {
    JavaLicenseInLicenses(release);
    DecideAt(Roots(), Rules(), JavaLicensePath, release, 22, Licenses(), true);
  }

  /** The Java client's `LICENSE` is owned although its directory is excluded. */
  lemma JavaLicense(release: bool)
    ensures Owned(release, JavaLicensePath)
  {
    JavaLicenseAbove(release);
    JavaLicenseHead(release);
  }

}
