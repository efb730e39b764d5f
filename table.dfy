/**
 * The generator-ownership table of the repository, as shipped in
 * config/generation.config.mjs.
 *
 * The source lists 127 patterns one after the other.  Here consecutive
 * patterns that share a leading directory are written as one section: the
 * section's root directory (in `Roots`) and its rules relative to that
 * root (one function per section, in source order), each pattern already
 * read segment by segment (`Glob.Compile`).  `Patterns` puts every rule
 * back under its root, which gives the source's list entry by entry.  The
 * one conditional entry, lines 72-74, depends on whether the release
 * process is running: it is negated during a release and plain otherwise.
 */
module GenerationTable {
  import opened Glob
  import opened Wrappers
  import opened Ownership

  function Pos(segments: seq<Seg>): Entry { Always(Pattern(false, segments)) }
  function Neg(segments: seq<Seg>): Entry { Always(Pattern(true, segments)) }

  /** Under specs/bundled: generation.config.mjs lines 3-4. */
  function Bundled(): seq<Entry>
  {
    [
      Pos([Star("*.yml")]),
      Pos([Star("*.json")])
    ]
  }

  /** Under clients: generation.config.mjs line 6. */
  function Clients(): seq<Entry>
  {
    [
      Pos([Globstar])
    ]
  }

  /** Under docs: generation.config.mjs lines 7-10. */
  function Docs(): seq<Entry>
  {
    [
      Pos([Globstar]),
      Pos([Globstar, Star(".*")]),
      Pos([Globstar, Star(".*"), Globstar]),
      Neg([Lit("README.md")])
    ]
  }

  /** Under clients: generation.config.mjs lines 11-16. */
  function ClientsShared(): seq<Entry>
  {
    [
      Neg([Lit("README.md")]),
      Neg([Lit("AGENTS.md")]),
      Neg([Globstar, Lit(".openapi-generator-ignore")]),
      Pos([Globstar, Lit(".github"), Globstar]),
      Neg([Globstar, Lit(".github"), Lit("workflows"), Lit("release.yml")]),
      Neg([Globstar, Lit("AGENTS.md")])
    ]
  }

  /** Under clients/flapjack-search-csharp: generation.config.mjs lines 19-27. */
  function CSharp(): seq<Entry>
  {
    [
      Pos([Globstar]),
      Neg([Star("*")]),
      Neg([Lit("flapjacksearch"), Lit("Clients"), Lit("FlapjackConfig.cs")]),
      Neg([Lit("flapjacksearch"), Lit("Exceptions"), Globstar]),
      Neg([Lit("flapjacksearch"), Lit("Serializer"), Globstar]),
      Neg([Lit("flapjacksearch"), Lit("Utils"), Globstar]),
      Neg([Lit("flapjacksearch"), Lit("Http"), Globstar]),
      Neg([Lit("flapjacksearch"), Lit("Transport"), Globstar]),
      Neg([Lit("flapjacksearch"), Lit("Models"), Lit("Common"), Globstar])
    ]
  }

  /** Under tests/output/csharp: generation.config.mjs lines 29-30. */
  function CSharpTests(): seq<Entry>
  {
    [
      Pos([Lit("src"), Lit("Flapjack.Search.Tests.csproj")]),
      Neg([Lit("src"), Lit("TimeoutIntegrationTests.cs")])
    ]
  }

  /** Under clients/flapjack-search-dart: generation.config.mjs lines 33-43. */
  function Dart(): seq<Entry>
  {
    [
      Neg([Globstar]),
      Pos([Lit("packages"), Star("*"), Lit("pubspec.yaml")]),
      Pos([Lit("packages"), Star("*"), Lit("lib"), Star("*.dart")]),
      Pos([Lit("packages"), Star("*"), Lit("lib"), Lit("src"), Star("*.dart")]),
      Pos([Lit("packages"), Lit("client_core"), Lit("pubspec.yaml")]),
      Pos([Lit("packages"), Star("*"), Lit("lib"), Lit("src"), Lit("api"), Globstar]),
      Pos([Lit("packages"), Star("*"), Lit("lib"), Lit("src"), Lit("model"), Globstar]),
      Neg([Lit("packages"), Lit("client_core"), Globstar]),
      Pos([Lit("packages"), Lit("client_core"), Lit("lib"), Lit("src"), Lit("version.dart")]),
      Neg([Lit("packages"), Star("*"), Lit("lib"), Lit("src"), Lit("extension.dart")]),
      Neg([Lit("packages"), Lit("flapjack_search"), Lit("lib"), Lit("flapjack_search.dart")])
    ]
  }

  /** Under clients/flapjack-search-go: generation.config.mjs lines 46-53. */
  function Go(): seq<Entry>
  {
    [
      Pos([Lit("flapjack"), Globstar]),
      Neg([Star("*")]),
      Neg([Lit("flapjack"), Lit("transport"), Globstar]),
      Neg([Lit("flapjack"), Lit("errs"), Globstar]),
      Neg([Lit("flapjack"), Lit("call"), Star("*")]),
      Neg([Lit("flapjack"), Lit("compression"), Star("*")]),
      Neg([Lit("flapjack"), Lit("debug"), Star("*")]),
      Neg([Lit("flapjack"), Lit("utils"), Star("*")])
    ]
  }

  /** Under tests/output/go: generation.config.mjs line 55. */
  function GoTests(): seq<Entry>
  {
    [
      Pos([Lit("go.mod")])
    ]
  }

  /** Under clients/flapjack-search-java: generation.config.mjs lines 58-62. */
  function Java(): seq<Entry>
  {
    [
      Neg([Globstar]),
      Pos([Lit("gradle.properties")]),
      Pos([Lit("flapjacksearch"), Lit("src"), Lit("main"), Lit("java"), Lit("com"), Lit("flapjackhq"), Lit("api"), Globstar]),
      Pos([Lit("flapjacksearch"), Lit("src"), Lit("main"), Lit("java"), Lit("com"), Lit("flapjackhq"), Lit("model"), Globstar]),
      Pos([Lit("flapjacksearch"), Lit("src"), Lit("main"), Lit("java"), Lit("com"), Lit("flapjackhq"), Lit("BuildConfig.java")])
    ]
  }

  /** Under tests/output/java: generation.config.mjs line 64. */
  function JavaTests(): seq<Entry>
  {
    [
      Pos([Lit("build.gradle")])
    ]
  }

  /** Under clients/flapjack-search-javascript: generation.config.mjs lines 67-79. */
  function JavaScript(): seq<Entry>
  {
    [
      Neg([Star("*")]),
      Neg([Lit(".yarn"), Globstar]),
      Neg([Lit("scripts"), Globstar]),
      Neg([Lit("tests"), Globstar]),
      // lines 72-74: the release process may push this file, other runs must not
      OnRelease(Pattern(true, [Lit("packages"), Globstar, Lit("package.json")]),
                Pattern(false, [Lit("packages"), Globstar, Lit("package.json")])),
      Neg([Lit("packages"), Star("requester-*"), Globstar]),
      Neg([Lit("packages"), Lit("client-common"), Globstar]),
      Neg([Lit("packages"), Lit("logger-console"), Globstar]),
      Neg([Lit("packages"), Lit("flapjack-search"), Lit("__tests__"), Globstar]),
      Neg([Lit("packages"), Lit("flapjack-search"), Lit("vitest.config.ts")])
    ]
  }

  /** Under tests/output/javascript: generation.config.mjs lines 81-82. */
  function JavaScriptTests(): seq<Entry>
  {
    [
      Pos([Lit("package.json")]),
      Neg([Lit("yarn.lock")])
    ]
  }

  /** Under clients/flapjack-search-kotlin: generation.config.mjs lines 85-91. */
  function Kotlin(): seq<Entry>
  {
    [
      Neg([Globstar]),
      Pos([Lit("gradle.properties")]),
      Pos([Lit("client"), Lit("README.md")]),
      Pos([Lit("client-bom"), Lit("README.md")]),
      Pos([Lit("client"), Lit("src"), Lit("commonMain"), Lit("kotlin"), Lit("com"), Lit("flapjackhq"), Lit("client"), Lit("BuildConfig.kt")]),
      Pos([Lit("client"), Lit("src"), Lit("commonMain"), Lit("kotlin"), Lit("com"), Lit("flapjackhq"), Lit("client"), Lit("api"), Globstar]),
      Pos([Lit("client"), Lit("src"), Lit("commonMain"), Lit("kotlin"), Lit("com"), Lit("flapjackhq"), Lit("client"), Lit("model"), Globstar])
    ]
  }

  /** Under clients/flapjack-search-php: generation.config.mjs lines 94-103. */
  function Php(): seq<Entry>
  {
    [
      Neg([Globstar]),
      Neg([Lit("tests"), Globstar]),
      Pos([Lit("lib"), Lit("Api"), Star("*")]),
      Pos([Lit("lib"), Lit("Model"), Globstar]),
      Neg([Lit("lib"), Lit("Model"), Lit("AbstractModel.php")]),
      Neg([Lit("lib"), Lit("Model"), Lit("ModelInterface.php")]),
      Pos([Lit("lib"), Lit("Configuration"), Star("*")]),
      Neg([Lit("lib"), Lit("Configuration"), Lit("Configuration.php")]),
      Neg([Lit("lib"), Lit("Configuration"), Lit("ConfigWithRegion.php")]),
      Pos([Lit("composer.json")])
    ]
  }

  /** Under clients/flapjack-search-python: generation.config.mjs lines 106-115. */
  function Python(): seq<Entry>
  {
    [
      Pos([Globstar]),
      Neg([Lit("flapjacksearch"), Lit("http"), Globstar]),
      Neg([Lit("flapjacksearch"), Lit("tests"), Globstar]),
      Neg([Lit("flapjacksearch"), Lit("py.typed")]),
      Pos([Lit("flapjacksearch"), Lit("http"), Lit("__init__.py")]),
      Neg([Star("*")]),
      Pos([Lit("pyproject.toml")]),
      Pos([Lit("poetry.lock")]),
      Pos([Lit("requirements.txt")]),
      Pos([Lit(".gitignore")])
    ]
  }

  /** Under tests/output/python: generation.config.mjs lines 117-119. */
  function PythonTests(): seq<Entry>
  {
    [
      Pos([Lit("poetry.lock")]),
      Neg([Globstar, Lit("__init__.py")]),
      Pos([Lit("requirements.txt")])
    ]
  }

  /** Under clients/flapjack-search-ruby: generation.config.mjs lines 122-132. */
  function Ruby(): seq<Entry>
  {
    [
      Neg([Globstar]),
      Pos([Lit("Gemfile.lock")]),
      Pos([Lit("lib"), Lit("flapjack"), Globstar]),
      Neg([Lit("lib"), Lit("flapjack"), Lit("api_client.rb")]),
      Neg([Lit("lib"), Lit("flapjack"), Lit("api_error.rb")]),
      Neg([Lit("lib"), Lit("flapjack"), Lit("defaults.rb")]),
      Neg([Lit("lib"), Lit("flapjack"), Lit("error.rb")]),
      Neg([Lit("lib"), Lit("flapjack"), Lit("configuration.rb")]),
      Neg([Lit("lib"), Lit("flapjack"), Lit("logger_helper.rb")]),
      Neg([Lit("lib"), Lit("flapjack"), Lit("user_agent.rb")]),
      Neg([Lit("lib"), Lit("flapjack"), Lit("transport"), Globstar])
    ]
  }

  /** Under tests/output/ruby: generation.config.mjs line 134. */
  function RubyTests(): seq<Entry>
  {
    [
      Pos([Lit("Gemfile.lock")])
    ]
  }

  /** Under clients/flapjack-search-scala: generation.config.mjs lines 137-144. */
  function Scala(): seq<Entry>
  {
    [
      Neg([Globstar]),
      Pos([Lit("version.sbt")]),
      Pos([Lit("src"), Lit("main"), Lit("scala"), Lit("flapjacksearch"), Globstar]),
      Neg([Lit("src"), Lit("main"), Lit("scala"), Lit("flapjacksearch"), Lit("ApiClient.scala")]),
      Neg([Lit("src"), Lit("main"), Lit("scala"), Lit("flapjacksearch"), Lit("exception"), Globstar]),
      Neg([Lit("src"), Lit("main"), Lit("scala"), Lit("flapjacksearch"), Lit("internal"), Globstar]),
      Neg([Lit("src"), Lit("main"), Lit("scala"), Lit("flapjacksearch"), Lit("config"), Globstar]),
      Neg([Lit("src"), Lit("main"), Lit("scala"), Lit("flapjacksearch"), Lit("extension"), Globstar])
    ]
  }

  /** Under clients/flapjack-search-swift: generation.config.mjs lines 147-156. */
  function Swift(): seq<Entry>
  {
    [
      Pos([Globstar]),
      Neg([Star("*")]),
      Pos([Lit("FlapjackSearchClient.podspec")]),
      Pos([Lit("Package.swift")]),
      Pos([Globstar, Lit("Sources"), Globstar]),
      Neg([Lit("Sources"), Lit("Core"), Globstar]),
      Pos([Lit("Sources"), Lit("Core"), Lit("Helpers"), Lit("Version.swift")]),
      Pos([Lit("Sources"), Lit("Search"), Globstar]),
      Neg([Lit("Sources"), Lit("Search"), Lit("Extra"), Globstar]),
      Neg([Lit("Sources"), Lit("zlib"), Globstar])
    ]
  }

  /** Under tests/output/swift: generation.config.mjs lines 158-160. */
  function SwiftTests(): seq<Entry>
  {
    [
      Pos([Lit("Package.swift")]),
      Neg([Lit("manual"), Globstar]),
      Neg([Lit("Utils"), Globstar])
    ]
  }

  /** Under clients: generation.config.mjs line 162. */
  function Licenses(): seq<Entry>
  {
    [
      Pos([Globstar, Lit("LICENSE")])
    ]
  }

  /** Under the repository root: generation.config.mjs line 164. */
  function TopLevel(): seq<Entry>
  {
    [
      Pos([Lit("yarn.lock")])
    ]
  }

  /** The root directory of each section above, in the same order. */
  function Roots(): seq<seq<string>>
  {
    [
      ["specs", "bundled"],
      ["clients"],
      ["docs"],
      ["clients"],
      ["clients", "flapjack-search-csharp"],
      ["tests", "output", "csharp"],
      ["clients", "flapjack-search-dart"],
      ["clients", "flapjack-search-go"],
      ["tests", "output", "go"],
      ["clients", "flapjack-search-java"],
      ["tests", "output", "java"],
      ["clients", "flapjack-search-javascript"],
      ["tests", "output", "javascript"],
      ["clients", "flapjack-search-kotlin"],
      ["clients", "flapjack-search-php"],
      ["clients", "flapjack-search-python"],
      ["tests", "output", "python"],
      ["clients", "flapjack-search-ruby"],
      ["tests", "output", "ruby"],
      ["clients", "flapjack-search-scala"],
      ["clients", "flapjack-search-swift"],
      ["tests", "output", "swift"],
      ["clients"],
      []
    ]
  }

  /** The rules of each section above, in the same order. */
  function Rules(): seq<seq<Entry>>
  {
    [
      Bundled(),
      Clients(),
      Docs(),
      ClientsShared(),
      CSharp(),
      CSharpTests(),
      Dart(),
      Go(),
      GoTests(),
      Java(),
      JavaTests(),
      JavaScript(),
      JavaScriptTests(),
      Kotlin(),
      Php(),
      Python(),
      PythonTests(),
      Ruby(),
      RubyTests(),
      Scala(),
      Swift(),
      SwiftTests(),
      Licenses(),
      TopLevel()
    ]
  }

  /** The table as the source lists it, pattern by pattern; `release` stands for the RELEASE environment variable. */
  function Patterns(release: bool): seq<Pattern>
  {
    Flatten(Roots(), Rules(), 24, release)
  }

  /** Whether the generator owns `path`, read section by section from the end. */
  predicate Owned(release: bool, path: seq<string>)
  {
    Decide(Roots(), Rules(), 24, path, release)
  }

  /** The segments of the entry of lines 72-74 below the JavaScript client. */
  const PackageManifest: seq<Seg> := [Lit("packages"), Globstar, Lit("package.json")]

  /** Lines 72-74: the package manifest entry is negated exactly during a release. */
  lemma ReleaseEntry(release: bool)
    ensures Roots()[11] == ["clients", "flapjack-search-javascript"] && Rules()[11] == JavaScript()
    ensures Rules()[11][4].OnRelease?
    ensures Choose(Rules()[11][4], release) == Pattern(release, PackageManifest)
  {
  }

  lemma FixedFirst()
    ensures forall a :: 0 <= a < 6 ==> Fixed(Rules()[a])
  {
  }

  lemma FixedSecond()
    ensures forall a :: 6 <= a < 11 ==> Fixed(Rules()[a])
  {
  }

  lemma FixedThird()
    ensures forall a :: 12 <= a < 18 ==> Fixed(Rules()[a])
  {
  }

  lemma FixedFourth()
    ensures forall a :: 18 <= a < 24 ==> Fixed(Rules()[a])
  {
  }

  /** In the JavaScript section only the entry of lines 72-74 depends on the run. */
  lemma JavaScriptFixedBut()
    ensures forall b :: 0 <= b < |JavaScript()| && b != 4 ==> JavaScript()[b].Always?
  {
  }

  /** Every other entry of the table is the same in every run. */
  lemma OnlyReleaseEntry()
    ensures forall a, b :: 0 <= a < 24 && 0 <= b < |Rules()[a]| && !(a == 11 && b == 4) ==> Rules()[a][b].Always?
  {
    FixedFirst();
    FixedSecond();
    FixedThird();
    FixedFourth();
    JavaScriptFixedBut();
    assert Rules()[11] == JavaScript();
  }

  /**
   * The release flag decides nothing but the paths the entry of lines
   * 72-74 matches: every other path has the same verdict in both runs.
   */
  lemma ReleaseOnlyManifests(path: seq<string>)
    requires !Matches(Lits(["clients", "flapjack-search-javascript"]) + PackageManifest, path)
    ensures Owned(true, path) == Owned(false, path)
  {
    var root := ["clients", "flapjack-search-javascript"];
    ReleaseEntry(true);
    ReleaseEntry(false);
    OnlyReleaseEntry();
    UnderNames(root, PackageManifest, path, 0);
    InRootMeans(root, path);
    forall a, b | 0 <= a < 24 && 0 <= b < |Rules()[a]| ensures Inert(Roots()[a], Rules()[a][b], path) {
      if a == 11 && b == 4 {
        assert Rules()[a][b].released.segments == PackageManifest;
        assert Rules()[a][b].otherwise.segments == PackageManifest;
      }
    }
    DecideAgrees(Roots(), Rules(), 24, path);
  }

  /** Ownership is the last-match-wins walk over the table as listed. */
  lemma OwnedIsClassify(release: bool, path: seq<string>)
    ensures Owned(release, path) == Classify(Patterns(release), path)
  {
    DecideIsClassify(Roots(), Rules(), 24, path, release);
  }
}
