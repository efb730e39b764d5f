/**
 * A sample of entries of config/generation.config.mjs, read from their
 * source text with `Ownership.Parse`, agree with the compiled sections of
 * `GenerationTable`.
 */
module TableText {
  import opened Glob
  import opened Ownership
  import opened GenerationTable

  // ---------------------------------------------------------------------
  // Line 3: 'specs/bundled/*.yml'
  // ---------------------------------------------------------------------

  lemma BundledNames()
    ensures NoSep(["specs", "bundled", "*.yml"])
    ensures CompileAll(["specs", "bundled", "*.yml"]) == [Lit("specs"), Lit("bundled"), Star("*.yml")]
  {
    assert "*.yml"[0] == '*';
  }

  lemma BundledJoined()
    ensures Join(["specs", "bundled", "*.yml"]) == "specs/bundled/*.yml"
  {
    var names := ["specs", "bundled", "*.yml"];
    assert names[1..] == ["bundled", "*.yml"] && names[1..][1..] == ["*.yml"];
  }

  lemma BundledRule(release: bool)
    ensures Under(["specs", "bundled"], Bundled(), release)[0] == Pattern(false, [Lit("specs"), Lit("bundled"), Star("*.yml")])
  {
    assert Lits(["specs", "bundled"]) == [Lit("specs"), Lit("bundled")];
  }

  /** Line 3 reads as the first rule of `Bundled` under `specs/bundled`. */
  lemma ReadsLine3(release: bool)
    ensures Parse("specs/bundled/*.yml") == Under(["specs", "bundled"], Bundled(), release)[0]
  {
    BundledNames();
    BundledJoined();
    BundledRule(release);
    ReadsAs("specs/bundled/*.yml", false, ["specs", "bundled", "*.yml"]);
  }

  // ---------------------------------------------------------------------
  // Line 16: '!clients/**/AGENTS.md'
  // ---------------------------------------------------------------------

  lemma AgentsNames()
    ensures NoSep(["clients", "**", "AGENTS.md"])
    ensures CompileAll(["clients", "**", "AGENTS.md"]) == [Lit("clients"), Globstar, Lit("AGENTS.md")]
  {
  }

  lemma AgentsJoined()
    ensures Join(["clients", "**", "AGENTS.md"]) == "clients/**/AGENTS.md"
  {
    var names := ["clients", "**", "AGENTS.md"];
    assert names[1..] == ["**", "AGENTS.md"] && names[1..][1..] == ["AGENTS.md"];
  }

  lemma AgentsRule(release: bool)
    ensures Under(["clients"], ClientsShared(), release)[5] == Pattern(true, [Lit("clients"), Globstar, Lit("AGENTS.md")])
  {
    assert Lits(["clients"]) == [Lit("clients")];
  }

  /** Line 16 reads as the last rule of `ClientsShared` under `clients`. */
  lemma ReadsLine16(release: bool)
    ensures Parse("!clients/**/AGENTS.md") == Under(["clients"], ClientsShared(), release)[5]
  {
    AgentsNames();
    AgentsJoined();
    AgentsRule(release);
    ReadsAs("!clients/**/AGENTS.md", true, ["clients", "**", "AGENTS.md"]);
  }

  // ---------------------------------------------------------------------
  // Line 164: 'yarn.lock'
  // ---------------------------------------------------------------------

  lemma LockCompiled()
    ensures CompileAll(["yarn.lock"]) == [Lit("yarn.lock")]
  {
  }

  /** Line 164 reads as the rule of `TopLevel` at the repository root. */
  lemma ReadsLine164(release: bool)
    ensures Parse("yarn.lock") == Under([], TopLevel(), release)[0]
  {
    LockCompiled();
    assert Lits([]) + [Lit("yarn.lock")] == [Lit("yarn.lock")];
    ReadsAs("yarn.lock", false, ["yarn.lock"]);
  }
}
