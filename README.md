# Generator ownership and push tasks of the SDK automation repository

This project models two parts of the SDK automation repository in Dafny and proves properties of them.

**The generator-ownership table** (`config/generation.config.mjs`). This is an ordered list of path globs. A leading `!` negates a glob. For every path of the repository, the table decides whether the code generator owns and rewrites the file, or whether the file is written by hand. The walk starts at "hand-written" and visits the globs in order. A glob that matches the path sets the verdict to "owned", or to "hand-written" if it is negated. So the last matching glob wins. The model has these layers:

- `Glob`: the segment matcher. `*` stays inside one path segment. A whole-segment `**` matches zero or more segments. A hidden segment, whose name starts with `.`, is matched only by a pattern segment that starts with `.`.
- `Ownership`: the walk (`Walk`, `Classify`) with the last-match reading as its reference.
- `GenerationTable`: the shipped table, with the entry at lines 72-74 that depends on whether the release process is running.
- `TablePaths` and `TableLaws`: verdicts for concrete paths and for families of paths.
- `TableText`: a sample of entries read from their source text, checked against the compiled table.

**The push-task vocabulary** (`scripts/ci/codegen/types.ts`). It defines:

- the two payload variants, `guides` and `specs`;
- selection by name, where an absent or empty list selects everything;
- placeholder substitution as a literal replace-all;
- repository tasks and configurations;
- the shipped `pushToRepositoryConfiguration` constant.

`Substitution` explains replace-all by cutting the text at every occurrence of the key and joining the pieces with the value. It then proves that, under `NoOverlap`, no key is left behind and a second pass is idle. `NoOverlap` is a sufficient condition for the value not recreating its key: the key is non-empty and no longer than the value, the value does not contain the key, and no proper end of either is a start of the other. `PushTypes` applies this to the shipped `openapi: 3.0.2` → `openapi: 3.1.0` placeholder.

The table is written as 24 sections. A section is a root directory plus its rules relative to that root, in source order. `Patterns(release)` puts every rule back under its root and gives the 127 entries of the source list in order. `Owned` decides section by section from the end. `GenerationTable.OwnedIsClassify` proves that this equals the in-order walk over `Patterns(release)`. `GenerationTable.ReleaseEntry` and `GenerationTable.OnlyReleaseEntry` state that the entry of lines 72-74 is negated exactly during a release and that every other entry is the same in both runs. `GenerationTable.ReleaseOnlyManifests` concludes that the flag changes the verdict of no path other than those that entry matches. `TableText` reads a sample of entries from their source text with `Ownership.Parse` and proves that they equal the compiled rules. Each concrete-path lemma in `TablePaths` is split into one small lemma per section involved, plus a composition step.

The globs are evaluated by a matching library that is not part of this model. These are the matching rules the table relies on, and the rules modelled:

- hidden names need a dot pattern (lines 8-9 exist for that);
- `*` does not cross `/`;
- `**` also matches zero segments.

## Model

| member | source | states |
|---|---|---|
| Glob.JoinSplit | config/generation.config.mjs:3-164 | joining the `/`-separated segments of a path gives the path back |
| Glob.CompiledMatches | config/generation.config.mjs:3-164 | a glob read segment by segment (literal, `*`-segment, `**`) matches exactly the paths its text matches |
| Glob.NamesMatch | config/generation.config.mjs:164 | a glob without wildcards matches exactly the path it spells |
| Glob.UnderRoot | config/generation.config.mjs:6-7 | `root/**` matches a path iff the path lies at or below `root` and has no hidden name below it |
| Glob.TrailingGlobstar | config/generation.config.mjs:6-7 | a final `**` matches iff no remaining segment is hidden |
| Glob.Matches | config/generation.config.mjs:3-164 | whether a glob, read segment by segment, matches a path: literal and `*` segments match one segment each, `**` matches a run of non-hidden segments |
| Glob.EndsWithName | config/generation.config.mjs:16 | `**/name` matches a path iff its last segment is `name` and no segment before it is hidden |
| Glob.SameDepthMatches | config/generation.config.mjs:3-4 | a glob without `**` matches only paths with as many segments as it has |
| Ownership.Parse | config/generation.config.mjs:10-16 | an entry is negated iff it starts with `!`; its segments, none of which holds `/`, spell the rest of the entry, so they are exactly its `/`-separated pieces |
| Ownership.ReadsAs | config/generation.config.mjs:10-16 | an entry written as `/`-separated names, with or without a leading `!`, reads as those names compiled |
| Ownership.RenderParse | config/generation.config.mjs:10-16 | writing a read entry back gives the entry text unchanged |
| Ownership.ParseRender | config/generation.config.mjs:10-16 | reading a writable pattern's text gives the pattern back |
| Ownership.Classify | config/generation.config.mjs:1-165 | the verdict of the walk that starts at hand-written and lets each matching glob set it |
| Ownership.WalkIsLast | config/generation.config.mjs:1-165 | the in-order walk ends with the verdict of the last matching glob, or with the starting verdict when none matches |
| Ownership.ClassifyMeans | config/generation.config.mjs:1-165 | a path is owned iff some non-negated glob matches it and no later glob matches it |
| Ownership.Unmatched | config/generation.config.mjs:1-165 | a path no glob matches is hand-written |
| Ownership.AppendUnmatched | config/generation.config.mjs:1-165 | appending globs that do not match a path leaves its verdict unchanged |
| Ownership.AppendMatched | config/generation.config.mjs:1-165 | a glob at the end decides every path it matches |
| Ownership.Monotone | config/generation.config.mjs:2 | a negated glob can only take ownership away, and a plain glob can only add it |
| Ownership.SwapFlips | config/generation.config.mjs:1-165 | exchanging two adjacent opposite-sign globs that both match a path flips its verdict when nothing later matches |
| Ownership.LastInUnder | config/generation.config.mjs:1-165 | within its root, a section's rules decide as the full globs do; outside the root they match nothing |
| Ownership.LastInAgrees | config/generation.config.mjs:72-74 | a section whose rules each are fixed or match a path in neither run gives the path the same verdict in both runs |
| Ownership.DecideAgrees | config/generation.config.mjs:72-74 | a table whose rules each are fixed or match a path in neither run gives the path the same verdict in both runs |
| Ownership.DecideIsClassify | config/generation.config.mjs:1-165 | deciding section by section from the end equals the in-order walk over the flattened list |
| GenerationTable.Patterns | config/generation.config.mjs:1-165 | the `patterns` array: every section's rules put back under its root, in source order |
| GenerationTable.Owned | config/generation.config.mjs:1-165 | the verdict of the shipped table for a path, section by section from the end |
| GenerationTable.ReleaseEntry | config/generation.config.mjs:72-74 | the entry below the JavaScript client is `packages/**/package.json`, negated exactly when the release flag is set |
| GenerationTable.OnlyReleaseEntry | config/generation.config.mjs:3-164 | every other entry of the table is the same in both runs |
| GenerationTable.ReleaseOnlyManifests | config/generation.config.mjs:72-74 | a path that `clients/flapjack-search-javascript/packages/**/package.json` does not match has the same verdict in both runs |
| TableText.ReadsLine3 | config/generation.config.mjs:3 | the text `specs/bundled/*.yml` reads as the first rule of the bundled-specs section under its root |
| TableText.ReadsLine16 | config/generation.config.mjs:16 | the text `!clients/**/AGENTS.md` reads as the last rule of the shared `clients` section under its root |
| TableText.ReadsLine164 | config/generation.config.mjs:164 | the text `yarn.lock` reads as the rule of the top-level section |
| GenerationTable.OwnedIsClassify | config/generation.config.mjs:1-165 | `Owned` is the last-match-wins walk over the table as listed, for both values of the release flag |
| TablePaths.YarnLock | config/generation.config.mjs:164 | the root `yarn.lock` is owned |
| TablePaths.CodegenTypes | config/generation.config.mjs:1-165 | `scripts/ci/codegen/types.ts` is hand-written, since no entry matches it |
| TablePaths.BundledSpec | config/generation.config.mjs:3 | `specs/bundled/search.yml` is owned |
| TablePaths.BundledNestedSpec | config/generation.config.mjs:3-4 | `specs/bundled/sub/search.yml` is hand-written, since `*` stays in one segment |
| TablePaths.DocsReadme | config/generation.config.mjs:7-10 | `docs/README.md` is hand-written |
| TablePaths.DocsHidden | config/generation.config.mjs:7-9 | a hidden file under `docs` is owned |
| TablePaths.ClientsReadme | config/generation.config.mjs:6-11 | `clients/README.md` is hand-written |
| TablePaths.ClientsAgents | config/generation.config.mjs:6-12 | `clients/AGENTS.md` is hand-written |
| TablePaths.NestedAgents | config/generation.config.mjs:6-16 | `clients/common/docs/AGENTS.md`, outside every client section, is hand-written |
| TablePaths.HiddenSharedAgents | config/generation.config.mjs:14-16 | `clients/common/.github/AGENTS.md` is owned: line 14 matches it and the `**` of line 16 does not cross `.github` |
| TablePaths.JavaAgents | config/generation.config.mjs:16-58 | `clients/flapjack-search-java/AGENTS.md` is hand-written: line 58 excludes the whole Java client |
| TablePaths.CSharpNestedAgents | config/generation.config.mjs:16-19 | an `AGENTS.md` inside the C# sources is owned, because line 19 comes after line 16 |
| TablePaths.CSharpReadme | config/generation.config.mjs:19-20 | the C# client's top-level `README.md` is hand-written |
| TablePaths.CSharpApi | config/generation.config.mjs:19-27 | a C# file under `flapjacksearch/Api` is owned |
| TablePaths.VersionDart | config/generation.config.mjs:33-41 | `clients/flapjack-search-dart/packages/client_core/lib/src/version.dart` is owned |
| TablePaths.JsPackageJson | config/generation.config.mjs:72-74 | the `flapjack-search` package manifest is owned iff the release process is not running |
| TablePaths.JsRequesterPackageJson | config/generation.config.mjs:72-75 | `packages/requester-fetch/package.json` is hand-written for both values of the release flag |
| TablePaths.JsTest | config/generation.config.mjs:78 | a test file under the JavaScript `__tests__` directory is hand-written |
| TablePaths.JsTestsLicense | config/generation.config.mjs:162 | a `LICENSE` under the JavaScript `__tests__` directory is owned, because line 162 comes after line 78 |
| TablePaths.JsTestsHiddenGithub | config/generation.config.mjs:14 | a file under `__tests__/.github` is owned, because line 78 does not reach hidden names |
| TablePaths.JavaLicense | config/generation.config.mjs:58-162 | `clients/flapjack-search-java/LICENSE` is owned although line 58 excludes its directory |
| TableLaws.JsTestsPreserved | config/generation.config.mjs:78 | every non-hidden, non-`LICENSE` file below the JavaScript `__tests__` directory is hand-written in every run |
| TableLaws.SharedAgentsPreserved | config/generation.config.mjs:6-16 | every `AGENTS.md` below `clients`, outside the client directories and with no hidden name on its way, is hand-written in every run |
| TableLaws.DartOrderMatters | config/generation.config.mjs:40-41 | the Dart version file is owned as shipped, and hand-written once lines 40 and 41 are exchanged |
| TableLaws.DocsHiddenNeedsDotPattern | config/generation.config.mjs:7-8 | `docs/**` does not match a hidden file under `docs`, and `docs/**/.*` does |
| Substitution.ReplaceAll | scripts/ci/codegen/types.ts:31-32 | every occurrence of a non-empty key, found from the left without overlap, is replaced by the value |
| Substitution.SplitOnJoin | scripts/ci/codegen/types.ts:31-32 | cutting a text at every occurrence of a key and joining with the key gives the text back |
| Substitution.SplitOnKeyFree | scripts/ci/codegen/types.ts:31-32 | no piece between the cuts contains the key, so every occurrence is cut |
| Substitution.ReplaceIsJoin | scripts/ci/codegen/types.ts:31-32 | replace-all equals joining those pieces with the value |
| Substitution.ReplaceAbsent | scripts/ci/codegen/types.ts:31-32 | a text without the key is unchanged |
| Substitution.ReplaceRemovesKey | scripts/ci/codegen/types.ts:31-32 | under `NoOverlap` of key and value, no output contains the key |
| Substitution.ReplaceIdempotent | scripts/ci/codegen/types.ts:31-32 | under `NoOverlap` of key and value, replacing twice equals replacing once |
| PushTypes.ParseExt | scripts/ci/codegen/types.ts:20 | an extension is accepted iff it is `json` or `yml` |
| PushTypes.ExtRoundTrip | scripts/ci/codegen/types.ts:20 | reading an extension's name gives the extension back |
| PushTypes.ParseExtRoundTrip | scripts/ci/codegen/types.ts:20 | an accepted text is the name of the extension read from it |
| PushTypes.Tag | scripts/ci/codegen/types.ts:1-36 | a payload (`FilesToPush`: the guides or the specs variant with their fields) has the tag `guides` exactly when it is a guides payload and `specs` exactly when it is a specs payload |
| PushTypes.Selects | scripts/ci/codegen/types.ts:5-6 | a name is selected when the list is absent or empty, or lists it |
| PushTypes.Selection | scripts/ci/codegen/types.ts:5-6 | a name is selected iff it exists and the list is absent or empty, or the list names it |
| PushTypes.SelectionAll | scripts/ci/codegen/types.ts:5-6 | an absent or empty list selects every name, in order |
| PushTypes.SelectionListed | scripts/ci/codegen/types.ts:34-35 | a non-empty list selects exactly the existing names it lists |
| PushTypes.GuidesPushed | scripts/ci/codegen/types.ts:5-6 | the guides pushed are the existing guides that `names` selects |
| PushTypes.ClientsPushed | scripts/ci/codegen/types.ts:34-35 | the clients pushed are the existing clients that `clients` selects |
| PushTypes.Substitute | scripts/ci/codegen/types.ts:11-12 | every placeholder is replaced everywhere in the text, one key after another in the order written |
| PushTypes.Rewrite | scripts/ci/codegen/types.ts:31-32 | a payload without placeholders leaves file text alone; otherwise its placeholders are substituted |
| PushTypes.SubstituteAbsent | scripts/ci/codegen/types.ts:11-12 | text in which no placeholder key occurs comes out unchanged |
| PushTypes.SubstituteOne | scripts/ci/codegen/types.ts:11-12 | one placeholder cuts the text at every key occurrence, leaves no key in the pieces, and joins them with the value |
| PushTypes.SubstituteOneIdempotent | scripts/ci/codegen/types.ts:31-32 | a placeholder under `NoOverlap` leaves no key, and a second pass changes nothing |
| PushTypes.PullRequestFor | scripts/ci/codegen/types.ts:38-54 | for a repository configuration (base branch, tasks) and one of its tasks (branch, commit message, payload), the pull request's title and commit message are that repository task's commit message, from its branch onto the configuration's base branch |
| PushTypes.ShippedPlaceholders | scripts/ci/codegen/types.ts:72 | the shipped specs task has exactly one placeholder |
| PushTypes.PushToRepositoryConfiguration | scripts/ci/codegen/types.ts:56-77 | the shipped configuration names exactly the `docs` repository |
| PushTypes.ShippedConfiguration | scripts/ci/codegen/types.ts:57-75 | `docs` is based on `main` and has one specs task: `yml`, output `specs`, snippets and SLA included, the shipped placeholders, `clients` unset |
| PushTypes.ShippedPushesEveryClient | scripts/ci/codegen/types.ts:65-73 | the shipped specs task leaves `clients` unset, so it pushes every client, in order |
| PushTypes.ShippedPullRequest | scripts/ci/codegen/types.ts:61-63 | the shipped task opens `feat/automated-update-for-specs` against `main`, titled with its commit message |
| PushTypes.ShippedNoOverlap | scripts/ci/codegen/types.ts:72 | `openapi: 3.1.0` cannot recreate `openapi: 3.0.2` |
| PushTypes.ShippedRemovesKey | scripts/ci/codegen/types.ts:72 | no text rewritten with the shipped task's own placeholders contains `openapi: 3.0.2` |
| PushTypes.ShippedIdempotent | scripts/ci/codegen/types.ts:72 | rewriting with the shipped task's own placeholders twice equals rewriting once |

## Left out

- Library glob features: the matching library itself is not part of this model. Braces, character classes, extglobs, escapes, case folding and the rest of that library's options are not modelled, since the table uses none of them. The modelled rules are `*`, `**` and hidden names.
- The RELEASE environment variable is the `release: bool` parameter. `process.env.RELEASE` is a string or unset, and the conditional at lines 72-74 takes its negated branch for every non-empty value, `"false"` and `"0"` included. `release` stands for that truthiness: true exactly when the variable is set and not empty. Reading the environment is left out.
- The generation driver and the push orchestrator are left out. They delete stale files, run the generator, diff against a remote repository and open branches and pull requests. All of that is filesystem, git and network I/O, and none of it is in the files modelled.
- The table is written in compiled form: sections under roots, with segments already read. The source strings are not parsed at verification time. `TableText` proves, for lines 3, 16 and 164, that `Ownership.Parse` of the source text gives the compiled rule. `GenerationTable.ReleaseEntry` states the compiled form of lines 72-74. The other entries were compared with the source text by reading, not by proof.
- The extraction stage is left out: collecting guides or specs, stripping snippet or SLA sections, and writing the output. Its code is not part of this model. Only its vocabulary is modelled.
- The rule that an output path does not escape its task's root is not modelled. The types place no constraint on `output`, and the code that would enforce it is not part of this model.
- Substitution.ReplaceAll: an empty placeholder key leaves the text unchanged. The types say nothing about empty keys, and the shipped map has none.
- PushTypes.Substitute: placeholder variables are applied one key after another, in the order of the sequence. JavaScript enumerates an object's integer-like keys first, in ascending order, and only then its other keys in insertion order. The sequence therefore stands for the enumeration order, which is insertion order only when no key looks like an array index. The shipped key does not. Idempotence is proved for a single placeholder such as the shipped one, not for maps whose keys interact.
- Substitution.ReplaceIdempotent: proved under `NoOverlap`, a sufficient condition that is stronger than "the value cannot recreate the key". For example, a value shorter than its key is not covered. The same holds for `Substitution.ReplaceRemovesKey` and `PushTypes.SubstituteOneIdempotent`.
- TableLaws.SharedAgentsPreserved: the rule "every nested `clients/**/AGENTS.md` stays hand-written" is proved for every such file outside the client directories and with no hidden name on its way. With a hidden `.github` directory on the way, line 14 owns the file (`TablePaths.HiddenSharedAgents`). Inside a client directory the verdict depends on that client's section. Line 19 owns a nested one in the C# client (`TablePaths.CSharpNestedAgents`). Line 58 keeps the Java client's hand-written (`TablePaths.JavaAgents`).
- TableLaws.JsTestsPreserved: "everything under `__tests__` is hand-written" is proved only for files with no hidden name below that directory and whose name is not `LICENSE`. Some of the excluded files are owned. A `LICENSE` is owned through line 162 (`TablePaths.JsTestsLicense`), and a file under a hidden `.github` directory through line 14 (`TablePaths.JsTestsHiddenGithub`). Others, such as `__tests__/.eslintrc`, match no entry and stay hand-written, but the lemma does not cover them.
- The JavaScript end-to-end and node test files and the playground scripts are left out. They are network calls to clients whose code is not part of this model.
