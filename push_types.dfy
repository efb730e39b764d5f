/**
 * The vocabulary of the push stage: what a task pushes (guides or specs),
 * which names it selects, how its placeholder variables rewrite file text,
 * and the one repository configuration that ships.
 */
module PushTypes {
  import opened Wrappers
  import opened Substitution

  // ---------------------------------------------------------------------
  // File payloads
  // ---------------------------------------------------------------------

  /** The two extensions a specs payload may ask for. */
  datatype Ext = Json | Yml

  function ExtName(e: Ext): (s: string)
    ensures |s| > 0
  {
    match e
    case Json => "json"
    case Yml => "yml"
  }

  /** Reads an extension; anything other than `json` or `yml` is refused. */
  function ParseExt(s: string): (r: Option<Ext>)
    ensures r.Some? <==> (s == "json" || s == "yml")
  {
    if s == "json" then Some(Json)
    else if s == "yml" then Some(Yml)
    else None
  }

  lemma ExtRoundTrip(e: Ext)
    ensures ParseExt(ExtName(e)) == Some(e)
  {
  }

  lemma ParseExtRoundTrip(s: string)
    ensures ParseExt(s).Some? ==> ExtName(ParseExt(s).value) == s
  {
  }

  /**
   * Placeholder variables in the order they are written: a key and the
   * text to put in its place.
   */
  type Placeholders = seq<(string, string)>

  /** What one task pushes; optional fields are `None` when left unset. */
  datatype FilesToPush =
    | Guides(names: Option<seq<string>>, output: string, placeholders: Option<Placeholders>)
    | Specs(ext: Ext, includeSnippets: Option<bool>, includeSLA: Option<bool>, output: string,
            placeholders: Option<Placeholders>, clients: Option<seq<string>>)

  /** The discriminating tag of a payload. */
  function Tag(f: FilesToPush): (t: string)
    ensures t == "guides" <==> f.Guides?
    ensures t == "specs" <==> f.Specs?
  {
    match f
    case Guides(_, _, _) => "guides"
    case Specs(_, _, _, _, _, _) => "specs"
  }

  // ---------------------------------------------------------------------
  // Selection by name
  // ---------------------------------------------------------------------

  /** An absent or empty list selects every name; otherwise only the listed ones. */
  predicate Selects(listed: Option<seq<string>>, name: string)
  {
    listed.None? || |listed.value| == 0 || name in listed.value
  }

  /** The names of `available` that `listed` selects, in their order. */
  function Selection(listed: Option<seq<string>>, available: seq<string>): (chosen: seq<string>)
    ensures |chosen| <= |available|
    ensures forall x :: x in chosen <==> x in available && Selects(listed, x)
  {
    if |available| == 0 then []
    else if Selects(listed, available[0]) then [available[0]] + Selection(listed, available[1..])
    else Selection(listed, available[1..])
  }

  /** Without a list, or with an empty one, everything is pushed, in order. */
  lemma {:induction false} SelectionAll(listed: Option<seq<string>>, available: seq<string>)
    requires listed.None? || listed.value == []
    ensures Selection(listed, available) == available
  {
    if |available| > 0 {
      SelectionAll(listed, available[1..]);
    }
  }

  /** With a non-empty list, exactly the listed names that exist are pushed. */
  lemma SelectionListed(names: seq<string>, available: seq<string>)
    requires |names| > 0
    ensures forall x :: x in Selection(Some(names), available) <==> x in available && x in names
  {
  }

  /** The guides a guides payload pushes out of those that exist. */
  function GuidesPushed(f: FilesToPush, guides: seq<string>): (chosen: seq<string>)
    requires f.Guides?
    ensures forall g :: g in chosen <==>
      g in guides && (f.names.None? || f.names.value == [] || g in f.names.value)
  {
    Selection(f.names, guides)
  }

  /** The clients a specs payload pushes out of those that exist. */
  function ClientsPushed(f: FilesToPush, clients: seq<string>): (chosen: seq<string>)
    requires f.Specs?
    ensures forall c :: c in chosen <==>
      c in clients && (f.clients.None? || f.clients.value == [] || c in f.clients.value)
  {
    Selection(f.clients, clients)
  }

  // ---------------------------------------------------------------------
  // Placeholder substitution
  // ---------------------------------------------------------------------

  /** Every placeholder replaced in turn, each one everywhere in the text. */
  function Substitute(text: string, vars: Placeholders): string
    decreases |vars|
  {
    if |vars| == 0 then text
    else Substitute(ReplaceAll(text, vars[0].0, vars[0].1), vars[1..])
  }

  /** A payload's placeholders applied to a file's text; none set means no change. */
  function Rewrite(text: string, placeholders: Option<Placeholders>): string
  {
    match placeholders
    case None => text
    case Some(vars) => Substitute(text, vars)
  }

  /** Text in which no key occurs comes out unchanged. */
  lemma {:induction false} SubstituteAbsent(text: string, vars: Placeholders)
    requires forall k :: 0 <= k < |vars| ==> !Contains(text, vars[k].0)
    ensures Substitute(text, vars) == text
    decreases |vars|
  {
    if |vars| > 0 {
      ReplaceAbsent(text, vars[0].0, vars[0].1);
      forall k | 0 <= k < |vars[1..]| ensures !Contains(text, vars[1..][k].0) {
        assert vars[1..][k] == vars[k + 1];
      }
      SubstituteAbsent(text, vars[1..]);
    }
  }

  /**
   * One placeholder: the text is cut at every occurrence of the key, none
   * of the pieces holds the key, and the pieces are joined with the value.
   */
  lemma SubstituteOne(text: string, key: string, value: string)
    requires |key| > 0
    ensures Substitute(text, [(key, value)]) == JoinWith(SplitOn(text, key), value)
    ensures JoinWith(SplitOn(text, key), key) == text
    ensures forall k :: 0 <= k < |SplitOn(text, key)| ==> !Contains(SplitOn(text, key)[k], key)
  {
    ReplaceIsJoin(text, key, value);
    SplitOnJoin(text, key);
    SplitOnKeyFree(text, key);
  }

  /** One placeholder whose value cannot recreate its key: no key is left, and a second pass is idle. */
  lemma SubstituteOneIdempotent(text: string, key: string, value: string)
    requires NoOverlap(key, value)
    ensures !Contains(Substitute(text, [(key, value)]), key)
    ensures Substitute(Substitute(text, [(key, value)]), [(key, value)]) == Substitute(text, [(key, value)])
  {
    ReplaceRemovesKey(text, key, value);
    ReplaceIdempotent(text, key, value);
  }

  // ---------------------------------------------------------------------
  // Repositories
  // ---------------------------------------------------------------------

  datatype RepositoryTask = RepositoryTask(prBranch: string, commitMessage: string, files: FilesToPush)

  datatype RepositoryConfiguration = RepositoryConfiguration(baseBranch: string, tasks: seq<RepositoryTask>)

  /** The pull request a task opens against its repository. */
  datatype PullRequest = PullRequest(base: string, head: string, title: string, commitMessage: string)

  /** The commit message doubles as the pull request's title. */
  function PullRequestFor(config: RepositoryConfiguration, task: RepositoryTask): (pr: PullRequest)
    ensures pr.title == pr.commitMessage == task.commitMessage
    ensures pr.base == config.baseBranch && pr.head == task.prBranch
  {
    PullRequest(config.baseBranch, task.prBranch, task.commitMessage, task.commitMessage)
  }

  const OpenApiKey: string := "openapi: 3.0.2"
  const OpenApiValue: string := "openapi: 3.1.0"

  /** The placeholders the shipped specs task rewrites. */
  function ShippedPlaceholders(): (vars: Placeholders)
    ensures |vars| == 1
  {
    [(OpenApiKey, OpenApiValue)]
  }

  /** The repositories the push stage targets, by name. */
  function PushToRepositoryConfiguration(): (repos: map<string, RepositoryConfiguration>)
    ensures repos.Keys == {"docs"}
  {
    map["docs" := RepositoryConfiguration(
      "main",
      [RepositoryTask(
         "feat/automated-update-for-specs",
         "feat: update specs and supported versions",
         Specs(Yml, Some(true), Some(true), "specs", Some(ShippedPlaceholders()), None))])]
  }

  /** The shipped configuration: one `docs` repository with one specs task. */
  lemma ShippedConfiguration()
    ensures PushToRepositoryConfiguration().Keys == {"docs"}
    ensures PushToRepositoryConfiguration()["docs"].baseBranch == "main"
    ensures |PushToRepositoryConfiguration()["docs"].tasks| == 1
    ensures PushToRepositoryConfiguration()["docs"].tasks[0].files.Specs?
    ensures ExtName(PushToRepositoryConfiguration()["docs"].tasks[0].files.ext) == "yml"
    ensures PushToRepositoryConfiguration()["docs"].tasks[0].files.output == "specs"
    ensures PushToRepositoryConfiguration()["docs"].tasks[0].files.includeSnippets == Some(true)
    ensures PushToRepositoryConfiguration()["docs"].tasks[0].files.includeSLA == Some(true)
    ensures PushToRepositoryConfiguration()["docs"].tasks[0].files.placeholders == Some(ShippedPlaceholders())
    ensures PushToRepositoryConfiguration()["docs"].tasks[0].files.clients.None?
  {
  }

  /** The shipped task leaves `clients` unset, so every client is pushed, in order. */
  lemma ShippedPushesEveryClient(clients: seq<string>)
    ensures ClientsPushed(PushToRepositoryConfiguration()["docs"].tasks[0].files, clients) == clients
  {
    SelectionAll(None, clients);
  }

  /** The shipped task's pull request: its title is the commit message, on top of `main`. */
  lemma ShippedPullRequest()
    ensures PullRequestFor(PushToRepositoryConfiguration()["docs"],
                           PushToRepositoryConfiguration()["docs"].tasks[0])
         == PullRequest("main", "feat/automated-update-for-specs",
                        "feat: update specs and supported versions",
                        "feat: update specs and supported versions")
  {
  }

  lemma ShippedValueKeyFree()
    ensures !Contains(OpenApiValue, OpenApiKey)
  {
    forall i: nat | i <= |OpenApiValue| ensures !OccursAt(OpenApiValue, i, OpenApiKey) {
      if i == 0 {
        assert OpenApiValue[0..14][11] == '1' != OpenApiKey[11];
      }
    }
  }

  /** No end of the key is a start of the value: the key ends in `2`, which the value lacks. */
  lemma ShippedKeyEnds()
    ensures forall m :: 0 < m < |OpenApiKey| ==> OpenApiKey[|OpenApiKey| - m..] != OpenApiValue[..m]
  {
    assert forall k :: 0 <= k < |OpenApiValue| ==> OpenApiValue[k] != '2';
    forall m | 0 < m < |OpenApiKey| ensures OpenApiKey[|OpenApiKey| - m..] != OpenApiValue[..m] {
      assert OpenApiKey[|OpenApiKey| - m..][m - 1] == '2';
      assert OpenApiValue[..m][m - 1] == OpenApiValue[m - 1];
    }
  }

  /** No end of the value is a start of the key: the value ends in `0`, found in the key only at index 11. */
  lemma ShippedValueEnds()
    ensures forall m :: 0 < m < |OpenApiKey| ==> OpenApiValue[|OpenApiValue| - m..] != OpenApiKey[..m]
  {
    assert forall k :: 0 <= k < |OpenApiKey| && k != 11 ==> OpenApiKey[k] != '0';
    forall m | 0 < m < |OpenApiKey| ensures OpenApiValue[|OpenApiValue| - m..] != OpenApiKey[..m] {
      assert OpenApiValue[|OpenApiValue| - m..][m - 1] == '0';
      assert OpenApiKey[..m][m - 1] == OpenApiKey[m - 1];
      if m == 12 {
        assert OpenApiValue[|OpenApiValue| - m..][0] == 'e' != OpenApiKey[..m][0];
      }
    }
  }

  /** The shipped value cannot recreate the shipped key. */
  lemma ShippedNoOverlap()
    ensures NoOverlap(OpenApiKey, OpenApiValue)
  {
    ShippedValueKeyFree();
    ShippedKeyEnds();
    ShippedValueEnds();
  }

  /** The placeholders of the shipped task. */
  function ShippedTaskPlaceholders(): Option<Placeholders>
  {
    PushToRepositoryConfiguration()["docs"].tasks[0].files.placeholders
  }

  /** Rewriting with the shipped task's placeholders leaves no `openapi: 3.0.2` behind. */
  lemma ShippedRemovesKey(text: string)
    ensures !Contains(Rewrite(text, ShippedTaskPlaceholders()), OpenApiKey)
  {
    ShippedConfiguration();
    ShippedNoOverlap();
    SubstituteOneIdempotent(text, OpenApiKey, OpenApiValue);
  }

  /** Rewriting with the shipped task's placeholders twice is rewriting once. */
  lemma ShippedIdempotent(text: string)
    ensures Rewrite(Rewrite(text, ShippedTaskPlaceholders()), ShippedTaskPlaceholders())
         == Rewrite(text, ShippedTaskPlaceholders())
  {
    ShippedConfiguration();
    ShippedNoOverlap();
    SubstituteOneIdempotent(text, OpenApiKey, OpenApiValue);
  }
}
