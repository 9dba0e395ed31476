/** `Installer.updateConfigFile` of the installer script. The text of
    `.pre-commit-config.yaml` above its first `repos:` line is replaced by the
    fixed header and defaults, every line after that line is kept as it is,
    and a block for the selected hooks is appended: the managed marker, one
    entry per remote repository (sorted by URL, with the hook ids sorted), then
    one `local` entry whose hooks run the installed scripts. The selected ids
    are a set, visited in an unspecified order; the file is an optional text;
    the catalog is a parameter of the generating functions and the installer's
    own catalog in `UpdateConfig`. */
module InstallerConfig {
  import opened Text
  import opened Ordering
  import opened Catalog
  import ConfigText
  import StandardConfig

  /** The lines of the top section. */
  const TopLines: seq<string> := StandardConfig.HeaderLines + [""] + StandardConfig.DefaultsLines

  /** The comment line below `repos:` in a newly created file. */
  const Placeholder := "  # Add hooks here using the installer or manually"

  /** `requiredTopSection`: the header, an empty line, the defaults. */
  function TopSection(): string {
    Unlines(StandardConfig.HeaderLines) + "\n\n" + Unlines(StandardConfig.DefaultsLines)
  }

  /** What `createConfigFileIfNeeded` writes when the user agrees to create
      the missing file. */
  function InitialContent(): string {
    TopSection() + "\n\nrepos:\n" + Placeholder
  }

  // ---------------------------------------------------------------------------
  // The kept part of the existing file

  /** A line whose trimmed text starts with `repos:`. */
  predicate IsReposLine(l: string) {
    HasPrefix(Trim(l), ConfigText.ReposKey)
  }

  /** Index of the first `repos:` line from `i` on. */
  function FirstReposFrom(ls: seq<string>, i: nat): (r: Option<nat>)
    requires i <= |ls|
    ensures r.Some? ==> i <= r.value < |ls| && IsReposLine(ls[r.value])
    ensures r.Some? ==> forall j :: i <= j < r.value ==> !IsReposLine(ls[j])
    ensures r.None? ==> forall j :: i <= j < |ls| ==> !IsReposLine(ls[j])
    decreases |ls| - i
  {
    if i == |ls| then None
    else if IsReposLine(ls[i]) then Some(i)
    else
      var r := FirstReposFrom(ls, i + 1);
      assert forall j :: i + 1 <= j < (if r.Some? then r.value else |ls|) ==> !IsReposLine(ls[j]);
      r
  }

  /** Index of the first `repos:` line. */
  function FirstReposLine(ls: seq<string>): Option<nat> {
    FirstReposFrom(ls, 0)
  }

  /** `existingReposContent`: the lines after the first `repos:` line, or no
      line at all when there is none. */
  function ExistingRepos(ls: seq<string>): seq<string> {
    match FirstReposLine(ls)
    case Some(k) => ls[k + 1..]
    case None => []
  }

  /** The `for (index, line) in lines.enumerated()` loop with its `break`. */
  method ExtractExistingRepos(lines: seq<string>) returns (existingReposContent: seq<string>)
    ensures existingReposContent == ExistingRepos(lines)
  {
    existingReposContent := [];
    for index := 0 to |lines|
      invariant forall j :: 0 <= j < index ==> !IsReposLine(lines[j])
    {
      if HasPrefix(Trim(lines[index]), ConfigText.ReposKey) {
        existingReposContent := lines[index + 1..];
        assert FirstReposLine(lines) == Some(index);
        return;
      }
    }
  }

  // ---------------------------------------------------------------------------
  // Grouping the selected hooks

  /** A remote hook as `hooksByRepo` records it. */
  datatype RemoteHook = RemoteHook(id: string, rev: string)

  /** A local hook as `localHooks` records it. */
  datatype LocalHook = LocalHook(id: string, name: string, entry: string, language: string, files: string)

  function RemoteId(h: RemoteHook): string {
    h.id
  }

  function LocalId(h: LocalHook): string {
    h.id
  }

  /** The local entry recorded for a catalog hook: its description as name,
      its script as entry, the `script` language and its file pattern. */
  function LocalEntryOf(h: Hook): LocalHook {
    LocalHook(h.id, h.description, ScriptPath(h.id), "script", FilesPattern(h.id))
  }

  /** `contains(where: { $0.id == id && $0.rev == rev })`. */
  predicate Listed(hs: seq<RemoteHook>, id: string, rev: string) {
    exists i :: 0 <= i < |hs| && hs[i].id == id && hs[i].rev == rev
  }

  /** The ids in `ids` of catalog hooks that live in `repo`. */
  function RepoIds(catalog: seq<Hook>, ids: set<string>, repo: string): set<string> {
    set id | id in ids && FindHook(catalog, id).Some? && FindHook(catalog, id).value.repo == repo
  }

  /** The repositories, other than `local`, of the catalog hooks in `ids`. */
  function RemoteRepos(catalog: seq<Hook>, ids: set<string>): set<string> {
    set id | id in ids && FindHook(catalog, id).Some? && FindHook(catalog, id).value.repo != LocalRepo
      :: FindHook(catalog, id).value.repo
  }

  /** `hs` holds one record per id of `ids`, each with its catalog revision. */
  predicate RemoteGroup(catalog: seq<Hook>, hs: seq<RemoteHook>, ids: set<string>) {
    ListsKeys(hs, RemoteId, ids) &&
    forall i :: 0 <= i < |hs| ==>
      FindHook(catalog, hs[i].id).Some? && FindHook(catalog, hs[i].id).value.rev == hs[i].rev
  }

  /** `hs` holds the local entry of each id of `ids` and nothing else. */
  predicate LocalGroup(catalog: seq<Hook>, hs: seq<LocalHook>, ids: set<string>) {
    ListsKeys(hs, LocalId, ids) &&
    forall i :: 0 <= i < |hs| ==>
      FindHook(catalog, hs[i].id).Some? && hs[i] == LocalEntryOf(FindHook(catalog, hs[i].id).value)
  }

  /** `hooksByRepo` once the ids in `done` are visited: one key per remote
      repository, holding that repository's hooks. */
  predicate RemoteGrouped(catalog: seq<Hook>, done: set<string>, hooksByRepo: map<string, seq<RemoteHook>>) {
    hooksByRepo.Keys == RemoteRepos(catalog, done) &&
    forall repo :: repo in hooksByRepo ==> RemoteGroup(catalog, hooksByRepo[repo], RepoIds(catalog, done, repo))
  }

  /** The `for hookId in selectedHookIds` loop: every id is looked up in the
      catalog (unknown ids are skipped) and its hook recorded under its
      repository or among the local hooks. The set is visited in an
      arbitrary order; what is built does not depend on it beyond the order
      of records, which the rendering sorts away. */
  method GroupSelectedHooks(catalog: seq<Hook>, selectedHookIds: set<string>)
    returns (hooksByRepo: map<string, seq<RemoteHook>>, localHooks: seq<LocalHook>)
    ensures RemoteGrouped(catalog, selectedHookIds, hooksByRepo)
    ensures LocalGroup(catalog, localHooks, RepoIds(catalog, selectedHookIds, LocalRepo))
  {
    hooksByRepo := map[];
    localHooks := [];
    var remaining := selectedHookIds;
    ghost var done: set<string> := {};
    while remaining != {}
      invariant done <= selectedHookIds && remaining == selectedHookIds - done
      invariant RemoteGrouped(catalog, done, hooksByRepo)
      invariant LocalGroup(catalog, localHooks, RepoIds(catalog, done, LocalRepo))
      decreases |remaining|
    {
      var hookId :| hookId in remaining;
      hooksByRepo, localHooks := RecordHook(catalog, done, hookId, hooksByRepo, localHooks);
      remaining := remaining - {hookId};
      done := done + {hookId};
    }
    assert done == selectedHookIds;
  }

  /** The body of the loop for one id not yet visited. */
  method RecordHook(catalog: seq<Hook>, ghost done: set<string>, hookId: string,
                    hooksByRepo: map<string, seq<RemoteHook>>, localHooks: seq<LocalHook>)
    returns (hooksByRepo': map<string, seq<RemoteHook>>, localHooks': seq<LocalHook>)
    requires hookId !in done
    requires RemoteGrouped(catalog, done, hooksByRepo)
    requires LocalGroup(catalog, localHooks, RepoIds(catalog, done, LocalRepo))
    ensures RemoteGrouped(catalog, done + {hookId}, hooksByRepo')
    ensures LocalGroup(catalog, localHooks', RepoIds(catalog, done + {hookId}, LocalRepo))
  {
    hooksByRepo', localHooks' := hooksByRepo, localHooks;
    var found := FindHook(catalog, hookId);
    if found.Some? {
      var hook := found.value;
      if hook.repo == LocalRepo {
        localHooks' := localHooks' + [LocalEntryOf(hook)];
        GroupLocal(catalog, done, hookId, localHooks);
        RemoteUnaffected(catalog, done, hookId, hooksByRepo);
      } else {
        if hook.repo !in hooksByRepo' {
          hooksByRepo' := hooksByRepo'[hook.repo := []];
        }
        NotYetListed(catalog, done, hookId, hooksByRepo);
        if !Listed(hooksByRepo'[hook.repo], hook.id, hook.rev) {
          hooksByRepo' := hooksByRepo'[hook.repo := hooksByRepo'[hook.repo] + [RemoteHook(hook.id, hook.rev)]];
        }
        GroupRemote(catalog, done, hookId, hooksByRepo);
        LocalUnaffected(catalog, done, hookId, localHooks);
      }
    } else {
      RemoteUnaffected(catalog, done, hookId, hooksByRepo);
      LocalUnaffected(catalog, done, hookId, localHooks);
    }
  }

  /** What adding one id does to the ids grouped under each repository. */
  lemma RepoIdsAdd(catalog: seq<Hook>, done: set<string>, id: string, repo: string)
    ensures FindHook(catalog, id).Some? && FindHook(catalog, id).value.repo == repo ==>
      RepoIds(catalog, done + {id}, repo) == RepoIds(catalog, done, repo) + {id}
    ensures !(FindHook(catalog, id).Some? && FindHook(catalog, id).value.repo == repo) ==>
      RepoIds(catalog, done + {id}, repo) == RepoIds(catalog, done, repo)
  {
  }

  /** What adding one id does to the set of remote repositories. */
  lemma RemoteReposAdd(catalog: seq<Hook>, done: set<string>, id: string)
    ensures FindHook(catalog, id).Some? && FindHook(catalog, id).value.repo != LocalRepo ==>
      RemoteRepos(catalog, done + {id}) == RemoteRepos(catalog, done) + {FindHook(catalog, id).value.repo}
    ensures !(FindHook(catalog, id).Some? && FindHook(catalog, id).value.repo != LocalRepo) ==>
      RemoteRepos(catalog, done + {id}) == RemoteRepos(catalog, done)
  {
  }

  /** An id that is missing from the catalog or local leaves the remote
      records as they are. */
  lemma RemoteUnaffected(catalog: seq<Hook>, done: set<string>, id: string, before: map<string, seq<RemoteHook>>)
    requires FindHook(catalog, id).Some? ==> FindHook(catalog, id).value.repo == LocalRepo
    requires RemoteGrouped(catalog, done, before)
    ensures RemoteGrouped(catalog, done + {id}, before)
  {
    RemoteReposAdd(catalog, done, id);
    forall repo | repo in before ensures RemoteGroup(catalog, before[repo], RepoIds(catalog, done + {id}, repo)) {
      RepoIdsAdd(catalog, done, id, repo);
    }
  }

  /** A local hook joins the local entries. */
  lemma GroupLocal(catalog: seq<Hook>, done: set<string>, id: string, beforeLocal: seq<LocalHook>)
    requires id !in done
    requires FindHook(catalog, id).Some? && FindHook(catalog, id).value.repo == LocalRepo
    requires LocalGroup(catalog, beforeLocal, RepoIds(catalog, done, LocalRepo))
    ensures LocalGroup(catalog, beforeLocal + [LocalEntryOf(FindHook(catalog, id).value)], RepoIds(catalog, done + {id}, LocalRepo))
  {
    var h := FindHook(catalog, id).value;
    RepoIdsAdd(catalog, done, id, LocalRepo);
    var next := beforeLocal + [LocalEntryOf(h)];
    ListsKeysAppend(beforeLocal, LocalId, RepoIds(catalog, done, LocalRepo), LocalEntryOf(h));
    forall i | 0 <= i < |next|
      ensures FindHook(catalog, next[i].id).Some? && next[i] == LocalEntryOf(FindHook(catalog, next[i].id).value)
    {
      if i < |beforeLocal| {
        assert next[i] == beforeLocal[i];
      }
    }
  }

  /** The records of a repository hold only ids already visited. */
  lemma NotYetListed(catalog: seq<Hook>, done: set<string>, id: string, before: map<string, seq<RemoteHook>>)
    requires id !in done
    requires RemoteGrouped(catalog, done, before)
    ensures forall repo, rev :: repo in before ==> !Listed(before[repo], id, rev)
  {
    forall repo, rev | repo in before ensures !Listed(before[repo], id, rev) {
      forall i | 0 <= i < |before[repo]| ensures before[repo][i].id != id {
        assert RemoteId(before[repo][i]) in RepoIds(catalog, done, repo);
      }
    }
  }

  /** A hook that is not local leaves the local entries as they are. */
  lemma LocalUnaffected(catalog: seq<Hook>, done: set<string>, id: string, beforeLocal: seq<LocalHook>)
    requires FindHook(catalog, id).Some? ==> FindHook(catalog, id).value.repo != LocalRepo
    requires LocalGroup(catalog, beforeLocal, RepoIds(catalog, done, LocalRepo))
    ensures LocalGroup(catalog, beforeLocal, RepoIds(catalog, done + {id}, LocalRepo))
  {
    RepoIdsAdd(catalog, done, id, LocalRepo);
  }

  /** The records of a repository not yet met list none of its ids. */
  lemma PriorGroup(catalog: seq<Hook>, done: set<string>, repo: string, before: map<string, seq<RemoteHook>>)
    requires repo != LocalRepo
    requires RemoteGrouped(catalog, done, before)
    ensures RemoteGroup(catalog, if repo in before then before[repo] else [], RepoIds(catalog, done, repo))
  {
    RepoIdsRemote(catalog, done, repo);
  }

  /** A remote repository with a visited hook is among the remote repositories. */
  lemma RepoIdsRemote(catalog: seq<Hook>, done: set<string>, repo: string)
    requires repo != LocalRepo
    ensures RepoIds(catalog, done, repo) != {} ==> repo in RemoteRepos(catalog, done)
  {
    if RepoIds(catalog, done, repo) != {} {
      var x :| x in RepoIds(catalog, done, repo);
      assert FindHook(catalog, x).value.repo == repo;
    }
  }

  /** Appending the record of a new id keeps a repository's records complete. */
  lemma RemoteGroupAppend(catalog: seq<Hook>, prev: seq<RemoteHook>, ids: set<string>, h: Hook)
    requires RemoteGroup(catalog, prev, ids)
    requires FindHook(catalog, h.id) == Some(h) && h.id !in ids
    ensures RemoteGroup(catalog, prev + [RemoteHook(h.id, h.rev)], ids + {h.id})
  {
    var next := prev + [RemoteHook(h.id, h.rev)];
    ListsKeysAppend(prev, RemoteId, ids, RemoteHook(h.id, h.rev));
    forall i | 0 <= i < |next|
      ensures FindHook(catalog, next[i].id).Some? && FindHook(catalog, next[i].id).value.rev == next[i].rev
    {
      if i < |prev| {
        assert next[i] == prev[i];
      }
    }
  }

  /** A remote hook is appended to its repository's records, which are
      created when the repository is new. */
  lemma GroupRemote(catalog: seq<Hook>, done: set<string>, id: string, before: map<string, seq<RemoteHook>>)
    requires id !in done
    requires FindHook(catalog, id).Some? && FindHook(catalog, id).value.repo != LocalRepo
    requires RemoteGrouped(catalog, done, before)
    ensures var h := FindHook(catalog, id).value;
      var prev := if h.repo in before then before[h.repo] else [];
      RemoteGrouped(catalog, done + {id}, before[h.repo := prev + [RemoteHook(h.id, h.rev)]])
  {
    var d := done + {id};
    var h := FindHook(catalog, id).value;
    var prev := if h.repo in before then before[h.repo] else [];
    var after := before[h.repo := prev + [RemoteHook(h.id, h.rev)]];
    RemoteReposAdd(catalog, done, id);
    RepoGroupGrows(catalog, done, id, before);
    OtherReposKept(catalog, done, id, before, after[h.repo]);
    assert after.Keys == before.Keys + {h.repo};
  }

  /** The records of the visited hook's repository, with its record added,
      list that repository's ids once the hook is visited. */
  lemma RepoGroupGrows(catalog: seq<Hook>, done: set<string>, id: string, before: map<string, seq<RemoteHook>>)
    requires id !in done
    requires FindHook(catalog, id).Some? && FindHook(catalog, id).value.repo != LocalRepo
    requires RemoteGrouped(catalog, done, before)
    ensures var h := FindHook(catalog, id).value;
      var prev := if h.repo in before then before[h.repo] else [];
      RemoteGroup(catalog, prev + [RemoteHook(h.id, h.rev)], RepoIds(catalog, done + {id}, h.repo))
  {
    var h := FindHook(catalog, id).value;
    var prev := if h.repo in before then before[h.repo] else [];
    RepoIdsAdd(catalog, done, id, h.repo);
    PriorGroup(catalog, done, h.repo, before);
    RemoteGroupAppend(catalog, prev, RepoIds(catalog, done, h.repo), h);
  }

  /** The repositories other than the one of the visited hook keep their
      records, and their ids are the same as before. */
  lemma OtherReposKept(catalog: seq<Hook>, done: set<string>, id: string,
                       before: map<string, seq<RemoteHook>>, records: seq<RemoteHook>)
    requires FindHook(catalog, id).Some?
    requires RemoteGrouped(catalog, done, before)
    requires RemoteGroup(catalog, records, RepoIds(catalog, done + {id}, FindHook(catalog, id).value.repo))
    ensures var after := before[FindHook(catalog, id).value.repo := records];
      forall repo :: repo in after ==> RemoteGroup(catalog, after[repo], RepoIds(catalog, done + {id}, repo))
  {
    var r := FindHook(catalog, id).value.repo;
    var after := before[r := records];
    forall repo | repo in after ensures RemoteGroup(catalog, after[repo], RepoIds(catalog, done + {id}, repo)) {
      if repo != r {
        RepoIdsAdd(catalog, done, id, repo);
        assert after[repo] == before[repo];
      }
    }
  }

  /** The order `hooksByRepo.sorted(by: { $0.key < $1.key })` visits the
      repositories in: the keys in ascending order. */
  method SortKeys(keys: set<string>) returns (sorted: seq<string>)
    ensures sorted == SortedSet(keys)
  {
    sorted := [];
    var rest := keys;
    while rest != {}
      invariant rest <= keys
      invariant StrictlySorted(sorted)
      invariant forall x :: x in sorted <==> x in keys && x !in rest
      decreases |rest|
    {
      var key :| key in rest;
      sorted := Insert(key, sorted);
      rest := rest - {key};
    }
    SortedSetUnique(keys, sorted);
  }

  // ---------------------------------------------------------------------------
  // The generated block

  /** `"      - id: \(id)\n"`. */
  function IdLine(id: string): string {
    "      - id: " + id + "\n"
  }

  function IdLines(ids: seq<string>): string
    decreases |ids|
  {
    if |ids| == 0 then "" else IdLines(ids[..|ids| - 1]) + IdLine(ids[|ids| - 1])
  }

  function RepoLine(repo: string): string {
    "  - repo: " + repo + "\n"
  }

  function RevLine(rev: string): string {
    "    rev: " + rev + "\n"
  }

  /** The entry of one remote repository. */
  function RemoteBlock(repo: string, rev: string, ids: seq<string>): string {
    RepoLine(repo) + RevLine(rev) + "    hooks:\n" + IdLines(ids)
  }

  /** The entry written for `repo`: its selected ids in ascending order, under
      the revision of the first of them (all hooks of a repository share one
      revision in the installer's catalog). Empty when none of the selected
      hooks lives there. */
  ghost function RepoBlockOf(catalog: seq<Hook>, ids: set<string>, repo: string): string {
    var s := SortedSet(RepoIds(catalog, ids, repo));
    if |s| == 0 then ""
    else
      assert s[0] in s;
      RemoteBlock(repo, FindHook(catalog, s[0]).value.rev, s)
  }

  /** The entries of the repositories `repos`, in that order. */
  ghost function RemoteSection(catalog: seq<Hook>, ids: set<string>, repos: seq<string>): string
    decreases |repos|
  {
    if |repos| == 0 then ""
    else RemoteSection(catalog, ids, repos[..|repos| - 1]) + RepoBlockOf(catalog, ids, repos[|repos| - 1])
  }

  function NameLine(name: string): string {
    "        name: \"" + name + "\"\n"
  }

  function EntryLine(entry: string): string {
    "        entry: " + entry + "\n"
  }

  function LanguageLine(language: string): string {
    "        language: " + language + "\n"
  }

  /** The `files:` line, only when there is a pattern. */
  function FilesLine(files: string): string {
    if files != "" then "        files: " + files + "\n" else ""
  }

  const StagesLine := "        stages: [pre-commit]\n"

  /** The lines of one local hook. */
  function LocalEntryText(h: LocalHook): string {
    IdLine(h.id) + NameLine(h.name) + EntryLine(h.entry) + LanguageLine(h.language) + FilesLine(h.files) + StagesLine
  }

  function LocalEntries(hs: seq<LocalHook>): string
    decreases |hs|
  {
    if |hs| == 0 then "" else LocalEntries(hs[..|hs| - 1]) + LocalEntryText(hs[|hs| - 1])
  }

  /** The `local` repository entry; nothing when no local hook is selected. */
  function LocalBlock(hs: seq<LocalHook>): string {
    if |hs| == 0 then "" else "  - repo: local\n" + "    hooks:\n" + LocalEntries(hs)
  }

  /** The local entries of catalog hooks, in the order of their ids. */
  function LocalList(catalog: seq<Hook>, ids: seq<string>): seq<LocalHook>
    requires forall i :: 0 <= i < |ids| ==> FindHook(catalog, ids[i]).Some?
  {
    seq(|ids|, i requires 0 <= i < |ids| => LocalEntryOf(FindHook(catalog, ids[i]).value))
  }

  /** The local entries of the selected local hooks, sorted by id. */
  ghost function LocalSection(catalog: seq<Hook>, ids: set<string>): string {
    var s := SortedSet(RepoIds(catalog, ids, LocalRepo));
    assert forall i :: 0 <= i < |s| ==> s[i] in s;
    LocalBlock(LocalList(catalog, s))
  }

  /** `managedHooksAdditions`: nothing when no hook is selected; otherwise
      the marker line, the remote entries by ascending URL, then the local
      entry. */
  ghost function Additions(catalog: seq<Hook>, ids: set<string>): string {
    if ids == {} then ""
    else
      MarkerLine + (RemoteSection(catalog, ids, SortedSet(RemoteRepos(catalog, ids))) + LocalSection(catalog, ids))
  }

  /** `finalContent` for the file's text `content`. */
  ghost function UpdatedText(catalog: seq<Hook>, content: string, ids: set<string>): string {
    Assemble(TopSection(), content, Additions(catalog, ids))
  }

  /** The top section, `repos:`, the lines kept from `content`, the block. */
  function Assemble(top: string, content: string, additions: string): string {
    top + "\nrepos:\n" + Join(ExistingRepos(Lines(content)), "\n") + additions
  }

  /** The text `updateConfigFile` writes, with the installer's catalog. A
      missing file is first created with the initial text when the user
      agrees; when the user declines, an error is thrown and nothing is
      written. */
  ghost function UpdateConfig(existing: Option<string>, createConfirmed: bool, ids: set<string>): Option<string> {
    match existing
    case Some(text) => Some(UpdatedText(AllHooks(InstallerCatalog), text, ids))
    case None =>
      if createConfirmed then Some(UpdatedText(AllHooks(InstallerCatalog), InitialContent(), ids)) else None
  }

  // ---------------------------------------------------------------------------
  // The steps of updateConfigFile

  /** `for hook in hooks.sorted(...)`, over the already sorted hooks. */
  method AppendIdLines(additions: string, sorted: seq<RemoteHook>) returns (r: string)
    ensures r == additions + IdLines(Keys(sorted, RemoteId))
  {
    r := additions;
    for j := 0 to |sorted|
      invariant r == additions + IdLines(Keys(sorted[..j], RemoteId))
    {
      r := r + "      - id: " + sorted[j].id + "\n";
      IdLinesStep(additions, sorted, j);
    }
    assert sorted[..|sorted|] == sorted;
  }

  /** The body of the loop over the repositories: nothing for a repository
      without recorded hooks (`hooks.first?.rev` is `nil`), otherwise its
      entry with the revision of its first recorded hook. */
  method AppendRepo(additions: string, repo: string, hooks: seq<RemoteHook>) returns (r: string)
    ensures |hooks| == 0 ==> r == additions
    ensures |hooks| > 0 ==> r == additions + RemoteBlock(repo, hooks[0].rev, Keys(SortBy(hooks, RemoteId), RemoteId))
  {
    r := additions;
    if |hooks| > 0 {
      var rev := hooks[0].rev;
      r := r + "  - repo: " + repo + "\n";
      AppendLine(additions, "  - repo: ", repo, "\n");
      ghost var r1 := r;
      r := r + "    rev: " + rev + "\n";
      AppendLine(r1, "    rev: ", rev, "\n");
      r := r + "    hooks:\n";
      var sorted := SortBy(hooks, RemoteId);
      r := AppendIdLines(r, sorted);
      AppendRepoAssoc(additions, RepoLine(repo), RevLine(rev), IdLines(Keys(sorted, RemoteId)));
    }
  }

  /** `for (repo, hooks) in hooksByRepo.sorted(...)`: each repository's entry,
      with the revision of its first recorded hook and its ids sorted. */
  method AppendRemoteBlocks(additions: string, catalog: seq<Hook>, selected: set<string>,
                            hooksByRepo: map<string, seq<RemoteHook>>, repos: seq<string>)
    returns (r: string)
    requires OneRevPerRepo(catalog)
    requires RemoteGrouped(catalog, selected, hooksByRepo)
    requires forall repo :: repo in repos ==> repo in hooksByRepo
    ensures r == additions + RemoteSection(catalog, selected, repos)
  {
    r := additions;
    for i := 0 to |repos|
      invariant r == additions + RemoteSection(catalog, selected, repos[..i])
    {
      var repo := repos[i];
      var hooks := hooksByRepo[repo];
      r := AppendRepo(r, repo, hooks);
      RepoBlockMatches(catalog, selected, repo, hooks);
      RemoteSectionStep(additions, catalog, selected, repos, i);
    }
    assert repos[..|repos|] == repos;
  }

  /** The lines the loop over the sorted local hooks appends for one hook. */
  method AppendLocalEntry(additions: string, hook: LocalHook) returns (r: string)
    ensures r == additions + LocalEntryText(hook)
  {
    r := additions + "      - id: " + hook.id + "\n";
    AppendLine(additions, "      - id: ", hook.id, "\n");
    ghost var r1 := r;
    r := r + "        name: \"" + hook.name + "\"\n";
    AppendLine(r1, "        name: \"", hook.name, "\"\n");
    ghost var r2 := r;
    r := r + "        entry: " + hook.entry + "\n";
    AppendLine(r2, "        entry: ", hook.entry, "\n");
    ghost var r3 := r;
    r := r + "        language: " + hook.language + "\n";
    AppendLine(r3, "        language: ", hook.language, "\n");
    ghost var r4 := r;
    if hook.files != "" {
      r := r + "        files: " + hook.files + "\n";
      AppendLine(r4, "        files: ", hook.files, "\n");
    }
    r := r + "        stages: [pre-commit]\n";
    AppendSix(additions, IdLine(hook.id), NameLine(hook.name), EntryLine(hook.entry), LanguageLine(hook.language),
      FilesLine(hook.files), StagesLine);
  }

  /** `for hook in localHooks.sorted(...)`, over the already sorted hooks. */
  method AppendLocalEntries(additions: string, sorted: seq<LocalHook>) returns (r: string)
    ensures r == additions + LocalEntries(sorted)
  {
    r := additions;
    for i := 0 to |sorted|
      invariant r == additions + LocalEntries(sorted[..i])
    {
      r := AppendLocalEntry(r, sorted[i]);
      LocalEntriesStep(additions, sorted, i);
    }
    assert sorted[..|sorted|] == sorted;
  }

  /** The `local` entry: the local hooks sorted by id. */
  method AppendLocalBlock(additions: string, catalog: seq<Hook>, selected: set<string>, localHooks: seq<LocalHook>)
    returns (r: string)
    requires LocalGroup(catalog, localHooks, RepoIds(catalog, selected, LocalRepo))
    ensures r == additions + LocalSection(catalog, selected)
  {
    r := additions;
    var sorted := SortBy(localHooks, LocalId);
    if |localHooks| > 0 {
      r := r + "  - repo: local\n";
      r := r + "    hooks:\n";
      r := AppendLocalEntries(r, sorted);
      AppendLine(additions, "  - repo: local\n", "    hooks:\n", LocalEntries(sorted));
    }
    LocalSectionOf(catalog, selected, localHooks);
  }

  /** `managedHooksAdditions`, from the marker line to the reset when no
      hook is selected. */
  method ManagedAdditions(catalog: seq<Hook>, selectedHookIds: set<string>) returns (managedHooksAdditions: string)
    requires OneRevPerRepo(catalog)
    ensures managedHooksAdditions == Additions(catalog, selectedHookIds)
  {
    managedHooksAdditions := "\n" + "  " + ConfigText.Marker + "\n";
    var hooksByRepo, localHooks := GroupSelectedHooks(catalog, selectedHookIds);
    var repos := SortKeys(hooksByRepo.Keys);
    managedHooksAdditions := AppendRemoteBlocks(managedHooksAdditions, catalog, selectedHookIds, hooksByRepo, repos);
    managedHooksAdditions := AppendLocalBlock(managedHooksAdditions, catalog, selectedHookIds, localHooks);
    ghost var remote := RemoteSection(catalog, selectedHookIds, SortedSet(RemoteRepos(catalog, selectedHookIds)));
    assert managedHooksAdditions == MarkerLine + remote + LocalSection(catalog, selectedHookIds);
    Regroup3(MarkerLine, remote, LocalSection(catalog, selectedHookIds));
    if selectedHookIds == {} {
      managedHooksAdditions := "";
    }
  }

  /** `finalContent` for the text `originalContent` of the file. */
  method FinalContent(catalog: seq<Hook>, originalContent: string, selectedHookIds: set<string>)
    returns (finalContent: string)
    requires OneRevPerRepo(catalog)
    ensures finalContent == UpdatedText(catalog, originalContent, selectedHookIds)
  {
    var lines := Lines(originalContent);
    var existingReposContent := ExtractExistingRepos(lines);
    var requiredTopSection := TopSection();
    var managedHooksAdditions := ManagedAdditions(catalog, selectedHookIds);
    finalContent := requiredTopSection + "\nrepos:\n" + Join(existingReposContent, "\n") + managedHooksAdditions;
  }

  /** `updateConfigFile(selectedHookIds:)`; `existing` is the file's text when
      it exists and `createConfirmed` the user's answer to the question
      whether to create it. `None` stands for the error thrown when the user
      declines. */
  method UpdateConfigFile(existing: Option<string>, createConfirmed: bool, selectedHookIds: set<string>)
    returns (written: Option<string>)
    ensures written == UpdateConfig(existing, createConfirmed, selectedHookIds)
  {
    var originalContent: string;
    match existing {
      case None =>
        if !createConfirmed {
          return None;
        }
        originalContent := InitialContent();
      case Some(text) =>
        originalContent := text;
    }
    InstallerCatalogWellFormed();
    var finalContent := FinalContent(AllHooks(InstallerCatalog), originalContent, selectedHookIds);
    written := Some(finalContent);
  }

  // ---------------------------------------------------------------------------
  // Lemmas linking the loops to the specification

  lemma AppendTwo(a: string, b: string, c: string)
    ensures a + b + c == a + (b + c)
  {
  }

  lemma AppendLine(a: string, b: string, c: string, d: string)
    ensures a + b + c + d == a + (b + c + d)
  {
  }

  lemma AppendSix(a: string, b: string, c: string, d: string, e: string, f: string, g: string)
    ensures a + b + c + d + e + f + g == a + (b + c + d + e + f + g)
  {
  }

  lemma ListsKeysAppend<T>(xs: seq<T>, key: T -> string, ks: set<string>, x: T)
    requires ListsKeys(xs, key, ks) && key(x) !in ks
    ensures ListsKeys(xs + [x], key, ks + {key(x)})
  {
    var ys := xs + [x];
    forall k | k in ks + {key(x)} ensures exists i :: 0 <= i < |ys| && key(ys[i]) == k {
      if k in ks {
        var i :| 0 <= i < |xs| && key(xs[i]) == k;
        assert key(ys[i]) == k;
      } else {
        assert key(ys[|xs|]) == k;
      }
    }
  }

  /** The entry the loop writes for a repository's recorded hooks is the one
      the specification gives, whatever order the hooks were recorded in. */
  lemma RepoBlockMatches(catalog: seq<Hook>, selected: set<string>, repo: string, hooks: seq<RemoteHook>)
    requires OneRevPerRepo(catalog)
    requires RemoteGroup(catalog, hooks, RepoIds(catalog, selected, repo))
    ensures |hooks| == 0 ==> RepoBlockOf(catalog, selected, repo) == ""
    ensures |hooks| > 0 ==>
      RepoBlockOf(catalog, selected, repo) == RemoteBlock(repo, hooks[0].rev, Keys(SortBy(hooks, RemoteId), RemoteId))
  {
    var ids := RepoIds(catalog, selected, repo);
    var s := SortedSet(ids);
    SortByKeysCanonical(hooks, RemoteId, ids);
    if |hooks| > 0 {
      assert s[0] in s;
      var a := FindHook(catalog, s[0]).value;
      var b := FindHook(catalog, hooks[0].id).value;
      assert hooks[0].id in ids;
      var ia :| 0 <= ia < |catalog| && catalog[ia] == a;
      var ib :| 0 <= ib < |catalog| && catalog[ib] == b;
      assert a.rev == b.rev;
    } else {
      assert forall x :: x !in ids;
    }
  }

  lemma LocalEntriesStep(head: string, hs: seq<LocalHook>, i: nat)
    requires i < |hs|
    ensures head + LocalEntries(hs[..i]) + LocalEntryText(hs[i]) == head + LocalEntries(hs[..i + 1])
  {
    assert hs[..i + 1][..i] == hs[..i];
  }

  /** The `local` entry of the specification is that of the sorted records. */
  lemma LocalSectionOf(catalog: seq<Hook>, selected: set<string>, localHooks: seq<LocalHook>)
    requires LocalGroup(catalog, localHooks, RepoIds(catalog, selected, LocalRepo))
    ensures LocalSection(catalog, selected) == LocalBlock(SortBy(localHooks, LocalId))
  {
    LocalSorted(catalog, localHooks, RepoIds(catalog, selected, LocalRepo));
  }

  lemma IdLinesStep(head: string, hs: seq<RemoteHook>, j: nat)
    requires j < |hs|
    ensures head + IdLines(Keys(hs[..j], RemoteId)) + "      - id: " + hs[j].id + "\n" ==
      head + IdLines(Keys(hs[..j + 1], RemoteId))
  {
    var k := Keys(hs[..j + 1], RemoteId);
    assert k[..j] == Keys(hs[..j], RemoteId);
    AppendLine(head + IdLines(k[..j]), "      - id: ", hs[j].id, "\n");
  }

  lemma AppendRepoAssoc(a: string, b: string, c: string, d: string)
    ensures a + b + c + "    hooks:\n" + d == a + (b + c + "    hooks:\n" + d)
  {
  }

  lemma RemoteSectionStep(head: string, catalog: seq<Hook>, selected: set<string>, repos: seq<string>, i: nat)
    requires i < |repos|
    ensures head + RemoteSection(catalog, selected, repos[..i]) + RepoBlockOf(catalog, selected, repos[i]) ==
      head + RemoteSection(catalog, selected, repos[..i + 1])
  {
    assert repos[..i + 1][..i] == repos[..i];
  }

  /** Sorting keeps every record a local entry of its catalog hook. */
  lemma LocalSortedEntries(catalog: seq<Hook>, hs: seq<LocalHook>, ids: set<string>)
    requires LocalGroup(catalog, hs, ids)
    ensures var r := SortBy(hs, LocalId);
      forall i :: 0 <= i < |r| ==> FindHook(catalog, r[i].id).Some? && r[i] == LocalEntryOf(FindHook(catalog, r[i].id).value)
  {
    var r := SortBy(hs, LocalId);
    forall i | 0 <= i < |r| ensures FindHook(catalog, r[i].id).Some? && r[i] == LocalEntryOf(FindHook(catalog, r[i].id).value) {
      assert r[i] in multiset(hs);
      var j :| 0 <= j < |hs| && hs[j] == r[i];
    }
  }

  /** Local entries of catalog hooks listed in the order of `s` are the
      local list of `s`. */
  lemma LocalListOfEntries(catalog: seq<Hook>, r: seq<LocalHook>, s: seq<string>)
    requires Keys(r, LocalId) == s
    requires forall i :: 0 <= i < |r| ==> FindHook(catalog, r[i].id).Some? && r[i] == LocalEntryOf(FindHook(catalog, r[i].id).value)
    ensures forall i :: 0 <= i < |s| ==> FindHook(catalog, s[i]).Some?
    ensures r == LocalList(catalog, s)
  {
    forall i | 0 <= i < |s| ensures s[i] == r[i].id {
      assert s[i] == Keys(r, LocalId)[i];
    }
  }

  /** The sorted local hooks are the local entries of the sorted ids. */
  lemma LocalSorted(catalog: seq<Hook>, hs: seq<LocalHook>, ids: set<string>)
    requires LocalGroup(catalog, hs, ids)
    ensures forall i :: 0 <= i < |SortedSet(ids)| ==> FindHook(catalog, SortedSet(ids)[i]).Some?
    ensures SortBy(hs, LocalId) == LocalList(catalog, SortedSet(ids))
  {
    SortByKeysCanonical(hs, LocalId, ids);
    LocalSortedEntries(catalog, hs, ids);
    LocalListOfEntries(catalog, SortBy(hs, LocalId), SortedSet(ids));
  }

  // ---------------------------------------------------------------------------
  // Properties of the written text

  /** The first line from the start that is a `repos:` line is found. */
  lemma FirstReposLineAt(ls: seq<string>, k: nat)
    requires k < |ls| && IsReposLine(ls[k])
    requires forall j :: 0 <= j < k ==> !IsReposLine(ls[j])
    ensures FirstReposLine(ls) == Some(k)
  {
  }

  /** The lines below the first `repos:` line of a text are those of the text
      that follows it. */
  lemma ExistingReposBelow(above: seq<string>, line: string, rest: string)
    requires NoNewlines(above) && '\n' !in line
    requires forall k :: 0 <= k < |above| ==> !IsReposLine(above[k])
    requires IsReposLine(line)
    ensures ExistingRepos(Lines(Unlines(above + [line]) + "\n" + rest)) == Lines(rest)
  {
    var head := above + [line];
    assert NoNewlines([line]);
    NoNewlinesConcat(above, [line]);
    LinesUnlines(head);
    LinesConcat(Unlines(head), rest);
    var ls := head + Lines(rest);
    assert ls[|above|] == line;
    assert forall j :: 0 <= j < |above| ==> ls[j] == above[j];
    FirstReposLineAt(ls, |above|);
    assert ls[|above| + 1..] == Lines(rest);
  }

  /** The text above the first `repos:` line (that line included) is replaced
      by the top section and `repos:`; the text below it is kept verbatim,
      followed by the generated block. */
  lemma KeepsTextBelowRepos(top: string, above: seq<string>, line: string, rest: string, additions: string)
    requires NoNewlines(above) && '\n' !in line
    requires forall k :: 0 <= k < |above| ==> !IsReposLine(above[k])
    requires IsReposLine(line)
    ensures Assemble(top, Unlines(above + [line]) + "\n" + rest, additions) == top + "\nrepos:\n" + rest + additions
  {
    ExistingReposBelow(above, line, rest);
    UnlinesLines(rest);
  }

  /** A text without a `repos:` line is dropped entirely. */
  lemma DropsTextWithoutRepos(top: string, content: string, additions: string)
    requires forall k :: 0 <= k < |Lines(content)| ==> !IsReposLine(Lines(content)[k])
    ensures Assemble(top, content, additions) == top + "\nrepos:\n" + additions
  {
  }

  /** No hook selected: no marker and no generated block. A selection: the
      block starts with the indented marker on a line of its own. */
  lemma AdditionsStart(catalog: seq<Hook>, ids: set<string>)
    ensures ids == {} <==> Additions(catalog, ids) == ""
    ensures ids != {} ==> HasPrefix(Additions(catalog, ids), MarkerLine)
  {
    if ids != {} {
      var q := RemoteSection(catalog, ids, SortedSet(RemoteRepos(catalog, ids))) + LocalSection(catalog, ids);
      PrefixOfConcat(MarkerLine, q);
    }
  }

  /** The marker line that opens the generated block. */
  const MarkerLine := "\n" + "  " + ConfigText.Marker + "\n"

  lemma Regroup3(a: string, b: string, c: string)
    ensures a + b + c == a + (b + c)
  {
  }

  lemma PrefixOfConcat(p: string, q: string)
    ensures HasPrefix(p + q, p)
  {
    assert (p + q)[..|p|] == p;
  }

  /** Running the update on its own output keeps that output and appends the
      block once more, for a top section whose lines hold no `repos:` line:
      the update is not idempotent. */
  lemma {:induction false} RerunAppendsAgain(topLines: seq<string>, content: string, additions: string)
    requires |topLines| > 0 && NoNewlines(topLines)
    requires forall k :: 0 <= k < |topLines| ==> !IsReposLine(topLines[k])
    ensures var top := Unlines(topLines);
      Assemble(top, Assemble(top, content, additions), additions) == Assemble(top, content, additions) + additions
  {
    var top := Unlines(topLines);
    var x := Join(ExistingRepos(Lines(content)), "\n") + additions;
    OutputHeading(topLines, content, additions);
    ReposKeyOneLine();
    ReposKeyLine();
    KeepsTextBelowRepos(top, topLines, ConfigText.ReposKey, x, additions);
    OutputTail(top, content, additions);
  }

  /** The output is the top section and `repos:` followed by one tail. */
  lemma OutputTail(top: string, content: string, additions: string)
    ensures Assemble(top, content, additions) ==
      top + "\nrepos:\n" + (Join(ExistingRepos(Lines(content)), "\n") + additions)
  {
  }

  /** The output is the top section's lines and the `repos:` line, followed
      by the kept lines and the generated block. */
  lemma OutputHeading(topLines: seq<string>, content: string, additions: string)
    requires |topLines| > 0
    ensures Assemble(Unlines(topLines), content, additions) ==
      Unlines(topLines + [ConfigText.ReposKey]) + "\n" + (Join(ExistingRepos(Lines(content)), "\n") + additions)
  {
    var top := Unlines(topLines);
    var j := Join(ExistingRepos(Lines(content)), "\n");
    JoinConcat(topLines, [ConfigText.ReposKey], "\n");
    assert Unlines(topLines + [ConfigText.ReposKey]) == top + "\n" + ConfigText.ReposKey;
    ReposHeading(top, j, additions);
  }

  lemma ReposKeyOneLine()
    ensures '\n' !in ConfigText.ReposKey
  {
  }

  lemma ReposKeyLine()
    ensures IsReposLine(ConfigText.ReposKey)
  {
    TrimUnchanged(ConfigText.ReposKey);
  }

  lemma ReposHeading(top: string, j: string, a: string)
    ensures top + "\nrepos:\n" + j + a == (top + "\n" + ConfigText.ReposKey) + "\n" + (j + a)
  {
    assert "\nrepos:\n" == "\n" + ConfigText.ReposKey + "\n";
  }

  /** A line starting with `#` or `d` is not a `repos:` line. */
  lemma NotReposLine(l: string)
    requires |l| > 0 && (l[0] == '#' || l[0] == 'd')
    ensures !IsReposLine(l)
  {
    TrimKeepsFirst(l);
  }

  /** No line of the top section is a `repos:` line. */
  lemma TopLinesNotRepos()
    ensures forall k :: 0 <= k < |TopLines| ==> !IsReposLine(TopLines[k])
  {
    var h, d := StandardConfig.HeaderLines, StandardConfig.DefaultsLines;
    StandardConfig.HeaderOpens();
    StandardConfig.DefaultsOpen();
    assert !IsReposLine("");
    forall k | 0 <= k < |TopLines| ensures !IsReposLine(TopLines[k]) {
      if k < |h| {
        assert TopLines[k] == h[k];
        NotReposLine(h[k]);
      } else if k > |h| {
        assert TopLines[k] == d[k - |h| - 1];
        NotReposLine(d[k - |h| - 1]);
      }
    }
  }

  /** The installer's top section is its lines joined. */
  lemma TopLinesJoined()
    ensures Unlines(TopLines) == TopSection()
  {
    var h, d := StandardConfig.HeaderLines, StandardConfig.DefaultsLines;
    JoinConcat(h, [""], "\n");
    JoinConcat(h + [""], d, "\n");
  }

  /** No line of the top section holds a line break. */
  lemma TopLinesOneLine()
    ensures NoNewlines(TopLines)
  {
    var h, d := StandardConfig.HeaderLines, StandardConfig.DefaultsLines;
    StandardConfig.HeaderOneLine();
    StandardConfig.DefaultsOneLine();
    assert NoNewlines([""]);
    NoNewlinesConcat(h, [""]);
    NoNewlinesConcat(h + [""], d);
  }

  /** The installer's update, run again on what it wrote, appends its block
      a second time. */
  lemma RerunRepeatsBlock(catalog: seq<Hook>, content: string, ids: set<string>)
    ensures UpdatedText(catalog, UpdatedText(catalog, content, ids), ids) ==
      UpdatedText(catalog, content, ids) + Additions(catalog, ids)
  {
    TopLinesJoined();
    TopLinesOneLine();
    TopLinesNotRepos();
    RerunAppendsAgain(TopLines, content, Additions(catalog, ids));
  }
}
