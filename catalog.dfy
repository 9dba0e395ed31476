/** The built-in hook catalog, the flattened hook-menu rows built from it, and
    the fixed mapping from local hook ids to the scripts that implement them. */
module Catalog {
  import opened Text

  datatype Hook = Hook(id: string, repo: string, rev: string, description: string, details: string)

  datatype HookGroup = HookGroup(name: string, description: string, hooks: seq<Hook>)

  const PreCommitHooksRepo := "https://github.com/pre-commit/pre-commit-hooks"
  const SwiftLintRepo := "https://github.com/realm/SwiftLint"
  const SwiftFormatRepo := "https://github.com/nicklockwood/SwiftFormat"
  const LocalRepo := "local"
  const ScriptsDir := "scripts"

  const CheckYaml := Hook("check-yaml", PreCommitHooksRepo, "v4.5.0",
    "Checks YAML files for parseable syntax", "Ensures all your YAML files are syntactically correct")
  const CheckJson := Hook("check-json", PreCommitHooksRepo, "v4.5.0",
    "Checks JSON files for parseable syntax", "Validates JSON files and ensures they are well-formed")
  const PrettyFormatJson := Hook("pretty-format-json", PreCommitHooksRepo, "v4.5.0",
    "Formats JSON files", "Automatically formats JSON files with consistent indentation and spacing")
  const TrailingWhitespace := Hook("trailing-whitespace", PreCommitHooksRepo, "v4.5.0",
    "Removes trailing whitespace", "Trims trailing whitespace from all lines in files")
  const EndOfFileFixer := Hook("end-of-file-fixer", PreCommitHooksRepo, "v4.5.0",
    "Ensures files end with a newline", "Makes sure all text files end with exactly one newline")
  const CheckMergeConflict := Hook("check-merge-conflict", PreCommitHooksRepo, "v4.5.0",
    "Checks for merge conflict markers", "Prevents committing files with git merge conflict markers")
  const SwiftLint := Hook("swiftlint", SwiftLintRepo, "0.54.0",
    "Swift style and conventions linter", "Enforces Swift style and conventions defined in your .swiftlint.yml")
  const SwiftFormat := Hook("swiftformat", SwiftFormatRepo, "0.53.5",
    "Swift code formatter", "Automatically formats Swift code according to a consistent style")
  const AccessibilityCheck := Hook("accessibility-check", LocalRepo, "local",
    "Checks for accessibility implementation", "Ensures UI elements have proper accessibility labels and hints")
  const XcodeProjectCheck := Hook("xcode-project-check", LocalRepo, "local",
    "Validates Xcode project settings", "Checks for common issues in Xcode project configuration")
  const UnusedAssetsCheck := Hook("unused-assets-check", LocalRepo, "local",
    "Finds unused assets", "Identifies images and other assets that aren't referenced in code")

  /** `availableHooks` of the installer script. */
  const InstallerCatalog: seq<HookGroup> := [
    HookGroup("File Formatting", "Hooks for maintaining consistent file formatting",
      [CheckYaml, CheckJson, PrettyFormatJson]),
    HookGroup("Code Quality", "Hooks for maintaining code quality and standards",
      [TrailingWhitespace, EndOfFileFixer, CheckMergeConflict]),
    HookGroup("Swift Specific", "Hooks specifically for Swift development",
      [SwiftLint, SwiftFormat]),
    HookGroup("iOS Specific", "Hooks for iOS development workflow",
      [AccessibilityCheck, XcodeProjectCheck, UnusedAssetsCheck])
  ]

  /** The shorter list the terminal UI controller loads: it has neither
      check-merge-conflict nor unused-assets-check. */
  const ControllerCatalog: seq<HookGroup> := [
    HookGroup("File Formatting", "Hooks for maintaining consistent file formatting",
      [CheckYaml, CheckJson, PrettyFormatJson]),
    HookGroup("Code Quality", "Hooks for maintaining code quality and standards",
      [TrailingWhitespace, EndOfFileFixer]),
    HookGroup("Swift Specific", "Hooks specifically for Swift development",
      [SwiftLint, SwiftFormat]),
    HookGroup("iOS Specific", "Hooks for iOS development workflow",
      [AccessibilityCheck, XcodeProjectCheck])
  ]

  /** `groups.flatMap { $0.hooks }`. */
  function AllHooks(groups: seq<HookGroup>): seq<Hook>
  {
    if |groups| == 0 then [] else AllHooks(groups[..|groups| - 1]) + groups[|groups| - 1].hooks
  }

  /** `hooks.first(where: { $0.id == id })`. */
  function FindHook(hooks: seq<Hook>, id: string): (r: Option<Hook>)
    ensures r.Some? ==> r.value in hooks && r.value.id == id
    ensures r.None? <==> forall k :: 0 <= k < |hooks| ==> hooks[k].id != id
  {
    if |hooks| == 0 then None
    else if hooks[0].id == id then Some(hooks[0])
    else
      assert forall k :: 1 <= k < |hooks| ==> hooks[k] == hooks[1..][k - 1];
      FindHook(hooks[1..], id)
  }

  /** With distinct ids, the hook found is the one at the id's position. */
  lemma FindHookDistinct(hooks: seq<Hook>, k: nat)
    requires DistinctIds(hooks) && k < |hooks|
    ensures FindHook(hooks, hooks[k].id) == Some(hooks[k])
  {
    var r := FindHook(hooks, hooks[k].id);
    var j :| 0 <= j < |hooks| && hooks[j] == r.value;
    assert j == k;
  }

  // ---------------------------------------------------------------------------
  // Hook menu rows

  /** One row of the flattened hook menu: a group header (shown with the group's
      name, not selectable) or a hook of that group. */
  datatype MenuRow = Header(groupIndex: nat) | HookRow(groupIndex: nat, hookIndex: nat, hook: Hook)

  /** The header of group `gi` followed by its hooks in order. */
  function GroupRows(gi: nat, g: HookGroup): (rows: seq<MenuRow>)
    ensures |rows| == |g.hooks| + 1
    ensures rows[0] == Header(gi)
    ensures forall k :: 0 <= k < |g.hooks| ==> rows[k + 1] == HookRow(gi, k, g.hooks[k])
  {
    [Header(gi)] + seq(|g.hooks|, k requires 0 <= k < |g.hooks| => HookRow(gi, k, g.hooks[k]))
  }

  /** The menu of the hook screens: for each group in order, its header row and
      then its hooks. */
  function HookMenuRows(groups: seq<HookGroup>): seq<MenuRow>
  {
    if |groups| == 0 then []
    else HookMenuRows(groups[..|groups| - 1]) + GroupRows(|groups| - 1, groups[|groups| - 1])
  }

  /** The hooks carried by the selectable rows, in row order. */
  function RowHooks(rows: seq<MenuRow>): seq<Hook>
  {
    if |rows| == 0 then []
    else
      var last := if rows[|rows| - 1].HookRow? then [rows[|rows| - 1].hook] else [];
      RowHooks(rows[..|rows| - 1]) + last
  }

  function HeaderCount(rows: seq<MenuRow>): nat
  {
    if |rows| == 0 then 0
    else HeaderCount(rows[..|rows| - 1]) + (if rows[|rows| - 1].Header? then 1 else 0)
  }

  /** Builds the rows the way the menu screens do, with one loop over the groups
      and one over each group's hooks. */
  method BuildHookMenuRows(groups: seq<HookGroup>) returns (rows: seq<MenuRow>)
    ensures rows == HookMenuRows(groups)
  {
    rows := [];
    var gi := 0;
    while gi < |groups|
      invariant 0 <= gi <= |groups|
      invariant rows == HookMenuRows(groups[..gi])
    {
      var g := groups[gi];
      var base := rows;
      rows := rows + [Header(gi)];
      var hi := 0;
      while hi < |g.hooks|
        invariant 0 <= hi <= |g.hooks|
        invariant rows == base + GroupRows(gi, g)[..hi + 1]
      {
        rows := rows + [HookRow(gi, hi, g.hooks[hi])];
        hi := hi + 1;
      }
      assert GroupRows(gi, g)[..hi + 1] == GroupRows(gi, g);
      assert groups[..gi + 1][..gi] == groups[..gi];
      gi := gi + 1;
    }
    assert groups[..gi] == groups;
  }

  lemma RowHooksAppend(a: seq<MenuRow>, b: seq<MenuRow>)
    ensures RowHooks(a + b) == RowHooks(a) + RowHooks(b)
    ensures HeaderCount(a + b) == HeaderCount(a) + HeaderCount(b)
    decreases |b|
  {
    if |b| > 0 {
      assert (a + b)[..|a + b| - 1] == a + b[..|b| - 1];
      RowHooksAppend(a, b[..|b| - 1]);
    } else {
      assert a + b == a;
    }
  }

  lemma {:induction false} GroupRowsHooks(gi: nat, g: HookGroup, n: nat)
    requires n <= |g.hooks|
    ensures RowHooks(GroupRows(gi, g)[..n + 1]) == g.hooks[..n]
    ensures HeaderCount(GroupRows(gi, g)[..n + 1]) == 1
    decreases n
  {
    var rows := GroupRows(gi, g);
    if n == 0 {
      assert rows[..1] == [Header(gi)];
      assert [Header(gi)][..0] == [];
    } else {
      GroupRowsHooks(gi, g, n - 1);
      assert rows[..n + 1][..n] == rows[..n];
      assert g.hooks[..n] == g.hooks[..n - 1] + [g.hooks[n - 1]];
    }
  }

  /** The selectable rows list exactly the flattened catalog, in order, and
      there is one header per group. */
  lemma {:induction false} HookMenuRowsShape(groups: seq<HookGroup>)
    ensures RowHooks(HookMenuRows(groups)) == AllHooks(groups)
    ensures HeaderCount(HookMenuRows(groups)) == |groups|
    ensures |HookMenuRows(groups)| == |groups| + |AllHooks(groups)|
    decreases |groups|
  {
    if |groups| > 0 {
      var n := |groups| - 1;
      var g := groups[n];
      HookMenuRowsShape(groups[..n]);
      RowHooksAppend(HookMenuRows(groups[..n]), GroupRows(n, g));
      GroupRowsHooks(n, g, |g.hooks|);
      assert GroupRows(n, g)[..|g.hooks| + 1] == GroupRows(n, g);
      assert g.hooks[..|g.hooks|] == g.hooks;
    }
  }

  /** Every row names a real group, and a hook row carries that group's hook at
      its position. */
  lemma {:induction false} HookMenuRowsIndices(groups: seq<HookGroup>, r: nat)
    requires r < |HookMenuRows(groups)|
    ensures HookMenuRows(groups)[r].groupIndex < |groups|
    ensures HookMenuRows(groups)[r].HookRow? ==>
      var row := HookMenuRows(groups)[r];
      row.hookIndex < |groups[row.groupIndex].hooks| &&
      row.hook == groups[row.groupIndex].hooks[row.hookIndex]
    decreases |groups|
  {
    var n := |groups| - 1;
    var prefix := HookMenuRows(groups[..n]);
    var rows := HookMenuRows(groups);
    assert rows == prefix + GroupRows(n, groups[n]);
    if r < |prefix| {
      HookMenuRowsIndices(groups[..n], r);
      assert rows[r] == prefix[r];
    } else {
      var k := r - |prefix|;
      assert rows[r] == GroupRows(n, groups[n])[k];
      if k > 0 {
        assert rows[r] == HookRow(n, k - 1, groups[n].hooks[k - 1]);
      }
    }
  }

  /** The cursor starts on the first group's header. */
  lemma FirstRowIsHeader(groups: seq<HookGroup>)
    requires |groups| > 0
    ensures |HookMenuRows(groups)| > 0 && HookMenuRows(groups)[0] == Header(0)
  {
    if |groups| == 1 {
      assert HookMenuRows(groups) == HookMenuRows(groups[..0]) + GroupRows(0, groups[0]);
    } else {
      FirstRowIsHeaderPrefix(groups, |groups|);
    }
  }

  lemma {:induction false} FirstRowIsHeaderPrefix(groups: seq<HookGroup>, n: nat)
    requires 1 <= n <= |groups|
    ensures |HookMenuRows(groups[..n])| > 0 && HookMenuRows(groups[..n])[0] == Header(0)
    decreases n
  {
    var gs := groups[..n];
    assert gs[..n - 1] == groups[..n - 1];
    if n == 1 {
      assert HookMenuRows(gs) == HookMenuRows(gs[..0]) + GroupRows(0, gs[0]);
    } else {
      FirstRowIsHeaderPrefix(groups, n - 1);
      assert HookMenuRows(gs) == HookMenuRows(groups[..n - 1]) + GroupRows(n - 1, gs[n - 1]);
    }
  }

  // ---------------------------------------------------------------------------
  // Local hooks and their scripts

  /** The script a local hook runs (the installer's `requiredScripts` paths and
      the `entry:` of the generated local block). */
  function ScriptPath(id: string): (p: string)
    ensures HasPrefix(p, ScriptsDir + "/")
    ensures id !in {"accessibility-check", "xcode-project-check", "unused-assets-check"} ==>
      p == ScriptsDir + "/" + id + ".sh"
  {
    match id
    case "accessibility-check" => ScriptsDir + "/accessibility-check.sh"
    case "xcode-project-check" => ScriptsDir + "/check-xcode-dangling-refs.sh"
    case "unused-assets-check" => ScriptsDir + "/check-unused-assets.sh"
    case _ => ScriptsDir + "/" + id + ".sh"
  }

  /** The `files:` pattern of a local hook; empty when the hook has none. */
  function FilesPattern(id: string): string
  {
    match id
    case "accessibility-check" => "\\.swift$"
    case "xcode-project-check" => "\\.pbxproj$"
    case "unused-assets-check" => "\\.(swift|storyboard|xib)$"
    case _ => ""
  }

  /** `lastPathComponent` of a path without a trailing slash: the text after
      the last '/'. */
  function LastPathComponent(p: string): (r: string)
    ensures '/' !in r
    ensures HasSuffix(p, r)
    decreases |p|
  {
    if |p| == 0 then ""
    else if p[|p| - 1] == '/' then ""
    else
      var r := LastPathComponent(p[..|p| - 1]);
      assert p[..|p| - 1][|p| - 1 - |r|..] == p[|p| - 1 - |r|..|p| - 1];
      r + [p[|p| - 1]]
  }

  /** The script file name of a non-special local hook is `<id>.sh`. */
  lemma ScriptFileName(id: string)
    requires '/' !in id
    requires id !in {"accessibility-check", "xcode-project-check", "unused-assets-check"}
    ensures LastPathComponent(ScriptPath(id)) == id + ".sh"
  {
    var p := ScriptPath(id);
    var name := id + ".sh";
    assert p == ScriptsDir + "/" + name;
    LastPathComponentAfterSlash(ScriptsDir, name);
  }

  lemma {:induction false} LastPathComponentAfterSlash(dir: string, name: string)
    requires '/' !in name
    ensures LastPathComponent(dir + "/" + name) == name
    decreases |name|
  {
    var p := dir + "/" + name;
    if |name| == 0 {
      assert p[|p| - 1] == '/';
    } else {
      assert p[..|p| - 1] == dir + "/" + name[..|name| - 1];
      assert name[|name| - 1] != '/' by { assert name[|name| - 1] in name; }
      LastPathComponentAfterSlash(dir, name[..|name| - 1]);
      assert name == name[..|name| - 1] + [name[|name| - 1]];
    }
  }

  // ---------------------------------------------------------------------------
  // Catalog facts

  predicate DistinctIds(hooks: seq<Hook>) {
    forall i, j :: 0 <= i < j < |hooks| ==> hooks[i].id != hooks[j].id
  }

  /** Every hook of one remote repository is pinned to the same revision. */
  predicate OneRevPerRepo(hooks: seq<Hook>) {
    forall i, j :: 0 <= i < |hooks| && 0 <= j < |hooks| && hooks[i].repo == hooks[j].repo ==>
      hooks[i].rev == hooks[j].rev
  }

  lemma InstallerCatalogHooks()
    ensures AllHooks(InstallerCatalog) == [CheckYaml, CheckJson, PrettyFormatJson,
      TrailingWhitespace, EndOfFileFixer, CheckMergeConflict, SwiftLint, SwiftFormat,
      AccessibilityCheck, XcodeProjectCheck, UnusedAssetsCheck]
  {
    var c := InstallerCatalog;
    FourGroups(c);
  }

  /** Four groups flatten to their hook lists in group order. */
  lemma FourGroups(c: seq<HookGroup>)
    requires |c| == 4
    ensures AllHooks(c) == c[0].hooks + c[1].hooks + c[2].hooks + c[3].hooks
  {
    assert c[..1][..0] == c[..0];
    assert AllHooks(c[..1]) == c[0].hooks;
    assert c[..2][..1] == c[..1];
    assert AllHooks(c[..2]) == c[0].hooks + c[1].hooks;
    assert c[..3][..2] == c[..2];
    assert AllHooks(c[..3]) == c[0].hooks + c[1].hooks + c[2].hooks;
    assert c[..4][..3] == c[..3];
    assert c[..4] == c;
  }

  /** The installer's catalog has distinct ids and one revision per repository,
      so looking a hook up by id is unambiguous. */
  lemma InstallerCatalogWellFormed()
    ensures DistinctIds(AllHooks(InstallerCatalog))
    ensures OneRevPerRepo(AllHooks(InstallerCatalog))
  {
    InstallerCatalogHooks();
    InstallerIdsDistinct();
    InstallerOneRev();
  }

  lemma InstallerIdsDistinct()
    ensures DistinctIds([CheckYaml, CheckJson, PrettyFormatJson, TrailingWhitespace, EndOfFileFixer,
      CheckMergeConflict, SwiftLint, SwiftFormat, AccessibilityCheck, XcodeProjectCheck, UnusedAssetsCheck])
  {
  }

  lemma InstallerOneRev()
    ensures OneRevPerRepo([CheckYaml, CheckJson, PrettyFormatJson, TrailingWhitespace, EndOfFileFixer,
      CheckMergeConflict, SwiftLint, SwiftFormat, AccessibilityCheck, XcodeProjectCheck, UnusedAssetsCheck])
  {
  }

  /** Every hook of the controller's list is also in the installer's list. */
  lemma ControllerCatalogIncluded()
    ensures forall h :: h in AllHooks(ControllerCatalog) ==> h in AllHooks(InstallerCatalog)
    ensures CheckMergeConflict !in AllHooks(ControllerCatalog)
  {
    InstallerCatalogHooks();
    var c := ControllerCatalog;
    FourGroups(c);
    assert AllHooks(c) == [CheckYaml, CheckJson, PrettyFormatJson, TrailingWhitespace,
      EndOfFileFixer, SwiftLint, SwiftFormat, AccessibilityCheck, XcodeProjectCheck];
  }
}
