/** `InstallerUI` of the installer script: the main menu (configure hooks,
    install, exit), the hook menu with its working copy of the selection, and
    the prompts of the install and exit flows. Each blocking read in the
    source becomes one step taking one decoded key; the installation's file
    and process work is a plan of steps whose success the environment decides. */
module InstallerUI {
  import opened Text
  import opened Catalog
  import MenuCursor
  import Steps

  type Key = MenuCursor.Key

  /** Where the user is. `HookMenu` is `configureHooks`; the others are the
      blocking prompts of `installSelected` and `confirmExit`. */
  datatype Screen =
    | MainMenu
    | HookMenu
    | NothingSelected          // "Nothing selected to install!", waiting for Enter
    | ConfirmInstall           // "Proceed with installation? (y/n)"
    | InstallFinished(success: bool) // result shown, waiting for Enter
    | ConfirmExit              // "Are you sure you want to exit without installing? (y/n)"
    | Done                     // `mainMenu` has returned

  /** The effectful steps of an installation, in the order they are tried. */
  datatype InstallStep =
    | CreateConfigIfNeeded
    | SetupScripts(fileNames: set<string>)
    | UpdateConfigFile(hookIds: set<string>)
    | InstallHooks(force: bool)

  const MainOptionCount := 3

  /** The rows of the hook menu. */
  function Rows(s: UIState): seq<MenuRow> {
    HookMenuRows(s.hooks)
  }

  /** The complete state of the installer UI. */
  datatype UIState = UIState(
    hooks: seq<HookGroup>,     // the script's global `availableHooks`
    selected: set<string>,     // `selectedHooks`
    screen: Screen,
    mainCursor: int,           // `currentSelection` of `mainMenu`
    hookCursor: int,           // `currentSelection` of `configureHooks`
    working: set<string>,      // `currentSelections` of `configureHooks`
    log: seq<InstallStep>)     // installation steps attempted so far

  predicate Inv(s: UIState) {
    |s.hooks| > 0 &&
    0 <= s.mainCursor < MainOptionCount &&
    0 <= s.hookCursor < |Rows(s)|
  }

  /** The state `mainMenu` starts in, over the built-in hook list. */
  function Initial(): (s: UIState)
    ensures Inv(s) && s.hooks == InstallerCatalog && s.selected == {} && s.screen == MainMenu
  {
    RowsNonEmpty(InstallerCatalog);
    UIState(InstallerCatalog, {}, MainMenu, 0, 0, {}, [])
  }

  lemma RowsNonEmpty(hooks: seq<HookGroup>)
    requires |hooks| > 0
    ensures |HookMenuRows(hooks)| > 0 && HookMenuRows(hooks)[0] == Header(0)
  {
    FirstRowIsHeader(hooks);
  }

  predicate IsChar(k: Key, c: char) {
    k == MenuCursor.Char(c)
  }

  /** `key.lowercased() == "y"` */
  predicate IsYes(k: Key) {
    IsChar(k, 'y') || IsChar(k, 'Y')
  }

  predicate IsNo(k: Key) {
    IsChar(k, 'n') || IsChar(k, 'N')
  }

  function Toggle(s: set<string>, x: string): set<string> {
    if x in s then s - {x} else s + {x}
  }

  /** Is `id` a local hook of the catalog (one that needs a script)? */
  predicate IsLocalHook(hooks: seq<HookGroup>, id: string) {
    var h := FindHook(AllHooks(hooks), id);
    h.Some? && h.value.repo == LocalRepo
  }

  /** The script files the selected local hooks need (`requiredScriptFilenames`). */
  function RequiredScriptFiles(hooks: seq<HookGroup>, selected: set<string>): set<string> {
    set id | id in selected && IsLocalHook(hooks, id) :: LastPathComponent(ScriptPath(id))
  }

  /** The steps `installSelected` tries once the user has confirmed. */
  function InstallPlan(hooks: seq<HookGroup>, selected: set<string>): seq<InstallStep> {
    var files := RequiredScriptFiles(hooks, selected);
    [CreateConfigIfNeeded] + (if files != {} then [SetupScripts(files)] else []) +
      [UpdateConfigFile(selected), InstallHooks(true)]
  }

  /** The state after one key. */
  function Next(s: UIState, key: Key, ok: InstallStep -> bool): (t: UIState)
    requires Inv(s)
    ensures Inv(t)
  {
    match s.screen
    case MainMenu =>
      if key == MenuCursor.Up then
        s.(mainCursor := if s.mainCursor > 0 then s.mainCursor - 1 else s.mainCursor)
      else if key == MenuCursor.Down then
        s.(mainCursor := if s.mainCursor < MainOptionCount - 1 then s.mainCursor + 1 else s.mainCursor)
      else if key == MenuCursor.Enter then
        if s.mainCursor == 0 then
          RowsNonEmpty(s.hooks);
          s.(screen := HookMenu, hookCursor := 0, working := s.selected)
        else if s.mainCursor == 1 then
          s.(screen := if s.selected == {} then NothingSelected else ConfirmInstall)
        else
          s.(screen := if s.selected == {} then Done else ConfirmExit)
      else if IsChar(key, '1') then s.(mainCursor := 0)
      else if IsChar(key, '2') then s.(mainCursor := 1)
      else if IsChar(key, '3') then s.(mainCursor := 2)
      else s
    case HookMenu =>
      if key == MenuCursor.Up then
        s.(hookCursor := if s.hookCursor > 0 then s.hookCursor - 1 else s.hookCursor)
      else if key == MenuCursor.Down then
        s.(hookCursor := if s.hookCursor < |Rows(s)| - 1 then s.hookCursor + 1 else s.hookCursor)
      else if key == MenuCursor.Space then
        var row := Rows(s)[s.hookCursor];
        if row.HookRow? then s.(working := Toggle(s.working, row.hook.id)) else s
      else if key == MenuCursor.Enter then
        s.(selected := s.working, screen := MainMenu)
      else if key == MenuCursor.Escape || IsChar(key, 'b') || IsChar(key, 'B') then
        s.(screen := MainMenu)
      else s
    case _ => PromptNext(s, key, ok)
  }

  /** The screens that only wait for Enter or a yes/no answer: they change the
      screen and, when installing, the log, and nothing else. */
  function PromptNext(s: UIState, key: Key, ok: InstallStep -> bool): (t: UIState)
    requires s.screen != MainMenu && s.screen != HookMenu
    ensures t == s.(screen := t.screen, log := t.log)
  {
    match s.screen
    case NothingSelected =>
      if key == MenuCursor.Enter then s.(screen := MainMenu) else s
    case ConfirmInstall =>
      if IsYes(key) then
        var o := Steps.Run(InstallPlan(s.hooks, s.selected), ok);
        s.(screen := InstallFinished(o.success), log := s.log + o.ran)
      else if IsNo(key) then s.(screen := MainMenu)
      else s
    case InstallFinished(success) =>
      if key == MenuCursor.Enter then s.(screen := if success then Done else MainMenu) else s
    case ConfirmExit =>
      if IsYes(key) then s.(screen := Done)
      else if IsNo(key) then s.(screen := MainMenu)
      else s
    case Done => s
  }

  /** At a prompt the state after a key is the prompt's. */
  lemma NextAtPrompt(s: UIState, key: Key, ok: InstallStep -> bool)
    requires Inv(s) && s.screen != MainMenu && s.screen != HookMenu
    ensures Next(s, key, ok) == PromptNext(s, key, ok) && Inv(PromptNext(s, key, ok))
  {
  }

  /** The installer UI as an object whose fields each key updates. */
  class UI {
    const hooks: seq<HookGroup>
    var selectedHooks: set<string>
    var screen: Screen
    var mainCursor: int
    var hookCursor: int
    var working: set<string>
    var log: seq<InstallStep>

    function State(): UIState
      reads this
    {
      UIState(hooks, selectedHooks, screen, mainCursor, hookCursor, working, log)
    }

    ghost predicate Valid()
      reads this
    {
      Inv(State())
    }

    constructor ()
      ensures Valid() && State() == Initial()
    {
      RowsNonEmpty(InstallerCatalog);
      hooks := InstallerCatalog;
      selectedHooks, screen, mainCursor, hookCursor, working, log := {}, MainMenu, 0, 0, {}, [];
    }

    /** Handle one key read by `MenuCursor.readKey`; `ok` says which
        installation steps succeed. */
    method Step(key: Key, ok: InstallStep -> bool)
      requires Valid()
      modifies this
      ensures Valid()
      ensures State() == Next(old(State()), key, ok)
    {
      match screen
      case MainMenu => MainMenuKey(key, ok);
      case HookMenu => HookMenuKey(key, ok);
      case _ =>
        ghost var s := State();
        PromptKey(key, ok);
        NextAtPrompt(s, key, ok);
    }

    /** One key of `mainMenu`. */
    method MainMenuKey(key: Key, ok: InstallStep -> bool)
      requires Valid() && screen == MainMenu
      modifies this
      ensures Valid()
      ensures State() == Next(old(State()), key, ok)
    {
      if key == MenuCursor.Up {
        if mainCursor > 0 { mainCursor := mainCursor - 1; }
      } else if key == MenuCursor.Down {
        if mainCursor < MainOptionCount - 1 { mainCursor := mainCursor + 1; }
      } else if key == MenuCursor.Enter {
        if mainCursor == 0 {
          RowsNonEmpty(hooks);
          screen, hookCursor, working := HookMenu, 0, selectedHooks;
        } else if mainCursor == 1 {
          screen := if selectedHooks == {} then NothingSelected else ConfirmInstall;
        } else {
          screen := if selectedHooks == {} then Done else ConfirmExit;
        }
      } else if IsChar(key, '1') {
        mainCursor := 0;
      } else if IsChar(key, '2') {
        mainCursor := 1;
      } else if IsChar(key, '3') {
        mainCursor := 2;
      }
    }

    /** One key of `configureHooks`. */
    method HookMenuKey(key: Key, ok: InstallStep -> bool)
      requires Valid() && screen == HookMenu
      modifies this
      ensures Valid()
      ensures State() == Next(old(State()), key, ok)
    {
      var rows := HookMenuRows(hooks);
      if key == MenuCursor.Up {
        if hookCursor > 0 { hookCursor := hookCursor - 1; }
      } else if key == MenuCursor.Down {
        if hookCursor < |rows| - 1 { hookCursor := hookCursor + 1; }
      } else if key == MenuCursor.Space {
        var row := rows[hookCursor];
        if row.HookRow? {
          if row.hook.id in working {
            working := working - {row.hook.id};
          } else {
            working := working + {row.hook.id};
          }
        }
      } else if key == MenuCursor.Enter {
        selectedHooks := working;
        screen := MainMenu;
      } else if key == MenuCursor.Escape || IsChar(key, 'b') || IsChar(key, 'B') {
        screen := MainMenu;
      }
    }

    /** The answer to `installSelected`'s confirmation: yes runs the plan of
        the selection and logs the steps that ran. */
    method InstallKey(key: Key, ok: InstallStep -> bool)
      requires screen == ConfirmInstall
      modifies this
      ensures State() == PromptNext(old(State()), key, ok)
    {
      if IsYes(key) {
        var o := Steps.Run(InstallPlan(hooks, selectedHooks), ok);
        log := log + o.ran;
        screen := InstallFinished(o.success);
      } else if IsNo(key) {
        screen := MainMenu;
      }
    }

    /** One key at a prompt of `installSelected` or `confirmExit`. */
    method PromptKey(key: Key, ok: InstallStep -> bool)
      requires Valid() && screen != MainMenu && screen != HookMenu
      modifies this
      ensures State() == PromptNext(old(State()), key, ok)
    {
      match screen
      case NothingSelected =>
        if key == MenuCursor.Enter { screen := MainMenu; }
      case ConfirmInstall => InstallKey(key, ok);
      case InstallFinished(success) =>
        if key == MenuCursor.Enter { screen := if success then Done else MainMenu; }
      case ConfirmExit =>
        if IsYes(key) {
          screen := Done;
        } else if IsNo(key) {
          screen := MainMenu;
        }
      case Done =>
    }
  }

  // ---------------------------------------------------------------------------
  // Properties of the transitions

  /** Up and Down move the main cursor by at most one row, never wrap around,
      and leave everything else alone. */
  lemma MainMenuArrows(s: UIState, ok: InstallStep -> bool)
    requires Inv(s) && s.screen == MainMenu
    ensures var t := Next(s, MenuCursor.Up, ok);
      t == s.(mainCursor := t.mainCursor) && (s.mainCursor == 0 ==> t.mainCursor == 0) &&
      (s.mainCursor > 0 ==> t.mainCursor == s.mainCursor - 1)
    ensures var t := Next(s, MenuCursor.Down, ok);
      t == s.(mainCursor := t.mainCursor) && (s.mainCursor == MainOptionCount - 1 ==> t.mainCursor == s.mainCursor) &&
      (s.mainCursor < MainOptionCount - 1 ==> t.mainCursor == s.mainCursor + 1)
  {
  }

  /** The digits 1-3 jump to rows 0-2 without choosing them. */
  lemma MainMenuDigits(s: UIState, d: char, ok: InstallStep -> bool)
    requires Inv(s) && s.screen == MainMenu && '1' <= d <= '3'
    ensures Next(s, MenuCursor.Char(d), ok) == s.(mainCursor := d as int - '1' as int)
  {
  }

  /** Choosing "Configure Hooks" opens the hook menu on its first row, which is
      a group header, with a working copy of the selection. */
  lemma OpenHookMenu(s: UIState, ok: InstallStep -> bool)
    requires Inv(s) && s.screen == MainMenu && s.mainCursor == 0
    ensures var t := Next(s, MenuCursor.Enter, ok);
      t.screen == HookMenu && t.working == s.selected && t.selected == s.selected &&
      Rows(t)[t.hookCursor].Header?
  {
    RowsNonEmpty(s.hooks);
  }

  /** In the hook menu the cursor stays on the list, moves one row at a time,
      and does not skip group headers. */
  lemma HookMenuArrows(s: UIState, ok: InstallStep -> bool)
    requires Inv(s) && s.screen == HookMenu
    ensures var t := Next(s, MenuCursor.Up, ok);
      t == s.(hookCursor := t.hookCursor) &&
      t.hookCursor == (if s.hookCursor == 0 then 0 else s.hookCursor - 1)
    ensures var t := Next(s, MenuCursor.Down, ok);
      t == s.(hookCursor := t.hookCursor) &&
      t.hookCursor == (if s.hookCursor == |Rows(s)| - 1 then s.hookCursor else s.hookCursor + 1)
  {
  }

  /** Moving down from the last hook of a group lands on the next group's header. */
  lemma DownReachesHeader(s: UIState, ok: InstallStep -> bool)
    requires Inv(s) && s.screen == HookMenu
    requires s.hookCursor + 1 < |Rows(s)| && Rows(s)[s.hookCursor + 1].Header?
    ensures Rows(s)[Next(s, MenuCursor.Down, ok).hookCursor].Header?
  {
  }

  /** Space on a header changes nothing; on a hook it toggles that hook's id in
      the working copy only. */
  lemma SpaceToggles(s: UIState, ok: InstallStep -> bool)
    requires Inv(s) && s.screen == HookMenu
    ensures Rows(s)[s.hookCursor].Header? ==> Next(s, MenuCursor.Space, ok) == s
    ensures Rows(s)[s.hookCursor].HookRow? ==>
      var id := Rows(s)[s.hookCursor].hook.id;
      var t := Next(s, MenuCursor.Space, ok);
      t == s.(working := t.working) &&
      (id in t.working <==> id !in s.working) &&
      forall x :: x != id ==> (x in t.working <==> x in s.working)
  {
  }

  /** Two Spaces on the same row give the working copy back. */
  lemma SpaceTwiceRestores(s: UIState, ok: InstallStep -> bool)
    requires Inv(s) && s.screen == HookMenu
    ensures Next(Next(s, MenuCursor.Space, ok), MenuCursor.Space, ok) == s
  {
    var row := Rows(s)[s.hookCursor];
    if row.HookRow? {
      var id := row.hook.id;
      var t := Next(s, MenuCursor.Space, ok);
      assert Toggle(Toggle(s.working, id), id) == s.working;
    }
  }

  /** Enter commits the working copy; Esc, `b` and `B` discard it. Both return
      to the main menu. */
  lemma LeaveHookMenu(s: UIState, ok: InstallStep -> bool)
    requires Inv(s) && s.screen == HookMenu
    ensures Next(s, MenuCursor.Enter, ok).selected == s.working
    ensures Next(s, MenuCursor.Enter, ok).screen == MainMenu
    ensures forall k :: k in {MenuCursor.Escape, MenuCursor.Char('b'), MenuCursor.Char('B')} ==>
      Next(s, k, ok) == s.(screen := MainMenu)
  {
  }

  /** A toggle followed by Esc leaves the selection as it was before the menu. */
  lemma ToggleThenEscapeDiscards(s: UIState, ok: InstallStep -> bool)
    requires Inv(s) && s.screen == HookMenu
    ensures Next(Next(s, MenuCursor.Space, ok), MenuCursor.Escape, ok).selected == s.selected
  {
  }

  /** Installing with an empty selection only shows a warning; otherwise the
      user is asked to confirm. */
  lemma InstallNeedsSelection(s: UIState, ok: InstallStep -> bool)
    requires Inv(s) && s.screen == MainMenu && s.mainCursor == 1
    ensures s.selected == {} ==> Next(s, MenuCursor.Enter, ok) == s.(screen := NothingSelected)
    ensures s.selected != {} ==> Next(s, MenuCursor.Enter, ok) == s.(screen := ConfirmInstall)
    ensures Next(Next(s, MenuCursor.Enter, ok), MenuCursor.Enter, ok).log == s.log
  {
  }

  /** Confirming runs the plan until its first failing step; a success ends the
      menu after Enter, a failure goes back to it. Declining runs nothing. */
  lemma ConfirmInstallRuns(s: UIState, ok: InstallStep -> bool)
    requires Inv(s) && s.screen == ConfirmInstall
    ensures var t := Next(s, MenuCursor.Char('y'), ok);
      var o := Steps.Run(InstallPlan(s.hooks, s.selected), ok);
      t.log == s.log + o.ran && t.screen == InstallFinished(o.success) &&
      Next(t, MenuCursor.Enter, ok).screen == (if o.success then Done else MainMenu)
  {
    var o := Steps.Run(InstallPlan(s.hooks, s.selected), ok);
    FinishedThenEnter(s.(screen := InstallFinished(o.success), log := s.log + o.ran), ok);
  }

  /** Enter on the result of an installation leaves the menu after a success
      and goes back to it after a failure. */
  lemma FinishedThenEnter(t: UIState, ok: InstallStep -> bool)
    requires Inv(t) && t.screen.InstallFinished?
    ensures Next(t, MenuCursor.Enter, ok) == t.(screen := if t.screen.success then Done else MainMenu)
  {
  }

  /** Declining the installation runs nothing and goes back to the menu. */
  lemma DeclineInstall(s: UIState, ok: InstallStep -> bool)
    requires Inv(s) && s.screen == ConfirmInstall
    ensures Next(s, MenuCursor.Char('n'), ok) == s.(screen := MainMenu)
    ensures Next(s, MenuCursor.Char('N'), ok) == s.(screen := MainMenu)
  {
  }

  /** The plan: make sure the config exists, install scripts only when a local
      hook needs one, write the config, then run `pre-commit install`. */
  lemma InstallPlanShape(hooks: seq<HookGroup>, selected: set<string>)
    ensures InstallPlan(hooks, selected)[0] == CreateConfigIfNeeded
    ensures InstallPlan(hooks, selected)[|InstallPlan(hooks, selected)| - 2] == UpdateConfigFile(selected)
    ensures InstallPlan(hooks, selected)[|InstallPlan(hooks, selected)| - 1] == InstallHooks(true)
    ensures (exists id :: id in selected && IsLocalHook(hooks, id)) <==> |InstallPlan(hooks, selected)| == 4
  {
    var files := RequiredScriptFiles(hooks, selected);
    if exists id :: id in selected && IsLocalHook(hooks, id) {
      var id :| id in selected && IsLocalHook(hooks, id);
      assert LastPathComponent(ScriptPath(id)) in files;
    }
  }

  /** Leaving with nothing selected needs no confirmation. */
  lemma ExitFlow(s: UIState, ok: InstallStep -> bool)
    requires Inv(s) && s.screen == MainMenu && s.mainCursor == 2
    ensures s.selected == {} ==> Next(s, MenuCursor.Enter, ok).screen == Done
    ensures s.selected != {} ==>
      (Next(s, MenuCursor.Enter, ok).screen == ConfirmExit &&
       Next(Next(s, MenuCursor.Enter, ok), MenuCursor.Char('Y'), ok).screen == Done &&
       Next(Next(s, MenuCursor.Enter, ok), MenuCursor.Char('N'), ok).screen == MainMenu)
  {
  }

  /** Once the menu has returned, no key changes anything. */
  lemma DoneIsFinal(s: UIState, key: Key, ok: InstallStep -> bool)
    requires Inv(s) && s.screen == Done
    ensures Next(s, key, ok) == s
  {
  }

  /** The only transition that changes the selection is Enter in the hook menu. */
  lemma SelectionChangesOnlyOnCommit(s: UIState, key: Key, ok: InstallStep -> bool)
    requires Inv(s)
    requires !(s.screen == HookMenu && key == MenuCursor.Enter)
    ensures Next(s, key, ok).selected == s.selected
  {
  }
}
