/** `TerminalUIController` of the CLI: a state machine over main menu,
    template, hook and script sub-menus, a confirmation screen and the
    installation. Each `render…`/`handle…` round of the source reads one
    keystroke, so the model takes one keystroke per step. Sub-menus change the
    live selection sets directly. The installer service's calls are steps whose
    success the environment decides; when the service could not be created,
    every call is skipped (`installerService?.…` on nil). */
module UIController {
  import opened Text
  import opened Catalog
  import TerminalHandler
  import Steps

  type Keystroke = TerminalHandler.Keystroke

  datatype MenuState =
    | Main
    | HooksSelection
    | ScriptsSelection
    | TemplatesSelection
    | Confirmation
    | Installation
    | Exit

  /** A hook template found under `hooks-templates/` (only the fields the menu uses). */
  datatype Template = Template(name: string, directory: string, description: string)

  /** What the controller found at start-up: the templates, the script list of
      the downloaded repository, whether the installer service exists, and the
      hook groups `loadAvailableHooks` put in `availableHooks`. */
  datatype Env = Env(templates: seq<Template>, scripts: seq<(string, string)>, serviceAvailable: bool,
                     hooks: seq<HookGroup>)

  /** The calls `performInstallation` makes on the installer service. */
  datatype ServiceCall =
    | VerifyDependencies
    | SetupScripts(scripts: set<string>)
    | UpdateConfigFile(hookIds: set<string>)
    | UpdateConfigFileWithTemplates(templates: set<string>)
    | InstallHookTypes(types: seq<string>)

  /** The controller's fields. `notice` is the "Nothing Selected" warning of the
      main menu waiting for Enter. */
  datatype CState = CState(
    state: MenuState,
    index: int,                 // `currentSelectionIndex`
    hooks: set<string>,         // `selectedHooks`
    scripts: set<string>,       // `selectedScripts`
    templates: set<string>,     // `selectedTemplates`, by directory
    notice: bool,
    log: seq<ServiceCall>)      // installer-service calls made so far

  const MainItemCount := 5
  const CheckedBox := "[\U{2713}] "
  const EmptyBox := "[ ] "

  function HookRows(env: Env): seq<MenuRow> {
    HookMenuRows(env.hooks)
  }

  lemma HookRowsNonEmpty(env: Env)
    requires |env.hooks| > 0
    ensures |HookRows(env)| > 0
  {
    FirstRowIsHeader(env.hooks);
  }

  /** The rows of the scripts menu: two built-in rows when the repository
      listed no scripts, otherwise a check box and the file name per script. */
  function ScriptItems(env: Env, selected: set<string>): (items: seq<(string, string)>)
    ensures |items| == ScriptCount(env) > 0
    ensures |env.scripts| > 0 ==> |items| == |env.scripts|
  {
    if |env.scripts| == 0 then
      [("accessibility-check.sh", "Checks for accessibility implementation"),
       ("check-xcode-dangling-refs.sh", "Validates Xcode project settings")]
    else
      seq(|env.scripts|, i requires 0 <= i < |env.scripts| =>
        ((if env.scripts[i].0 in selected then CheckedBox else EmptyBox) + env.scripts[i].0, env.scripts[i].1))
  }

  /** How many rows the scripts menu has; the check boxes do not change it. */
  function ScriptCount(env: Env): nat {
    if |env.scripts| == 0 then 2 else |env.scripts|
  }

  /** The file name a Space on a script row toggles: the text after the first
      `"] "`, up to any later one, trimmed of spaces and tabs. */
  function ScriptNameOf(caption: string): Option<string> {
    var parts := SplitOn(caption, "] ");
    if |parts| > 1 then Some(TrimSpaces(parts[1])) else None
  }

  /** The selection after Space on the script row showing `caption`. */
  function ToggleNamed(selected: set<string>, caption: string): set<string> {
    match ScriptNameOf(caption)
    case Some(name) => Toggle(selected, name)
    case None => selected
  }

  /** The number of rows of the current sub-menu. */
  function ItemCount(env: Env, s: CState): nat {
    match s.state
    case Main => MainItemCount
    case TemplatesSelection => |env.templates|
    case ScriptsSelection => ScriptCount(env)
    case HooksSelection => |HookRows(env)|
    case _ => 1
  }

  predicate Inv(env: Env, s: CState) {
    |env.hooks| > 0 && 0 <= s.index &&
    (s.state == Main ==> s.index < MainItemCount) &&
    (s.state == TemplatesSelection && |env.templates| > 0 ==> s.index < |env.templates|) &&
    (s.state == ScriptsSelection ==> s.index < ScriptCount(env)) &&
    (s.state == HooksSelection ==> s.index < |HookRows(env)|)
  }

  function Initial(): CState {
    CState(Main, 0, {}, {}, {}, false, [])
  }

  function Toggle(s: set<string>, x: string): set<string> {
    if x in s then s - {x} else s + {x}
  }

  function Max(a: int, b: int): int { if a >= b then a else b }
  function Min(a: int, b: int): int { if a <= b then a else b }

  predicate IsBack(k: Keystroke) {
    k == TerminalHandler.Character('b') || k == TerminalHandler.Character('B') || k == TerminalHandler.Escape
  }

  /** `handleMainMenuInput`, and the wait of its "Nothing Selected" warning. */
  function MainInput(env: Env, s: CState, key: Keystroke): (t: CState)
    requires Inv(env, s) && s.state == Main
    ensures Inv(env, t)
  {
    if s.notice then
      if key == TerminalHandler.Enter then s.(notice := false) else s
    else if key == TerminalHandler.ArrowUp then s.(index := Max(0, s.index - 1))
    else if key == TerminalHandler.ArrowDown then s.(index := Min(MainItemCount - 1, s.index + 1))
    else if key == TerminalHandler.Enter then
      if s.index == 0 then s.(state := TemplatesSelection, index := 0)
      else if s.index == 1 then s.(state := HooksSelection, index := 0)
      else if s.index == 2 then s.(state := ScriptsSelection, index := 0)
      else if s.index == 3 then
        if s.templates == {} && s.hooks == {} && s.scripts == {} then s.(notice := true)
        else s.(state := Confirmation)
      else if s.index == 4 then s.(state := Exit)
      else s
    else if key == TerminalHandler.Character('q') || key == TerminalHandler.Character('Q') then
      s.(state := Exit)
    else s
  }

  /** `renderHooksSelectionMenu` + `handleHookTemplatesMenuInput`. With no
      templates the screen only waits for Enter. */
  function TemplatesInput(env: Env, s: CState, key: Keystroke): (t: CState)
    requires Inv(env, s) && s.state == TemplatesSelection
    ensures Inv(env, t)
  {
    var count := |env.templates|;
    if count == 0 then
      if key == TerminalHandler.Enter then s.(state := Main, index := 0) else s
    else if key == TerminalHandler.ArrowUp then s.(index := Max(0, s.index - 1))
    else if key == TerminalHandler.ArrowDown then s.(index := Min(count - 1, s.index + 1))
    else if key == TerminalHandler.Space then
      if 0 <= s.index < count then s.(templates := Toggle(s.templates, env.templates[s.index].directory))
      else s
    else if key == TerminalHandler.Enter || IsBack(key) then s.(state := Main, index := 0)
    else s
  }

  /** `renderScriptsSelectionMenu` + `handleScriptsMenuInput`: the render
      resets an out-of-range cursor to 0 before the key is handled. */
  function ScriptsInput(env: Env, s: CState, key: Keystroke): (t: CState)
    requires s.index >= 0 && s.state == ScriptsSelection
    ensures (t.state == Main && t.index == 0) ||
      (t.state == ScriptsSelection && 0 <= t.index < ScriptCount(env))
  {
    var items := ScriptItems(env, s.scripts);
    var i := if s.index >= |items| then 0 else s.index;
    if key == TerminalHandler.ArrowUp then s.(index := Max(0, i - 1))
    else if key == TerminalHandler.ArrowDown then s.(index := Min(|items| - 1, i + 1))
    else if key == TerminalHandler.Space then
      s.(index := i, scripts := ToggleNamed(s.scripts, items[i].0))
    else if key == TerminalHandler.Enter || IsBack(key) then s.(state := Main, index := 0)
    else s.(index := i)
  }

  /** `renderHooksMenu` + `handleHooksMenuInput`. */
  function HooksInput(env: Env, s: CState, key: Keystroke): (t: CState)
    requires |env.hooks| > 0 && s.index >= 0 && s.state == HooksSelection
    ensures (t.state == Main && t.index == 0) || (t.state == HooksSelection && 0 <= t.index < |HookRows(env)|)
  {
    var rows := HookRows(env);
    HookRowsNonEmpty(env);
    var i := if s.index >= |rows| then 0 else s.index;
    if key == TerminalHandler.ArrowUp then s.(index := Max(0, i - 1))
    else if key == TerminalHandler.ArrowDown then s.(index := Min(|rows| - 1, i + 1))
    else if key == TerminalHandler.Space then
      if rows[i].HookRow? then s.(index := i, hooks := Toggle(s.hooks, rows[i].hook.id))
      else s.(index := i)
    else if key == TerminalHandler.Enter || IsBack(key) then s.(state := Main, index := 0)
    else s.(index := i)
  }

  /** The calls `performInstallation` makes, in order, when the service exists. */
  function InstallPlan(s: CState): seq<ServiceCall> {
    [VerifyDependencies] +
    (if s.scripts != {} then [SetupScripts(s.scripts)] else []) +
    (if s.hooks != {} then [UpdateConfigFile(s.hooks)] else []) +
    (if s.templates != {} then [UpdateConfigFileWithTemplates(s.templates)] else []) +
    [InstallHookTypes(["pre-commit", "pre-push"])]
  }

  /** `performInstallation` up to its wait for Enter. */
  function Install(env: Env, s: CState, ok: ServiceCall -> bool): CState {
    var ran := if env.serviceAvailable then Steps.Run(InstallPlan(s), ok).ran else [];
    s.(state := Installation, log := s.log + ran)
  }

  /** `renderConfirmationScreen`'s wait for 1, 2 or 3. */
  function ConfirmationInput(env: Env, s: CState, key: Keystroke, ok: ServiceCall -> bool): (t: CState)
    requires Inv(env, s) && s.state == Confirmation
    ensures Inv(env, t)
  {
    if key == TerminalHandler.Character('1') then Install(env, s, ok)
    else if key == TerminalHandler.Character('2') then s.(state := Main, index := 0)
    else if key == TerminalHandler.Character('3') then s.(state := Exit)
    else s
  }

  /** One keystroke. */
  function Next(env: Env, s: CState, key: Keystroke, ok: ServiceCall -> bool): (t: CState)
    requires Inv(env, s)
    ensures Inv(env, t)
  {
    match s.state
    case Main => MainInput(env, s, key)
    case TemplatesSelection => TemplatesInput(env, s, key)
    case ScriptsSelection => ScriptsInput(env, s, key)
    case HooksSelection => HooksInput(env, s, key)
    case Confirmation => ConfirmationInput(env, s, key, ok)
    case Installation => if key == TerminalHandler.Enter then s.(state := Exit) else s
    case Exit => s
  }

  /** The controller object; each method is one of the source's handlers. */
  class Controller {
    const env: Env
    var currentState: MenuState
    var currentSelectionIndex: int
    var selectedHooks: set<string>
    var selectedScripts: set<string>
    var selectedTemplates: set<string>
    var notice: bool
    var log: seq<ServiceCall>

    function State(): CState
      reads this
    {
      CState(currentState, currentSelectionIndex, selectedHooks, selectedScripts, selectedTemplates, notice, log)
    }

    ghost predicate Valid()
      reads this
    {
      Inv(env, State())
    }

    /** The controller after `loadAvailableHooks`: the hook list is always
        the built-in one. */
    constructor (templates: seq<Template>, scripts: seq<(string, string)>, serviceAvailable: bool)
      ensures env == Env(templates, scripts, serviceAvailable, ControllerCatalog)
      ensures State() == Initial() && Valid()
    {
      env := Env(templates, scripts, serviceAvailable, ControllerCatalog);
      currentState, currentSelectionIndex := Main, 0;
      selectedHooks, selectedScripts, selectedTemplates := {}, {}, {};
      notice, log := false, [];
    }

    method HandleMainMenuInput(key: Keystroke)
      requires Valid() && currentState == Main
      modifies this
      ensures State() == MainInput(env, old(State()), key)
    {
      if notice {
        if key == TerminalHandler.Enter { notice := false; }
      } else if key == TerminalHandler.ArrowUp {
        currentSelectionIndex := Max(0, currentSelectionIndex - 1);
      } else if key == TerminalHandler.ArrowDown {
        currentSelectionIndex := Min(MainItemCount - 1, currentSelectionIndex + 1);
      } else if key == TerminalHandler.Enter {
        if currentSelectionIndex == 0 {
          currentState, currentSelectionIndex := TemplatesSelection, 0;
        } else if currentSelectionIndex == 1 {
          currentState, currentSelectionIndex := HooksSelection, 0;
        } else if currentSelectionIndex == 2 {
          currentState, currentSelectionIndex := ScriptsSelection, 0;
        } else if currentSelectionIndex == 3 {
          if selectedTemplates == {} && selectedHooks == {} && selectedScripts == {} {
            notice := true;
          } else {
            currentState := Confirmation;
          }
        } else if currentSelectionIndex == 4 {
          currentState := Exit;
        }
      } else if key == TerminalHandler.Character('q') || key == TerminalHandler.Character('Q') {
        currentState := Exit;
      }
    }

    method HandleHookTemplatesMenuInput(key: Keystroke)
      requires Valid() && currentState == TemplatesSelection
      modifies this
      ensures State() == TemplatesInput(env, old(State()), key)
    {
      var count := |env.templates|;
      if count == 0 {
        if key == TerminalHandler.Enter {
          currentState, currentSelectionIndex := Main, 0;
        }
      } else if key == TerminalHandler.ArrowUp {
        currentSelectionIndex := Max(0, currentSelectionIndex - 1);
      } else if key == TerminalHandler.ArrowDown {
        currentSelectionIndex := Min(count - 1, currentSelectionIndex + 1);
      } else if key == TerminalHandler.Space {
        if 0 <= currentSelectionIndex < count {
          var dir := env.templates[currentSelectionIndex].directory;
          if dir in selectedTemplates {
            selectedTemplates := selectedTemplates - {dir};
          } else {
            selectedTemplates := selectedTemplates + {dir};
          }
        }
      } else if key == TerminalHandler.Enter || IsBack(key) {
        currentState, currentSelectionIndex := Main, 0;
      }
    }

    /** The Space branch of `handleScriptsMenuInput`. */
    static method ToggleScript(selected: set<string>, caption: string) returns (r: set<string>)
      ensures r == ToggleNamed(selected, caption)
    {
      r := selected;
      var parts := SplitOn(caption, "] ");
      if |parts| > 1 {
        var filename := TrimSpaces(parts[1]);
        if filename in r {
          r := r - {filename};
        } else {
          r := r + {filename};
        }
      }
    }

    method HandleScriptsMenuInput(key: Keystroke)
      requires currentState == ScriptsSelection && currentSelectionIndex >= 0
      modifies this
      ensures State() == ScriptsInput(env, old(State()), key)
    {
      ghost var s := State();
      var items := ScriptItems(env, selectedScripts);
      if currentSelectionIndex >= |items| {
        currentSelectionIndex := 0;
      }
      assert State() == s.(index := currentSelectionIndex);
      if key == TerminalHandler.ArrowUp {
        currentSelectionIndex := Max(0, currentSelectionIndex - 1);
      } else if key == TerminalHandler.ArrowDown {
        currentSelectionIndex := Min(|items| - 1, currentSelectionIndex + 1);
      } else if key == TerminalHandler.Space {
        selectedScripts := ToggleScript(selectedScripts, items[currentSelectionIndex].0);
      } else if key == TerminalHandler.Enter || IsBack(key) {
        currentState, currentSelectionIndex := Main, 0;
      }
    }

    method HandleHooksMenuInput(key: Keystroke)
      requires |env.hooks| > 0 && currentState == HooksSelection && currentSelectionIndex >= 0
      modifies this
      ensures State() == HooksInput(env, old(State()), key)
    {
      var rows := HookRows(env);
      HookRowsNonEmpty(env);
      if currentSelectionIndex >= |rows| {
        currentSelectionIndex := 0;
      }
      if key == TerminalHandler.ArrowUp {
        currentSelectionIndex := Max(0, currentSelectionIndex - 1);
      } else if key == TerminalHandler.ArrowDown {
        currentSelectionIndex := Min(|rows| - 1, currentSelectionIndex + 1);
      } else if key == TerminalHandler.Space {
        var row := rows[currentSelectionIndex];
        if row.HookRow? {
          if row.hook.id in selectedHooks {
            selectedHooks := selectedHooks - {row.hook.id};
          } else {
            selectedHooks := selectedHooks + {row.hook.id};
          }
        }
      } else if key == TerminalHandler.Enter || IsBack(key) {
        currentState, currentSelectionIndex := Main, 0;
      }
    }

    /** `performInstallation` up to its wait for Enter: each service call in
        order, the first failure ending the sequence. */
    method PerformInstallation(ok: ServiceCall -> bool)
      requires Valid() && currentState == Confirmation
      modifies this
      ensures State() == Install(env, old(State()), ok)
    {
      var plan := InstallPlan(State());
      currentState := Installation;
      if env.serviceAvailable {
        var o := Steps.Run(plan, ok);
        log := log + o.ran;
      }
    }

    /** The confirmation screen's wait for 1, 2 or 3. */
    method HandleConfirmationInput(key: Keystroke, ok: ServiceCall -> bool)
      requires Valid() && currentState == Confirmation
      modifies this
      ensures State() == ConfirmationInput(env, old(State()), key, ok)
    {
      if key == TerminalHandler.Character('1') {
        PerformInstallation(ok);
      } else if key == TerminalHandler.Character('2') {
        currentState, currentSelectionIndex := Main, 0;
      } else if key == TerminalHandler.Character('3') {
        currentState := Exit;
      }
    }

    method Step(key: Keystroke, ok: ServiceCall -> bool)
      requires Valid()
      modifies this
      ensures Valid()
      ensures State() == Next(env, old(State()), key, ok)
    {
      ghost var s0 := State();
      ghost var s1 := Next(env, s0, key, ok);
      match currentState {
        case Main => HandleMainMenuInput(key);
        case TemplatesSelection => HandleHookTemplatesMenuInput(key);
        case ScriptsSelection => HandleScriptsMenuInput(key);
        case HooksSelection => HandleHooksMenuInput(key);
        case Confirmation => HandleConfirmationInput(key, ok);
        case Installation =>
          if key == TerminalHandler.Enter { currentState := Exit; }
        case Exit =>
      }
      assert State() == s1;
    }
  }

  // ---------------------------------------------------------------------------
  // Properties

  /** Up and Down keep the main-menu cursor on its five rows. */
  lemma MainArrowsClamp(env: Env, s: CState, ok: ServiceCall -> bool)
    requires Inv(env, s) && s.state == Main && !s.notice
    ensures var t := Next(env, s, TerminalHandler.ArrowUp, ok);
      t == s.(index := t.index) && 0 <= t.index <= 4 && t.index == (if s.index == 0 then 0 else s.index - 1)
    ensures var t := Next(env, s, TerminalHandler.ArrowDown, ok);
      t == s.(index := t.index) && 0 <= t.index <= 4 && t.index == (if s.index == 4 then 4 else s.index + 1)
  {
  }

  /** Enter on rows 0-2 opens the template, hook or script menu on its first
      row; row 4 and `q`/`Q` exit. */
  lemma MainEnterOpensMenus(env: Env, s: CState, ok: ServiceCall -> bool)
    requires Inv(env, s) && s.state == Main && !s.notice
    ensures s.index == 0 ==> Next(env, s, TerminalHandler.Enter, ok) == s.(state := TemplatesSelection, index := 0)
    ensures s.index == 1 ==> Next(env, s, TerminalHandler.Enter, ok) == s.(state := HooksSelection, index := 0)
    ensures s.index == 2 ==> Next(env, s, TerminalHandler.Enter, ok) == s.(state := ScriptsSelection, index := 0)
    ensures s.index == 4 ==> Next(env, s, TerminalHandler.Enter, ok) == s.(state := Exit)
    ensures Next(env, s, TerminalHandler.Character('q'), ok) == s.(state := Exit)
    ensures Next(env, s, TerminalHandler.Character('Q'), ok) == s.(state := Exit)
  {
  }

  /** "Install Selected Items" with nothing selected shows a warning and, after
      Enter, the main menu again with the cursor where it was; otherwise it
      opens the confirmation. */
  lemma InstallRow(env: Env, s: CState, ok: ServiceCall -> bool)
    requires Inv(env, s) && s.state == Main && !s.notice && s.index == 3
    ensures var nothing := s.templates == {} && s.hooks == {} && s.scripts == {};
      var t := Next(env, s, TerminalHandler.Enter, ok);
      (nothing ==> t.state == Main && Next(env, t, TerminalHandler.Enter, ok) == s) &&
      (!nothing ==> t == s.(state := Confirmation))
  {
  }

  /** In the confirmation, 1 installs, 2 returns to the main menu on row 0, 3
      exits; every other key is ignored. */
  lemma ConfirmationKeys(env: Env, s: CState, key: Keystroke, ok: ServiceCall -> bool)
    requires Inv(env, s) && s.state == Confirmation
    ensures key == TerminalHandler.Character('1') ==> Next(env, s, key, ok).state == Installation
    ensures key == TerminalHandler.Character('2') ==> Next(env, s, key, ok) == s.(state := Main, index := 0)
    ensures key == TerminalHandler.Character('3') ==> Next(env, s, key, ok) == s.(state := Exit)
    ensures key !in {TerminalHandler.Character('1'), TerminalHandler.Character('2'), TerminalHandler.Character('3')} ==>
      Next(env, s, key, ok) == s
  {
  }

  /** Space on a template row toggles that template's directory; two Spaces
      restore the selection. */
  lemma TemplateSpaceToggles(env: Env, s: CState, ok: ServiceCall -> bool)
    requires Inv(env, s) && s.state == TemplatesSelection && |env.templates| > 0
    ensures var t := Next(env, s, TerminalHandler.Space, ok);
      var dir := env.templates[s.index].directory;
      t == s.(templates := t.templates) && (dir in t.templates <==> dir !in s.templates) &&
      (forall d :: d != dir ==> (d in t.templates <==> d in s.templates))
    ensures Next(env, Next(env, s, TerminalHandler.Space, ok), TerminalHandler.Space, ok) == s
  {
    var dir := env.templates[s.index].directory;
    assert Toggle(Toggle(s.templates, dir), dir) == s.templates;
  }

  /** Space on a hook row toggles its id and on a header does nothing; two
      Spaces restore the selection. */
  lemma HookSpaceToggles(env: Env, s: CState, ok: ServiceCall -> bool)
    requires Inv(env, s) && s.state == HooksSelection
    ensures HookRows(env)[s.index].Header? ==> Next(env, s, TerminalHandler.Space, ok) == s
    ensures HookRows(env)[s.index].HookRow? ==>
      var id := HookRows(env)[s.index].hook.id;
      var t := Next(env, s, TerminalHandler.Space, ok);
      t == s.(hooks := t.hooks) && (id in t.hooks <==> id !in s.hooks) &&
      (forall d :: d != id ==> (d in t.hooks <==> d in s.hooks))
    ensures Next(env, Next(env, s, TerminalHandler.Space, ok), TerminalHandler.Space, ok) == s
  {
    HookRowsNonEmpty(env);
    var row := HookRows(env)[s.index];
    if row.HookRow? {
      assert Toggle(Toggle(s.hooks, row.hook.id), row.hook.id) == s.hooks;
    }
  }

  /** A script row's caption gives back the file name, for names without `"] "`
      and without surrounding blanks. */
  lemma ScriptLabelRoundTrip(box: string, name: string)
    requires box == CheckedBox || box == EmptyBox
    requires !Contains(name, "] ")
    requires |name| > 0 ==> !IsHorizontalSpace(name[0]) && !IsHorizontalSpace(name[|name| - 1])
    ensures ScriptNameOf(box + name) == Some(name)
  {
    var caption := box + name;
    assert caption[0] == '[' && caption[1] != ']' && caption[2] == ']' && caption[3] == ' ';
    assert OccursAt(caption, "] ", 2);
    assert !OccursAt(caption, "] ", 0) by { assert caption[0..2][0] == '['; }
    assert !OccursAt(caption, "] ", 1) by { assert caption[1..3][0] != ']'; }
    IndexOfFirst(caption, "] ", 2);
    assert caption[4..] == name;
    SplitOnAbsent(name, "] ");
    TrimSpacesUnchanged(name);
  }

  /** Space on the scripts menu toggles the name its current row shows, and
      nothing else. */
  lemma SpaceOnScripts(env: Env, s: CState, ok: ServiceCall -> bool)
    requires Inv(env, s) && s.state == ScriptsSelection
    ensures Next(env, s, TerminalHandler.Space, ok) ==
      s.(scripts := ToggleNamed(s.scripts, ScriptItems(env, s.scripts)[s.index].0))
  {
    assert Next(env, s, TerminalHandler.Space, ok) == ScriptsInput(env, s, TerminalHandler.Space);
  }

  /** The built-in rows shown when the repository listed no scripts cannot be
      selected. */
  lemma FallbackScriptsNotSelectable(env: Env, s: CState, ok: ServiceCall -> bool)
    requires Inv(env, s) && s.state == ScriptsSelection && |env.scripts| == 0
    ensures Next(env, s, TerminalHandler.Space, ok) == s
  {
    SpaceOnScripts(env, s, ok);
    FallbackCaptionNamesNothing(s.scripts, ScriptItems(env, s.scripts)[s.index].0);
  }

  lemma FallbackCaptionNamesNothing(selected: set<string>, caption: string)
    requires caption == "accessibility-check.sh" || caption == "check-xcode-dangling-refs.sh"
    ensures ToggleNamed(selected, caption) == selected
  {
    FallbackCaptionsPlain();
    SplitOnAbsent(caption, "] ");
  }

  lemma NoCloseBracket(t: string)
    requires forall i :: 0 <= i < |t| ==> t[i] != ']'
    ensures !Contains(t, "] ")
  {
    forall i | 0 <= i <= |t| ensures !OccursAt(t, "] ", i) {
      if i + 2 <= |t| {
        assert t[i..i + 2][0] == t[i];
      }
    }
  }

  lemma FallbackCaptionsPlain()
    ensures !Contains("accessibility-check.sh", "] ")
    ensures !Contains("check-xcode-dangling-refs.sh", "] ")
  {
    var a := "accessibility-check.sh";
    var b := "check-xcode-dangling-refs.sh";
    assert forall i :: 0 <= i < |a| ==> a[i] != ']';
    NoCloseBracket(a);
    assert forall i :: 0 <= i < |b| ==> b[i] != ']';
    NoCloseBracket(b);
  }

  /** Space on a listed script toggles that script's file name; two Spaces
      restore the selection. */
  lemma ScriptSpaceToggles(env: Env, s: CState, ok: ServiceCall -> bool)
    requires Inv(env, s) && s.state == ScriptsSelection && |env.scripts| > 0
    requires var name := env.scripts[s.index].0;
      !Contains(name, "] ") &&
      (|name| > 0 ==> !IsHorizontalSpace(name[0]) && !IsHorizontalSpace(name[|name| - 1]))
    ensures var name := env.scripts[s.index].0;
      var t := Next(env, s, TerminalHandler.Space, ok);
      t == s.(scripts := t.scripts) && (name in t.scripts <==> name !in s.scripts) &&
      (forall d :: d != name ==> (d in t.scripts <==> d in s.scripts))
    ensures Next(env, Next(env, s, TerminalHandler.Space, ok), TerminalHandler.Space, ok) == s
  {
    var name := env.scripts[s.index].0;
    SpaceOnScripts(env, s, ok);
    ScriptToggleAt(env, s.scripts, s.index);
    var t := s.(scripts := Toggle(s.scripts, name));
    assert Next(env, s, TerminalHandler.Space, ok) == t;
    SpaceOnScripts(env, t, ok);
    ScriptToggleAt(env, t.scripts, s.index);
    assert Toggle(Toggle(s.scripts, name), name) == s.scripts;
  }

  /** Space on a listed script's row toggles that script's name. */
  lemma ScriptToggleAt(env: Env, selected: set<string>, i: nat)
    requires i < |env.scripts|
    requires var name := env.scripts[i].0;
      !Contains(name, "] ") &&
      (|name| > 0 ==> !IsHorizontalSpace(name[0]) && !IsHorizontalSpace(name[|name| - 1]))
    ensures ToggleNamed(selected, ScriptItems(env, selected)[i].0) == Toggle(selected, env.scripts[i].0)
  {
    var name := env.scripts[i].0;
    var box := if name in selected then CheckedBox else EmptyBox;
    assert ScriptItems(env, selected)[i].0 == box + name;
    ScriptLabelRoundTrip(box, name);
  }

  /** Enter, Esc, `b` and `B` leave any sub-menu for the main menu on row 0 and
      keep every toggle made there. */
  lemma SubMenusKeepToggles(env: Env, s: CState, key: Keystroke, ok: ServiceCall -> bool)
    requires Inv(env, s)
    requires s.state in {HooksSelection, ScriptsSelection} ||
      (s.state == TemplatesSelection && |env.templates| > 0)
    requires key == TerminalHandler.Enter || IsBack(key)
    ensures Next(env, s, key, ok) == s.(state := Main, index := 0)
  {
  }

  /** Up and Down keep a sub-menu's cursor on its rows, without wrapping. */
  lemma SubMenuArrowsClamp(env: Env, s: CState, key: Keystroke, ok: ServiceCall -> bool)
    requires Inv(env, s) && s.state in {HooksSelection, ScriptsSelection, TemplatesSelection}
    requires ItemCount(env, s) > 0
    requires key == TerminalHandler.ArrowUp || key == TerminalHandler.ArrowDown
    ensures var t := Next(env, s, key, ok);
      t == s.(index := t.index) && 0 <= t.index < ItemCount(env, s) &&
      (key == TerminalHandler.ArrowUp ==> t.index == Max(0, s.index - 1)) &&
      (key == TerminalHandler.ArrowDown ==> t.index == Min(ItemCount(env, s) - 1, s.index + 1))
  {
    HookRowsNonEmpty(env);
  }

  /** A cursor past the end of the script or hook list is put back on row 0
      before the key is handled. */
  lemma RenderResetsCursor(env: Env, s: CState, ok: ServiceCall -> bool)
    requires |env.hooks| > 0 && s.state in {HooksSelection, ScriptsSelection} && s.index >= ItemCount(env, s)
    ensures s.state == ScriptsSelection ==> ScriptsInput(env, s, TerminalHandler.Tab).index == 0
    ensures s.state == HooksSelection ==> HooksInput(env, s, TerminalHandler.Tab).index == 0
  {
    HookRowsNonEmpty(env);
  }

  /** The installation calls verify, scripts (if any), hooks (if any),
      templates (if any) and `pre-commit`/`pre-push` install in this order, stops
      at the first failure, and Enter then always exits. */
  lemma InstallationOrder(env: Env, s: CState, ok: ServiceCall -> bool)
    requires Inv(env, s) && s.state == Confirmation
    ensures var t := Next(env, s, TerminalHandler.Character('1'), ok);
      t.state == Installation &&
      t == s.(state := Installation, log := t.log) &&
      (env.serviceAvailable ==> t.log == s.log + Steps.Run(InstallPlan(s), ok).ran) &&
      (!env.serviceAvailable ==> t.log == s.log) &&
      Next(env, t, TerminalHandler.Enter, ok).state == Exit
    ensures InstallPlan(s)[0] == VerifyDependencies
    ensures InstallPlan(s)[|InstallPlan(s)| - 1] == InstallHookTypes(["pre-commit", "pre-push"])
    ensures |InstallPlan(s)| == 2 + (if s.scripts != {} then 1 else 0) + (if s.hooks != {} then 1 else 0) +
      (if s.templates != {} then 1 else 0)
  {
  }

  /** A failing call skips every later one. */
  lemma InstallationStopsAtFailure(env: Env, s: CState, ok: ServiceCall -> bool, k: nat)
    requires Inv(env, s) && s.state == Confirmation && env.serviceAvailable
    requires k < |InstallPlan(s)| && !ok(InstallPlan(s)[k])
    requires forall i :: 0 <= i < k ==> ok(InstallPlan(s)[i])
    ensures Next(env, s, TerminalHandler.Character('1'), ok).log == s.log + InstallPlan(s)[..k + 1]
  {
    Steps.RunStopsAtFirstFailure(InstallPlan(s), ok, k);
  }
}
