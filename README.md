# iOS pre-commit hook installer, modelled in Dafny

The system is an interactive terminal tool for iOS projects. The user picks
pre-commit hooks from a built-in catalog in a full-screen menu. The tool then
writes `.pre-commit-config.yaml`, copies the helper shell scripts the chosen
local hooks need, and runs `pre-commit install`. The repository holds two
front ends and a family of repair utilities:

- `install.swift`, a single-file installer. `MenuCursor.readKey` decodes
  keystrokes, `mainMenu` and `configureHooks` are the menu loops,
  `installSelected` runs the installation, and `updateConfigFile` rebuilds the
  config file.
- The packaged front end: `TerminalHandler` puts the terminal in raw mode and
  decodes keystrokes, and `TerminalUIController` is a state machine over the
  main menu, the template, hook and script menus, the confirmation screen
  and the installation.
- Repair utilities that merge hook templates into the config below the
  "managed hooks" marker: `MultipleTemplatesFix`, `DirectAppendFix`,
  `FullYAMLPatchInstaller`, `install-fix.swift` and the `test-*.swift`
  scripts.
- Source patchers, `install-patched.swift` and `install-full-patch.swift`,
  that locate a method in the installer's Swift source by brace counting and
  replace it with a stub.
- The value objects `TemplateName` and `TemplateContent`.

One Dafny module models each component:

| module | file | models |
|---|---|---|
| `Text` | `text.dfy` | the Foundation string operations the source relies on: `range(of:)`, `components(separatedBy:)`, `joined`, trimming |
| `Ordering` | `ordering.dfy` | Swift's `<` on strings, `sorted()` of a set, `sorted(by:)` on a key |
| `Steps` | `steps.dfy` | a `do { try …; try … } catch` block: the steps run in order up to the first that throws |
| `MenuCursor` | `menu_cursor.dfy` | `MenuCursor.readKey` of `install.swift` |
| `TerminalHandler` | `terminal_handler.dfy` | `TerminalHandler.swift`: raw mode, restore, `readKeystroke` |
| `Catalog` | `catalog.dfy` | the built-in hook catalogs, the hook menu's rows, the script paths of local hooks |
| `InstallerUI` | `installer_ui.dfy` | `mainMenu`, `configureHooks`, `installSelected`, `confirmExit` of `install.swift` |
| `StandardConfig` | `standard_config.dfy` | the standard header and defaults written at the top of the config |
| `ConfigText` | `config_text.dfy` | the marker and line helpers shared by the repair utilities |
| `InstallerConfig` | `installer_config.dfy` | `updateConfigFile` and `createConfigFileIfNeeded` of `install.swift` |
| `ScriptTemplates` | `script_templates.dfy` | `getAvailableTemplates` and `getTemplateDescription` of `install.swift` |
| `UIController` | `ui_controller.dfy` | `TerminalUIController.swift` |
| `MultipleTemplatesFix` | `multiple_templates_fix.dfy` | `Sources/Utils/MultipleTemplatesFix.swift` |
| `DirectAppendFix` | `direct_append_fix.dfy` | `Sources/Utils/DirectAppendFix.swift` |
| `FullYamlPatch` | `full_yaml_patch.dfy` | `Sources/Utils/FullYAMLPatchInstaller.swift` |
| `InstallFix` | `install_fix.dfy` | `install-fix.swift` |
| `TestCompleteFix`, `TestDirectAppend`, `TestMultipleTemplates`, `TestTemplateFix` | `test_*.dfy` | the config-merging parts of the `test-*.swift` scripts |
| `SourcePatch` | `source_patch.dfy` | `install-patched.swift` and `install-full-patch.swift` |
| `TemplateValues` | `template_values.dfy` | `TemplateName` and `TemplateContent` |

Conventions used throughout:

- Strings are sequences of characters, and lines are the pieces between
  `'\n'` characters.
- Every file the source reads is a parameter. A file that may be missing is
  an `Option<string>`, and a directory is a map from file name to content.
- A yes/no question to the user is a `bool` parameter.
- Each call that can throw (writing a file, running `pre-commit`) is decided
  by an `ok` predicate over the calls. The model records which calls ran.
- A menu loop that blocks in `read` is modelled one keystroke at a time.
  Each loop is a class whose `Step` method is proved equal to a pure
  transition function. The lemmas about menu behaviour are stated over that
  function.
- A loop that builds text is a `method` with a `while` loop, proved equal to
  a specification function. The properties are lemmas about that function.

## Model

| member | source | states |
|---|---|---|
| MenuCursor.ReadKey | install.swift:1036-1118 | A failed or empty read gives no key. A read starting with ESC always gives a key. Otherwise there is a key exactly when the first byte is Backspace, Tab, LF, CR, Space, Delete or printable ASCII. |
| MenuCursor.KeyBytes | install.swift:1057-1117 | Every key has a byte sequence of one to four bytes that a terminal sends for it. |
| MenuCursor.ReadKeyRoundTrip | install.swift:1036-1118 | Every key with a printable character decodes from the bytes its terminal sends: a round trip through `KeyBytes`. |
| MenuCursor.ReadKeyFirstByteOnly | install.swift:1100-1117 | Without a leading ESC, only the first byte matters: bytes after it are ignored. |
| MenuCursor.ReadKeyControlBytes | install.swift:1100-1117 | LF and CR are Enter, BS and DEL are Backspace, 32 is Space, 9 is Tab, and a printable byte is that character, whatever follows. |
| MenuCursor.ReadKeyUnknownEscape | install.swift:1057-1097 | ESC that is followed by fewer than two more bytes, or by neither `[` nor `O`, is the Escape key. |
| MenuCursor.ReadKeyEscapeTable | install.swift:1057-1097 | For every read starting with ESC: `ESC [ A/B/C/D/H/F` are Up, Down, Right, Left, Home and End. `ESC [ 1/3/4/5/6 ~` are Home, Delete, End, PageUp and PageDown. `ESC O P/Q` are F1 and F2. Every other read starting with ESC is the Escape key, including `ESC [` or `ESC O` followed by an unknown byte. |
| MenuCursor.ReadKeyReadsAtMostFour | install.swift:1036-1118 | Two buffers that agree on the bytes read, up to the fourth, decode to the same key. Later bytes are ignored. |
| MenuCursor.ReadKeyTildeNeedsFourBytes | install.swift:1066-1078 | `ESC [ 1/3/4/5/6` read as three bytes, without its `~`, is the Escape key, not Home, Delete, End or a page key. |
| TerminalHandler.ReadKeystroke | Sources/Utils/TerminalHandler.swift:55-108 | A failed or empty read gives nothing, and a one-byte read always gives a keystroke. A longer read gives one exactly when it has at least three bytes and starts `ESC [`. An `other` code is a byte value. |
| TerminalHandler.KeystrokeBytes | Sources/Utils/TerminalHandler.swift:64-105 | Every keystroke the decoder can report has one to three bytes that produce it. |
| TerminalHandler.ReadKeystrokeRoundTrip | Sources/Utils/TerminalHandler.swift:55-108 | Every keystroke the decoder can report decodes from its bytes. |
| TerminalHandler.SingleByteCases | Sources/Utils/TerminalHandler.swift:64-89 | CR is Enter, ESC is Escape, DEL is Backspace, `q` and `b` are those characters, printable ASCII is a character, and BS and LF are `other`. |
| TerminalHandler.UnknownCsiIsOther | Sources/Utils/TerminalHandler.swift:92-105 | `ESC [` followed by anything but A-D is `other` carrying the third byte. |
| TerminalHandler.LineFeedDisagrees | Sources/Utils/TerminalHandler.swift:64-87 | A line feed is Enter for the script's `readKey` but `other(10)` for `readKeystroke`, so Enter from a terminal that sends LF is not recognised by the packaged menus. |
| TerminalHandler.UnknownEscapeDisagrees | Sources/Utils/TerminalHandler.swift:91-107 | `ESC x` and `ESC O P` are Escape and F1 for `readKey` but no keystroke for `readKeystroke`. |
| TerminalHandler.TwoCharactersDisagree | Sources/Utils/TerminalHandler.swift:63-107 | Two printable characters read at once are the first character for `readKey` but nothing for `readKeystroke`: the keystrokes are dropped. |
| TerminalHandler.RawAttributes | Sources/Utils/TerminalHandler.swift:27-43 | The raw attributes keep a full control-character array. What they change is stated by `RawAttributesEffect`. |
| TerminalHandler.RawAttributesEffect | Sources/Utils/TerminalHandler.swift:34-39 | Raw mode clears ECHO, ICANON and ISIG and keeps every other local flag. It sets VMIN to 0 and VTIME to 1 and keeps every other control character and every other field. |
| TerminalHandler.RawAttributesIdempotent | Sources/Utils/TerminalHandler.swift:27-43 | Applying raw mode to raw attributes changes nothing more. |
| TerminalHandler.Handler.constructor | Sources/Utils/TerminalHandler.swift:16-18 | `init` saves the attributes it found and puts the terminal into raw mode. |
| TerminalHandler.Handler.SetRawMode | Sources/Utils/TerminalHandler.swift:27-43 | Saves the current attributes, overwriting any saved before, and applies the raw attributes. |
| TerminalHandler.Handler.SetRawModeGuarded | Sources/Utils/TerminalHandler.swift:27-43 | The corrected `setRawMode`: it saves the attributes only when none are saved yet, and applies the raw attributes. |
| TerminalHandler.Handler.RestoreTerminalSettings | Sources/Utils/TerminalHandler.swift:46-50 | Puts the saved attributes back. With none saved, the terminal is left as it is. |
| TerminalHandler.Handler.Release | Sources/Utils/TerminalHandler.swift:20-22 | `deinit` restores the saved attributes. |
| TerminalHandler.Session | Sources/Utils/TerminalHandler.swift:16-22 | A handler's whole lifetime, from `init` to `deinit`, leaves the terminal's attributes as they were. |
| TerminalHandler.NestedRawModeAsWritten | Sources/Utils/TerminalHandler.swift:27-50 | `init`, another `setRawMode`, then `deinit` leave the terminal in raw mode: the second call saved the raw attributes over the original ones. |
| TerminalHandler.NestedRawModeGuarded | Sources/Utils/TerminalHandler.swift:27-50 | The same sequence with the corrected `setRawMode` restores the original attributes. |
| TerminalHandler.NestedRawModeLosesEcho | Sources/Utils/TerminalHandler.swift:35 | On a terminal that echoes, raw attributes differ from the original, and restoring the raw attributes leaves echo off. |
| Steps.Run | install.swift:510-551 | The steps that ran are a prefix of the plan. Every one but the last succeeded. A failed run ends with the step that failed. The run succeeds exactly when the whole plan ran and every step succeeded. |
| Steps.RunStopsAtFirstFailure | Sources/CLI/TerminalUIController.swift:430-466 | When step `k` is the first to fail, exactly steps `0..k` run and the outcome is a failure. |
| Steps.RunAllSucceed | Sources/CLI/TerminalUIController.swift:430-466 | When every step succeeds, the whole plan runs, in order, and the outcome is a success. |
| Catalog.FindHook | install.swift:466 | `first(where:)` on the id: a hook that is found is in the list and has that id, and nothing is found exactly when no hook has the id. |
| Catalog.FindHookDistinct | install.swift:837 | With distinct ids, looking up the id of the hook at position `k` finds that hook. |
| Catalog.GroupRows | install.swift:333-341 | A group contributes its header row followed by one row per hook, in order, each carrying the group's index, the hook's index and the hook. |
| Catalog.BuildHookMenuRows | install.swift:331-342 | The nested loops over groups and hooks build exactly the menu rows `HookMenuRows` specifies. |
| Catalog.HookMenuRowsShape | Sources/CLI/TerminalUIController.swift:612-625 | The selectable rows carry exactly the flattened catalog, in order. There is one header per group, and the menu has as many rows as groups and hooks together. |
| Catalog.HookMenuRowsIndices | install.swift:333-341 | Every row names an existing group, and a hook row carries the hook at its recorded position in that group. |
| Catalog.FirstRowIsHeader | install.swift:327-336 | With at least one group, the first row, where the cursor starts, is the first group's header. |
| Catalog.ScriptPath | install.swift:469-479 | A local hook's script lies in the scripts directory. The three special hooks map to their named scripts and any other id to `<id>.sh`. |
| Catalog.LastPathComponent | install.swift:484 | `lastPathComponent` contains no slash and ends the path. |
| Catalog.ScriptFileName | install.swift:478-484 | The file name handed to the script setup for an ordinary local hook `id` is `id.sh`. |
| Catalog.InstallerCatalogHooks | install.swift:55-157 | The installer's catalog flattens to its eleven hooks in menu order. |
| Catalog.InstallerCatalogWellFormed | install.swift:55-157 | The installer's catalog has distinct ids, and all hooks of one remote repository share one revision. This is what lets `updateConfigFile` write one `rev:` per repository. |
| Catalog.ControllerCatalogIncluded | Sources/CLI/TerminalUIController.swift:109-200 | Every hook of the packaged menu's catalog is in the installer's catalog. `check-merge-conflict` is in the installer's catalog only. |
| InstallerUI.Initial | install.swift:255-264 | The menu starts on the main screen over the built-in catalog with nothing selected, and both cursors are on existing rows. |
| InstallerUI.Next | install.swift:263-412 | Every keystroke, on every screen, keeps both cursors on existing rows. |
| InstallerUI.PromptNext | install.swift:486-569 | A key at an installation or exit prompt changes only the screen and the log of calls made. |
| InstallerUI.UI.constructor | install.swift:255-264 | A new menu is in the initial state. |
| InstallerUI.UI.Step | install.swift:263-412 | Handling one key moves the object's fields to exactly the state `Next` gives, and keeps the invariant. |
| InstallerUI.UI.MainMenuKey | install.swift:286-317 | One key in `mainMenu` moves the fields to the state `Next` gives. |
| InstallerUI.UI.HookMenuKey | install.swift:375-406 | One key in `configureHooks` moves the fields to the state `Next` gives. |
| InstallerUI.UI.InstallKey | install.swift:500-555 | The answer to "Proceed with installation?" moves the fields to the state the prompt's transition gives. |
| InstallerUI.UI.PromptKey | install.swift:486-569 | One key at any prompt of `installSelected` or `confirmExit` moves the fields to the state the prompt's transition gives. |
| InstallerUI.MainMenuArrows | install.swift:288-295 | Up and Down move the main cursor by one, stopping at the first and last option, and change nothing else. |
| InstallerUI.MainMenuDigits | install.swift:311-313 | Digits 1 to 3 move the cursor to options 0 to 2 without choosing them, and change nothing else. |
| InstallerUI.OpenHookMenu | install.swift:302-303 | Choosing "Configure Hooks" opens the hook menu on a header row, with a working copy equal to the current selection. |
| InstallerUI.HookMenuArrows | install.swift:377-384 | Up and Down move the hook cursor by one within the rows and change nothing else. |
| InstallerUI.DownReachesHeader | install.swift:381-384 | Down from a group's last hook lands on the next group's header. |
| InstallerUI.SpaceToggles | install.swift:385-395 | Space on a hook row flips exactly that hook's id in the working copy. On a header it does nothing. |
| InstallerUI.SpaceTwiceRestores | install.swift:385-395 | Two Spaces on the same row give the working copy back. |
| InstallerUI.LeaveHookMenu | install.swift:396-402 | Enter commits the working copy as the selection. Esc, `b` and `B` return to the main menu and keep the old selection. |
| InstallerUI.ToggleThenEscapeDiscards | install.swift:385-402 | A toggle followed by Esc leaves the selection as it was before the menu opened. |
| InstallerUI.InstallNeedsSelection | install.swift:486-502 | "Install" with nothing selected only shows a warning. Otherwise it asks for confirmation. Either way no call runs before the answer. |
| InstallerUI.ConfirmInstallRuns | install.swift:500-555 | Confirming runs the install plan up to its first failing step and logs the calls that ran. Enter then ends the menu after a success and returns to it after a failure. |
| InstallerUI.FinishedThenEnter | install.swift:553-555 | Enter on the result screen gives `Done` after a success and the main menu after a failure. |
| InstallerUI.DeclineInstall | install.swift:500-502 | Answering `n` or `N` runs nothing and returns to the main menu. |
| InstallerUI.InstallPlanShape | install.swift:508-533 | The plan starts by making sure the config exists and ends by writing the config, then running `pre-commit install --install-hooks`. Script setup is included exactly when a selected hook is local. |
| InstallerUI.ExitFlow | install.swift:306-307 | "Exit" with nothing selected leaves at once. Otherwise `Y` leaves and `N` returns to the menu. |
| InstallerUI.DoneIsFinal | install.swift:305-307 | Once the menu has returned, no key changes anything. |
| InstallerUI.SelectionChangesOnlyOnCommit | install.swift:396-399 | The only key that changes the selection is Enter in the hook menu. |
| UIController.HookRowsNonEmpty | Sources/CLI/TerminalUIController.swift:612-625 | With at least one hook group, the hooks menu has at least one row. |
| UIController.ScriptItems | Sources/CLI/TerminalUIController.swift:318-332 | The scripts menu has one row per listed script, or two fallback rows when none is listed. Never zero rows. |
| UIController.MainInput | Sources/CLI/TerminalUIController.swift:482-532 | Every main-menu key, including the Enter that dismisses the "Nothing Selected" warning, keeps the cursor invariant. |
| UIController.TemplatesInput | Sources/CLI/TerminalUIController.swift:274-309 | Every key in the templates menu, including the wait on an empty list, keeps the cursor invariant. |
| UIController.ScriptsInput | Sources/CLI/TerminalUIController.swift:311-349 | A key in the scripts menu either returns to the main menu with the cursor on 0 or stays in the menu on an existing row. |
| UIController.HooksInput | Sources/CLI/TerminalUIController.swift:606-680 | A key in the hooks menu either returns to the main menu with the cursor on 0 or stays in the menu on an existing row. |
| UIController.ConfirmationInput | Sources/CLI/TerminalUIController.swift:401-420 | A key on the confirmation screen keeps the cursor invariant. |
| UIController.Next | Sources/CLI/TerminalUIController.swift:218-240 | Every keystroke, in every state of the main loop, keeps the cursor on an existing row of the current menu. |
| UIController.Controller.constructor | Sources/CLI/TerminalUIController.swift:42-67 | The controller starts in the main menu with the cursor on 0, nothing selected and no call made, over the catalog `loadAvailableHooks` builds. |
| UIController.Controller.HandleMainMenuInput | Sources/CLI/TerminalUIController.swift:482-532 | Moves the controller's fields to the state `MainInput` gives. |
| UIController.Controller.HandleHookTemplatesMenuInput | Sources/CLI/TerminalUIController.swift:534-565 | Moves the controller's fields to the state `TemplatesInput` gives. |
| UIController.Controller.ToggleScript | Sources/CLI/TerminalUIController.swift:577-591 | The Space branch flips the file name found after `"] "` in the row's caption, and does nothing when the caption has no `"] "`. |
| UIController.Controller.HandleScriptsMenuInput | Sources/CLI/TerminalUIController.swift:568-603 | Moves the controller's fields to the state `ScriptsInput` gives. |
| UIController.Controller.HandleHooksMenuInput | Sources/CLI/TerminalUIController.swift:652-680 | Moves the controller's fields to the state `HooksInput` gives. |
| UIController.Controller.PerformInstallation | Sources/CLI/TerminalUIController.swift:424-466 | Runs the installer service's calls in order up to the first that throws and logs them. Without a service no call is made. |
| UIController.Controller.HandleConfirmationInput | Sources/CLI/TerminalUIController.swift:401-420 | Moves the controller's fields to the state `ConfirmationInput` gives. |
| UIController.Controller.Step | Sources/CLI/TerminalUIController.swift:218-240 | One round of the main loop moves the fields to the state `Next` gives and keeps the invariant. |
| UIController.MainArrowsClamp | Sources/CLI/TerminalUIController.swift:485-490 | Up and Down move the main cursor by one over the five rows, without wrapping, and change nothing else. |
| UIController.MainEnterOpensMenus | Sources/CLI/TerminalUIController.swift:491-526 | Enter on rows 0, 1 and 2 opens the templates, hooks and scripts menus with the cursor on 0. Enter on row 4, `q` and `Q` exit. |
| UIController.InstallRow | Sources/CLI/TerminalUIController.swift:502-519 | Enter on "Install" with nothing selected shows a warning that the next Enter dismisses, leaving the state as before. With a selection it opens the confirmation screen. |
| UIController.ConfirmationKeys | Sources/CLI/TerminalUIController.swift:401-420 | On the confirmation screen, `1` installs, `2` returns to the main menu on row 0, `3` exits, and any other key changes nothing. |
| UIController.TemplateSpaceToggles | Sources/CLI/TerminalUIController.swift:543-554 | Space flips exactly the directory of the template under the cursor. A second Space restores the state. |
| UIController.HookSpaceToggles | Sources/CLI/TerminalUIController.swift:661-671 | Space on a header changes nothing. On a hook it flips exactly that hook's id, and a second Space restores the state. |
| UIController.ScriptLabelRoundTrip | Sources/CLI/TerminalUIController.swift:327-331 | A caption built from a check box and a file name gives that file name back when Space parses it. This needs a name without `"] "` and without surrounding spaces. |
| UIController.SpaceOnScripts | Sources/CLI/TerminalUIController.swift:577-591 | Space in the scripts menu changes only the selected scripts, by the name parsed from the caption of the row under the cursor. |
| UIController.FallbackScriptsNotSelectable | Sources/CLI/TerminalUIController.swift:320-324 | When no script is listed, Space on a fallback row changes nothing: its caption has no check box to split on. |
| UIController.FallbackCaptionNamesNothing | Sources/CLI/TerminalUIController.swift:321-324 | The two fallback captions name no file to toggle. |
| UIController.ScriptSpaceToggles | Sources/CLI/TerminalUIController.swift:577-591 | Space on a listed script flips exactly that script's name, and a second Space restores the state. |
| UIController.ScriptToggleAt | Sources/CLI/TerminalUIController.swift:327-331 | Toggling by the caption of a listed script's row is toggling that script's file name. |
| UIController.SubMenusKeepToggles | Sources/CLI/TerminalUIController.swift:555-560 | In every sub-menu, Enter and Esc/`b`/`B` both return to the main menu on row 0 and keep the toggles made: nothing is discarded. |
| UIController.SubMenuArrowsClamp | Sources/CLI/TerminalUIController.swift:537-542 | In every sub-menu, Up and Down move the cursor by one within the rows, without wrapping, and change nothing else. |
| UIController.RenderResetsCursor | Sources/CLI/TerminalUIController.swift:627-630 | Rendering the hooks or scripts menu with the cursor past the last row puts it back on row 0. |
| UIController.InstallationOrder | Sources/CLI/TerminalUIController.swift:424-477 | `1` on the confirmation screen installs and then waits for Enter, which exits. The calls are: verify dependencies, scripts, hooks and templates each only when selected, then install the `pre-commit` and `pre-push` hook types. Nothing is called without the service. |
| UIController.InstallationStopsAtFailure | Sources/CLI/TerminalUIController.swift:430-466 | When call `k` is the first to throw, exactly calls `0..k` are made. |
| StandardConfig.HeaderOneLine | install.swift:23-27 | The standard header is three single lines. |
| StandardConfig.HeaderOpens | install.swift:23-27 | Every header line is a comment. |
| StandardConfig.DefaultsOneLine | install.swift:29-35 | The standard defaults are five single lines. |
| StandardConfig.DefaultsOpen | install.swift:29-35 | Every defaults line is a comment or a `default_` key, so none is a `repos:` line. |
| ConfigText.IndentLines | Sources/Utils/FullYAMLPatchInstaller.swift:137 | Indenting maps each line, in order, to that line behind two spaces. |
| ConfigText.FirstLineContaining | Sources/Utils/FullYAMLPatchInstaller.swift:100 | `firstIndex` finds a line containing the text with no such line before it, or reports that no line contains it. |
| ConfigText.SkipFrom | Sources/Utils/FullYAMLPatchInstaller.swift:103-106 | The skip stops at the first line, from its start on, that is neither a comment nor blank, or at the end. Every line passed over is a comment or blank. |
| ConfigText.SkipCommentsAndBlanks | Sources/Utils/FullYAMLPatchInstaller.swift:103-106 | The `while` loop stops at the index `SkipFrom` specifies. |
| ConfigText.MarkerSlot | Sources/Utils/FullYAMLPatchInstaller.swift:100-106 | The marker goes after the first `repos:` line, or after line 0 when there is none, and never past the end. |
| ConfigText.InsertMarker | Sources/Utils/FullYAMLPatchInstaller.swift:99-109 | Splitting, finding `repos:`, skipping, inserting the indented marker and joining give the marker-insertion specification. |
| ConfigText.EnsureMarkerExists | Sources/Utils/FullYAMLPatchInstaller.swift:91-118 | `ensureMarkerExists` follows its three cases: a text with the marker is kept, one with `repos:` gets the marker line below it, and otherwise `repos:` and the marker are appended. |
| ConfigText.EnsureMarkerAtLineExists | test-template-fix.swift:29-42 | The variant without a `repos:` check puts the marker below the first `repos:` line, or below line 0 when there is none. |
| ConfigText.InsertMarkerLineShape | Sources/Utils/FullYAMLPatchInstaller.swift:108-109 | Inserting the marker adds exactly one line, the indented marker, and keeps every original line in order around it. The result contains the marker. |
| ConfigText.EnsureMarkerIdempotent | Sources/Utils/FullYAMLPatchInstaller.swift:91-118 | After `ensureMarkerExists` the text contains the marker, and running it again changes nothing. |
| ConfigText.EnsureMarkerAtLineIdempotent | test-template-fix.swift:29-42 | The same for the variant without the `repos:` check. |
| ConfigText.EnsureMarkerInsertsOneLine | Sources/Utils/FullYAMLPatchInstaller.swift:97-109 | With `repos:` present and no marker, the marker lands after the `repos:` line and the comments and blank lines that follow it, and nothing else changes. |
| ConfigText.EnsureMarkerAppends | Sources/Utils/FullYAMLPatchInstaller.swift:110-116 | With neither marker nor `repos:`, the text gets a new line with `repos:` and then the indented marker appended. |
| ConfigText.LeadingBlankLines | install-fix.swift:137-139 | Counts the whitespace-only lines at the start: they are all blank, and the next line is not. |
| ConfigText.DropLeadingBlank | install-fix.swift:137-139 | Removing blank lines from the front leaves a suffix that starts with a non-blank line, and every line removed is blank. |
| ConfigText.DropTrailingBlank | install-fix.swift:140-142 | Removing blank lines from the back leaves a prefix that ends with a non-blank line, and every line removed is blank. |
| ConfigText.TrimBlankLines | Sources/Utils/FullYAMLPatchInstaller.swift:24-29 | The two trimming loops give `StripBlankEnds`. |
| ConfigText.RemoveLeadingBlank | Sources/Utils/FullYAMLPatchInstaller.swift:24-26 | The `removeFirst` loop gives `DropLeadingBlank`. |
| ConfigText.RemoveTrailingBlank | Sources/Utils/FullYAMLPatchInstaller.swift:27-29 | The `removeLast` loop gives `DropTrailingBlank`. |
| ConfigText.StripBlankEndsShape | Sources/Utils/FullYAMLPatchInstaller.swift:23-29 | What trimming keeps is one contiguous run of the original lines and everything removed is blank. The run is empty or starts and ends with a non-blank line. |
| ConfigText.StripBlankEndsIdempotent | Sources/Utils/FullYAMLPatchInstaller.swift:23-29 | Trimming twice is trimming once. |
| ConfigText.IndentNonBlank | Sources/Utils/MultipleTemplatesFix.swift:89-95 | Keeps no more lines than it is given, and every kept line is two spaces followed by a non-blank line. |
| ConfigText.IndentNonBlankKeeps | Sources/Utils/MultipleTemplatesFix.swift:90-94 | Every non-blank template line appears in the output, indented. |
| ConfigText.IndentNonBlankOnly | Sources/Utils/MultipleTemplatesFix.swift:90-94 | Every output line is a non-blank template line, indented: nothing else is added. |
| ConfigText.InsertAfterFirstLine | Sources/Utils/FullYAMLPatchInstaller.swift:128-141 | The copying loop with its `insertedTemplate` flag inserts the block after the first matching line only, and the flag is set exactly when some line matches. |
| ConfigText.InsertAfterFirstAt | Sources/Utils/FullYAMLPatchInstaller.swift:133-141 | The block goes right after the first matching line, and that line is still the first match afterwards. |
| ConfigText.InsertedAfterFirstLines | Sources/Utils/FullYAMLPatchInstaller.swift:129-152 | Splitting the joined result gives back the lines with the block spliced in after the first match, when the block's lines hold no line break. |
| InstallerConfig.FirstReposFrom | install.swift:811-817 | Finds the first line, from a start index on, whose trimmed text starts with `repos:`, or reports that there is none. |
| InstallerConfig.ExtractExistingRepos | install.swift:810-817 | The loop with its `break` keeps exactly the lines after the first `repos:` line, and keeps nothing when there is none. |
| InstallerConfig.GroupSelectedHooks | install.swift:833-867 | After the loop over the selected ids, each remote repository of a selected hook is a key. It holds one record per selected id of that repository, with the hook's revision. The local list holds the local entry of each selected local hook and nothing else. Unknown ids are skipped. |
| InstallerConfig.RecordHook | install.swift:837-865 | Recording one more id keeps both groupings complete for the ids seen so far. |
| InstallerConfig.RepoIdsAdd | install.swift:837-865 | Adding an id adds it to its own repository's group and to no other. |
| InstallerConfig.RemoteReposAdd | install.swift:858-864 | Adding the id of a remote hook adds its repository to the keys. A local or unknown id adds none. |
| InstallerConfig.OtherReposKept | install.swift:858-864 | Recording a remote hook changes only its own repository's records; the other repositories keep theirs. |
| InstallerConfig.RemoteUnaffected | install.swift:837-865 | A local or unknown id leaves the remote records as they are. |
| InstallerConfig.LocalUnaffected | install.swift:837-865 | An id that is not local leaves the local records as they are. |
| InstallerConfig.NotYetListed | install.swift:862 | An id not yet seen is in no repository's records, so the duplicate check never drops a record. |
| InstallerConfig.GroupLocal | install.swift:838-857 | A selected local hook joins the local list with its description as name, its script as entry, the `script` language and its file pattern. |
| InstallerConfig.SortKeys | install.swift:870 | Sorting the repository keys gives them in ascending order, each once. |
| InstallerConfig.AppendIdLines | install.swift:875-877 | Appends one `- id:` line per hook, in the given order. |
| InstallerConfig.AppendRepo | install.swift:871-878 | A repository with records gets its `repo:` line, the first record's `rev:` line, `hooks:` and its ids sorted. A repository without records adds nothing. |
| InstallerConfig.AppendRemoteBlocks | install.swift:870-879 | Appends the entries of the repositories in the order given. |
| InstallerConfig.AppendLocalEntry | install.swift:886-893 | One local hook writes its id, quoted name, entry and language lines, a `files:` line only when it has a pattern, and the `stages` line. |
| InstallerConfig.AppendLocalEntries | install.swift:885-894 | Appends the entries of the local hooks in the order given. |
| InstallerConfig.AppendLocalBlock | install.swift:882-895 | The `local` repository entry lists the selected local hooks sorted by id, and it is absent when there are none. |
| InstallerConfig.ManagedAdditions | install.swift:829-900 | The generated block is empty when no hook is selected. Otherwise it is the marker line, then the remote repositories in ascending order, then the `local` entry. |
| InstallerConfig.FinalContent | install.swift:804-906 | The text written is the standard top section, `repos:`, the lines kept from below the old `repos:` line, then the generated block. |
| InstallerConfig.UpdateConfigFile | install.swift:797-910 | An existing file is rebuilt. A missing file is first created with the initial content when the user agrees. When the user declines, nothing is written. |
| InstallerConfig.LocalSectionOf | install.swift:882-895 | The `local` entry of the specification is the one of the local records sorted by id. |
| InstallerConfig.LocalSorted | install.swift:885 | The local records sorted by id are the local entries of the sorted selected ids. |
| InstallerConfig.LocalSortedEntries | install.swift:885 | Sorting keeps every local record the entry of its own catalog hook. |
| InstallerConfig.RepoBlockMatches | install.swift:870-878 | The entry written from a repository's records is the one the specification derives from the selected ids. |
| InstallerConfig.ExistingReposBelow | install.swift:811-815 | Below a first `repos:` line, the kept lines are exactly the lines of the text after it. |
| InstallerConfig.KeepsTextBelowRepos | install.swift:904-906 | Everything above and including the first `repos:` line is replaced by the top section and `repos:`. The text below it is kept verbatim and followed by the block. |
| InstallerConfig.DropsTextWithoutRepos | install.swift:810-819 | A file without a `repos:` line loses all its content. |
| InstallerConfig.AdditionsStart | install.swift:830-900 | The block is empty exactly when no hook is selected, and otherwise starts with the marker on a line of its own. |
| InstallerConfig.RerunAppendsAgain | install.swift:804-906 | For any top section without a `repos:` line, running the update on its own output keeps that output and appends the block once more. |
| InstallerConfig.TopLinesNotRepos | install.swift:822-826 | No line of the installer's top section is a `repos:` line. |
| InstallerConfig.TopLinesJoined | install.swift:822-826 | The top section is the header, an empty line and the defaults, joined by line breaks. |
| InstallerConfig.TopLinesOneLine | install.swift:822-826 | No line of the top section holds a line break. |
| InstallerConfig.RerunRepeatsBlock | install.swift:797-910 | Running the installer's update twice with the same selection writes the generated block twice: the update is not idempotent. |
| ScriptTemplates.StripLeft | install.swift:749 | Drops a prefix made only of `#` and spaces, leaving a suffix that does not start with either. |
| ScriptTemplates.StripRight | install.swift:749 | Drops a suffix made only of `#` and spaces, leaving a prefix that does not end with either. |
| ScriptTemplates.StripHashes | install.swift:749 | Trimming `#` and spaces leaves a text that neither starts nor ends with one of them. |
| ScriptTemplates.FirstDescriptionLine | install.swift:748 | Finds the first line whose space-trimmed text starts with `#` but not `#!`, or reports that no line qualifies. |
| ScriptTemplates.ShellScripts | install.swift:730 | Keeps exactly the entries ending in `.sh`, and never adds one. |
| ScriptTemplates.Described | install.swift:730-731 | Pairs every script, in order, with the description of its file. |
| ScriptTemplates.OfferedScripts | install.swift:720-738 | No directory offers nothing, and a listing error is exactly the thrown error. Otherwise the offer is strictly sorted by file name, pairs each file with its description, and lists exactly the `.sh` entries of the directory. |
| ScriptTemplates.SortedDescribed | install.swift:730-732 | Sorting the described scripts by file name gives a strictly ascending list. It keeps every script with its own description and adds none. |
| ScriptTemplates.SortedNames | install.swift:730-732 | Every script file name is still listed after sorting. |
| ScriptTemplates.CommentDescribes | install.swift:746-750 | A file whose first line is `# text` is described by `text`. |
| ScriptTemplates.SkipsOtherLines | install.swift:748 | A first line that does not qualify is skipped: the description is the rest's. |
| ScriptTemplates.ShebangIsNotDescription | install.swift:748 | An interpreter line `#!…` is never the description. |
| ScriptTemplates.FallbackDescriptions | install.swift:742-758 | A file without any `#` is described as having no comment. An unreadable file gets the "cannot read" text. |
| ScriptTemplates.NoHashNoDescription | install.swift:748 | A line without `#` never qualifies. |
| MultipleTemplatesFix.CleanConfigLines | Sources/Utils/MultipleTemplatesFix.swift:34-67 | Cuts the configuration after its first marker line. Without a marker it keeps the lines up to the end of the comments after `repos:` and adds the marker line. Without `repos:` it appends `repos:` and the marker line. |
| MultipleTemplatesFix.AppendTemplateLines | Sources/Utils/MultipleTemplatesFix.swift:89-95 | Appends the template's non-blank lines, indented, in order. |
| MultipleTemplatesFix.CollectTemplateLines | Sources/Utils/MultipleTemplatesFix.swift:69-104 | Collects the selected templates' lines in the order requested, with one empty line between templates. Missing or empty files are skipped. |
| MultipleTemplatesFix.RewriteConfig | Sources/Utils/MultipleTemplatesFix.swift:34-113 | The written text is the cleaned configuration, then an empty line and the template lines when there are any. |
| MultipleTemplatesFix.UpdateConfigFileWithTemplatesFixed | Sources/Utils/MultipleTemplatesFix.swift:8-114 | The same, starting from the default configuration when the file is absent. |
| MultipleTemplatesFix.CleanedLinesEndAtMarker | Sources/Utils/MultipleTemplatesFix.swift:38-67 | The cleaned lines end with the only line that contains the marker. |
| MultipleTemplatesFix.CutAtMarker | Sources/Utils/MultipleTemplatesFix.swift:38-46 | Everything after the first marker line is discarded: earlier managed content is removed, not duplicated. |
| MultipleTemplatesFix.UpdateIdempotent | Sources/Utils/MultipleTemplatesFix.swift:8-114 | Running the fix a second time with the same templates writes the same text. |
| MultipleTemplatesFix.UpdateTextIdempotent | Sources/Utils/MultipleTemplatesFix.swift:34-113 | Rewriting its own output with the same templates gives that output back. |
| MultipleTemplatesFix.MarkerKeepsPrefix | Sources/Utils/MultipleTemplatesFix.swift:38-110 | With a marker present, every line up to the marker is kept as it was. After it come only empty or indented lines. |
| MultipleTemplatesFix.MarkerAfterRepos | Sources/Utils/MultipleTemplatesFix.swift:49-61 | Without a marker, the marker line goes after the first `repos:` line and the comment and blank lines right after it. |
| MultipleTemplatesFix.MarkerAndReposAppended | Sources/Utils/MultipleTemplatesFix.swift:62-66 | Without marker and `repos:`, the lines are kept and `repos:` and the marker line follow them. |
| MultipleTemplatesFix.TemplateLinesShape | Sources/Utils/MultipleTemplatesFix.swift:84-95 | Every collected line is empty or an indented non-blank line. |
| MultipleTemplatesFix.NothingAfterMarkerWithoutTemplates | Sources/Utils/MultipleTemplatesFix.swift:106-110 | Without template lines nothing follows the cleaned lines. Otherwise an empty line separates them. |
| MultipleTemplatesFix.MissingTemplateSkipped | Sources/Utils/MultipleTemplatesFix.swift:77-82 | A missing or empty template contributes nothing, not even a separator. |
| MultipleTemplatesFix.TemplatesSeparated | Sources/Utils/MultipleTemplatesFix.swift:83-95 | A template after others is preceded by exactly one empty line. |
| MultipleTemplatesFix.TemplateLineKept | Sources/Utils/MultipleTemplatesFix.swift:89-95 | Every non-blank line of every selected template appears in the result, indented: multiple templates are all kept. |
| DirectAppendFix.ReadOrCreateConfig | Sources/Utils/DirectAppendFix.swift:23-42 | The file's text when the file exists, otherwise the default configuration text with `repos:` and a placeholder comment. |
| DirectAppendFix.RemoveSection | Sources/Utils/DirectAppendFix.swift:61-73 | With both markers present, the text loses everything from the first BEGIN to one character past the first END; the removal traps (`None`) exactly when END ends the text or BEGIN lies more than one character past END. Without both markers the text is unchanged. |
| DirectAppendFix.PieceShape | Sources/Utils/DirectAppendFix.swift:85-96 | A found template is copied verbatim and followed by a line break only when it does not already end with one. |
| DirectAppendFix.CreateTemplateSection | Sources/Utils/DirectAppendFix.swift:75-107 | The built section is the line break, BEGIN line, every found template in request order, and the END line. |
| DirectAppendFix.UpdateText | Sources/Utils/DirectAppendFix.swift:124-141 | The update fails exactly when the removal traps; otherwise it is the text without its old section followed by the new section. |
| DirectAppendFix.UpdateConfigFile | Sources/Utils/DirectAppendFix.swift:124-141 | The method reads or creates the text, removes the old section and appends the new one, as `UpdateConfig` states. |
| DirectAppendFix.SectionShape | Sources/Utils/DirectAppendFix.swift:77-105 | The section begins with a line break and the BEGIN line and ends with the END line. |
| DirectAppendFix.BodyAppend | Sources/Utils/DirectAppendFix.swift:80-101 | The templates of two lists of directories are those of each list, one after the other. |
| DirectAppendFix.TemplateInPlace | Sources/Utils/DirectAppendFix.swift:80-101 | The i-th directory's template sits between the templates before it and those after it. |
| DirectAppendFix.TemplateInBody | Sources/Utils/DirectAppendFix.swift:85-96 | Every found template's text appears in the collected templates. |
| DirectAppendFix.TemplateInSection | Sources/Utils/DirectAppendFix.swift:75-107 | Every found template's text appears in the section. |
| DirectAppendFix.BodyEndsWithNewline | Sources/Utils/DirectAppendFix.swift:92-95 | Collected templates always end with a line break, so END starts a line of its own. |
| DirectAppendFix.SectionFoundFor | Sources/Utils/DirectAppendFix.swift:64-67 | In text followed by a section, the first BEGIN and the first END are the section's own when the text before holds neither marker. |
| DirectAppendFix.RemovalKeepsLeadingBreak | Sources/Utils/DirectAppendFix.swift:61-73 | Removing a section written by an earlier run leaves the line break written in front of BEGIN. |
| DirectAppendFix.RerunGrows | Sources/Utils/DirectAppendFix.swift:124-141 | Running the update twice does not give the result of one run: every rerun adds one more line break in front of the section. |
| DirectAppendFix.TrapsWhenEndEndsText | Sources/Utils/DirectAppendFix.swift:65-68 | A text whose END marker is its last character run traps: the index one past END does not exist. |
| DirectAppendFix.RemoveSectionFixedFor | Sources/Utils/DirectAppendFix.swift:61-73 | Corrected removal: without both markers the text is unchanged, and the result is never longer than the text. |
| DirectAppendFix.FixedCutsFound | Sources/Utils/DirectAppendFix.swift:64-68 | Corrected removal cuts from the first BEGIN, with the line break before it, through the first END and the line break after it. |
| DirectAppendFix.CutSectionAtEnd | Sources/Utils/DirectAppendFix.swift:66-68 | A section at the end of the text is removed together with the line break in front of it. |
| DirectAppendFix.FixedWhenEndEndsText | Sources/Utils/DirectAppendFix.swift:61-73 | Corrected removal on a text that ends with END, the input that traps as written: the result is the text before BEGIN, without the line break in front of BEGIN when there is one. |
| DirectAppendFix.FixedWhenEmEndsText | Sources/Utils/DirectAppendFix.swift:61-73 | The same for any pair of markers. |
| DirectAppendFix.FixedRemovesSection | Sources/Utils/DirectAppendFix.swift:61-107 | Corrected removal takes off exactly the section a run appended. |
| DirectAppendFix.FixedRerunIdempotent | Sources/Utils/DirectAppendFix.swift:124-141 | With the corrected removal, running the update twice gives the result of running it once. |
| FullYamlPatch.Process | Sources/Utils/FullYAMLPatchInstaller.swift:19-52 | The template's lines without leading and trailing blank lines; the warning is raised exactly when lines remain and the first line that is neither blank nor a comment is not a list entry. |
| FullYamlPatch.FindFirstRepo | Sources/Utils/FullYAMLPatchInstaller.swift:31-41 | The loop reports true exactly when the first line that is neither blank nor a comment starts, once trimmed, with `-`. |
| FullYamlPatch.InsertTemplate | Sources/Utils/FullYAMLPatchInstaller.swift:128-153 | The loop builds the text that puts the indented block right below the first marker line, or appends it after an empty line when no line holds the marker. |
| FullYamlPatch.GeneratePath | Sources/Utils/FullYAMLPatchInstaller.swift:158-162 | The path is `hooks-templates/`, the directory and `/template.yaml`, and the directory can be read back from it. |
| FullYamlPatch.GeneratePathInjective | Sources/Utils/FullYAMLPatchInstaller.swift:158-162 | Different directories give different paths. |
| FullYamlPatch.UpdateConfigFile | Sources/Utils/FullYAMLPatchInstaller.swift:192-243 | The method reads or creates the text, ensures the marker, and inserts every found non-empty template in selection order. |
| FullYamlPatch.ProcessedLinesShape | Sources/Utils/FullYAMLPatchInstaller.swift:19-29 | Processed lines hold no line break and neither start nor end with a blank line; processing them again changes nothing. |
| FullYamlPatch.RepoEntryIsListEntry | Sources/Utils/FullYAMLPatchInstaller.swift:36 | The `- repo:` test adds nothing to the `-` test beside it. |
| FullYamlPatch.InsertedBelowMarker | Sources/Utils/FullYAMLPatchInstaller.swift:128-141 | The indented block lands right after the first marker line and every other line is kept; the marker line stays the first one. |
| FullYamlPatch.AppendedWithoutMarker | Sources/Utils/FullYAMLPatchInstaller.swift:143-150 | Without a marker line the block follows the text after one empty line. |
| FullYamlPatch.LaterTemplateAbove | Sources/Utils/FullYAMLPatchInstaller.swift:208-224 | A template inserted later lands above the one inserted before it. |
| FullYamlPatch.MergeLayout | Sources/Utils/FullYAMLPatchInstaller.swift:208-233 | All blocks land right below the marker line in reverse selection order; every other line is kept. |
| FullYamlPatch.UpdateLayout | Sources/Utils/FullYAMLPatchInstaller.swift:192-243 | After the update the text has a marker line and all selected blocks directly below it. |
| FullYamlPatch.RerunRepeatsBlocks | Sources/Utils/FullYAMLPatchInstaller.swift:192-243 | Running the update on its own output adds every block again: the installer does not remove earlier insertions. |
| InstallFix.DropTitle | install-fix.swift:144-147 | The first line is dropped exactly when it is a comment; otherwise the lines are unchanged. |
| InstallFix.ProcessTemplate | install-fix.swift:132-151 | The method trims blank lines at both ends, drops a leading comment line and joins the rest. |
| InstallFix.InsertTemplate | install-fix.swift:96-118 | The loop puts the indented template lines right below the first marker line, or at the end when no line holds the marker. |
| InstallFix.AddTemplatesToConfig | install-fix.swift:42-129 | The method reads or creates the text, ensures the marker, and inserts every found template whose processed text is not empty, in selection order. |
| InstallFix.MergeStep | install-fix.swift:84-124 | One more selected template is one more insertion on the text built so far. |
| InstallFix.ProcessedTextShape | install-fix.swift:132-151 | A processed template is empty exactly when nothing but blank lines or a single comment line was there; otherwise its lines are the trimmed lines without the title. |
| InstallFix.StrippedOneLineEach | install-fix.swift:134-142 | Trimming blank lines at the ends keeps every line free of line breaks. |
| InstallFix.TitleDropped | install-fix.swift:144-147 | After dropping the title, nothing remains exactly when there was nothing, or only a comment line; what remains still ends with a non-empty line. |
| InstallFix.JoinedNonEmpty | install-fix.swift:150 | Joining lines that end with a non-empty line gives a non-empty text that splits back into the same lines. |
| InstallFix.TitleOnlySkipped | install-fix.swift:94 | A template made of a single comment line is skipped. |
| InstallFix.InsertedBelowMarker | install-fix.swift:100-109 | The indented lines land right after the first marker line; every other line is kept and the marker line stays the first. |
| InstallFix.AppendedWithoutMarker | install-fix.swift:111-116 | Without a marker line the indented lines follow the text directly, with no separating empty line. |
| InstallFix.MergeLayout | install-fix.swift:84-124 | All blocks land right below the marker line in reverse selection order; every other line is kept. |
| InstallFix.AddedLayout | install-fix.swift:42-129 | After the run the text has a marker line and all selected blocks directly below it. |
| InstallFix.RerunRepeatsBlocks | install-fix.swift:42-129 | Running the script on its own output inserts every block again. |
| TestCompleteFix.IndentTemplateLines | test-complete-fix.swift:105-110 | The loop keeps every non-blank template line, indented, in order, and drops blank ones. |
| TestCompleteFix.InsertTemplate | test-complete-fix.swift:94-115 | The loop puts an empty line and the template's non-blank lines, indented, right below the first marker line. |
| TestCompleteFix.AddTemplatesToConfig | test-complete-fix.swift:43-131 | The method reads or creates the text, inserts the marker line when absent, and inserts every found non-empty template in order. |
| TestCompleteFix.BlockContents | test-complete-fix.swift:100-111 | A template's block starts with an empty line, holds every non-blank template line indented, and nothing else. |
| TestCompleteFix.NoMarkerNoChange | test-complete-fix.swift:94-115 | A text without a marker line is not changed by a template: unlike the other installers there is no fallback. |
| TestCompleteFix.MergeLayout | test-complete-fix.swift:83-121 | All blocks land right below the marker line in reverse selection order; every other line is kept. |
| TestCompleteFix.AddedLayout | test-complete-fix.swift:43-131 | After the run the text has a marker line and all blocks directly below it. |
| TestDirectAppend.AppendTemplatesToConfig | test-direct-append.swift:31-90 | The file ends up as the default text followed by the same section the direct-append installer builds. |
| TestDirectAppend.AppendedSection | test-direct-append.swift:50-82 | The result starts with the earlier text, ends with the END line and holds every found template's text. |
| TestMultipleTemplates.AddTemplatesToConfig | test-multiple-templates.swift:31-137 | The script computes what the multiple-templates installer computes for a missing file. |
| TestMultipleTemplates.UpperAscii | test-multiple-templates.swift:151 | A lower-case ASCII letter becomes its upper-case letter. Every other character, including a non-ASCII letter, is left as it is: an ASCII-only approximation of `uppercased()`. |
| TestMultipleTemplates.Capitalized | test-multiple-templates.swift:151 | Only the first character is upper-cased, by `UpperAscii`. The length and the rest are kept. |
| TestMultipleTemplates.VerifyTemplates | test-multiple-templates.swift:147-164 | The check succeeds exactly when every template is detected: by its heading comment, or by a GitHub repository entry together with its name. |
| TestMultipleTemplates.ContainsNotBlank | test-multiple-templates.swift:108-111 | A line holding text that starts with a non-whitespace character is not blank, so it is kept. |
| TestMultipleTemplates.HeadingDetected | test-multiple-templates.swift:150-158 | A selected template whose text carries its heading comment is detected in the final text. |
| TestMultipleTemplates.HeadingLine | test-multiple-templates.swift:106-128 | Some line of the final text holds that heading comment. |
| TestMultipleTemplates.HeadingTemplateLine | test-multiple-templates.swift:106-112 | Some collected template line holds that heading comment. |
| TestMultipleTemplates.TemplateLinePlaced | test-multiple-templates.swift:122-125 | Every collected template line is a line of the final text. |
| TestMultipleTemplates.IndentKeepsNeedle | test-multiple-templates.swift:110 | Indenting a line keeps everything it contains. |
| TestTemplateFix.ProcessTemplate | test-template-fix.swift:86-99 | The template's lines without leading and trailing blank lines. |
| TestTemplateFix.AddTemplateToConfig | test-template-fix.swift:16-84 | The method reads or creates the text, inserts the marker line when absent, and inserts the processed template below the first marker line. |
| TestTemplateFix.AddedLayout | test-template-fix.swift:55-71 | The processed, indented template lands right below the marker line; every other line is kept. |
| TestTemplateFix.MissingTemplateKeepsText | test-template-fix.swift:49-83 | A missing or empty template leaves the text with its marker line unchanged. |
| SourcePatch.ScanEnd | install-patched.swift:27-39 | The brace scan stops at the first position where the balance returns to zero, or at the end of the text; the balance stays positive before that point. |
| SourcePatch.DepthSnoc | install-patched.swift:31-39 | One more character moves the net brace count by that character's delta. |
| SourcePatch.DepthConcat | install-patched.swift:31-39 | The net brace count of two texts joined is the sum of their counts. |
| SourcePatch.FindMethodEnd | install-patched.swift:27-39 | The loop ends where the scan says; a balance of zero means it stopped right after a closing brace. |
| SourcePatch.LocateMethod | install-patched.swift:25-42 | No method is found exactly when the signature is absent; otherwise it starts at the signature's first occurrence and ends where the brace scan stops. |
| SourcePatch.PatchInstaller | install-patched.swift:25-57 | The loop-and-replace body computes the patched source: every occurrence of the cut method replaced by the forwarding stub, then a blank line and the patch text. |
| SourcePatch.InstallPatched | install-patched.swift:19-63 | The backup `.bak` is always written first; the patched source is written only when the signature is found. |
| SourcePatch.InstallFullPatch | install-full-patch.swift:19-181 | The backup `.bak.full` is always written first; when the signature is found, the patched source and then the test script are written. |
| SourcePatch.NotFoundLeavesSource | install-patched.swift:61-63 | Without the signature nothing is patched. |
| SourcePatch.SignatureDepth | install-patched.swift:25-27 | The signature opens exactly one brace, which is why the scan starts at balance one. |
| SourcePatch.NoBracesDepth | install-patched.swift:33-37 | A text without braces has a net brace count of zero. |
| SourcePatch.PrefixOccurrence | install-patched.swift:25 | An occurrence of the signature is an occurrence of each of its prefixes. |
| SourcePatch.ExtractedMethodBalanced | install-patched.swift:25-42 | When the scan closes, the cut method starts with the signature, ends with `}`, has balanced braces and no shorter prefix past the signature is balanced. |
| SourcePatch.ScannedPiece | install-patched.swift:25-42 | The same for any opening text with one net brace. |
| SourcePatch.BalancedPiece | install-patched.swift:31-42 | A scan that closes yields a piece with balanced braces, ending with `}`, whose prefixes past the start stay open. |
| SourcePatch.LastCloses | install-patched.swift:33-38 | The step that brings a positive balance to zero reads a closing brace. |
| SourcePatch.ReplaceAllFirstAt | install-patched.swift:53 | Replacing all occurrences replaces the first one and then all occurrences in the rest. |
| SourcePatch.PatchedLayout | install-patched.swift:42-56 | The patched source is the text before the method, the stub, the rest with further copies of the method replaced, a blank line and the patch. |
| SourcePatch.PatchedSingleMethod | install-patched.swift:42-56 | When the method text does not occur again, the patched source is the text with the method swapped for the stub, then a blank line and the patch. |
| SourcePatch.PatchAppended | install-patched.swift:55-56 | The patched source ends with a blank line and the patch text. |
| TemplateValues.MakeTemplateName | Sources/Domain/ValueObjects/TemplateName.swift:7-13 | The name never grows, and a raw name without `.yaml` is kept as it is. |
| TemplateValues.Header | Sources/Domain/ValueObjects/TemplateContent.swift:17-19 | The header is exactly two line breaks, the twelve characters `# Template: `, the template's name and one line break. |
| TemplateValues.NoDotNoYaml | Sources/Domain/ValueObjects/TemplateName.swift:8 | A text without a dot holds no `.yaml`, so its name is unchanged. |
| TemplateValues.StripsExtension | Sources/Domain/ValueObjects/TemplateName.swift:8 | A file name made of a stem and `.yaml` gives the stem. |
| TemplateValues.DropsTrailingPattern | Sources/Domain/ValueObjects/TemplateName.swift:8 | Removing a pattern whose first character does not recur in it, from a stem without the pattern followed by the pattern, gives the stem. |
| TemplateValues.SwiftlintHeader | Sources/Domain/ValueObjects/TemplateContent.swift:17-19 | `swiftlint.yaml` names the template `swiftlint`, whose header is `\n\n# Template: swiftlint\n`. |
| TemplateValues.StripIsSinglePass | Sources/Domain/ValueObjects/TemplateName.swift:8 | The removal is a single left-to-right pass: `.ya.yamlml` becomes `.yaml`, so a name can still end in `.yaml`. |
| TemplateValues.ExtensionThenTail | Sources/Domain/ValueObjects/TemplateName.swift:8 | `.yaml` followed by a tail without a dot loses only the `.yaml`. |
| TemplateValues.KeepsFirstWhenNoMatch | Sources/Domain/ValueObjects/TemplateName.swift:8 | Where the pattern does not start, the first character is kept and the removal goes on with the rest. |
| Text.IndexOf | Sources/Utils/DirectAppendFix.swift:64-65 | `range(of:)`: found exactly when the needle occurs, at an occurrence with none before it. |
| Text.IndexOfFirst | Sources/Utils/DirectAppendFix.swift:64-65 | An occurrence with none before it is the one `range(of:)` finds. |
| Text.SplitOn | install.swift:807 | Splitting gives at least one piece, and no piece holds the separator. |
| Text.JoinSplit | install.swift:807 | Joining the pieces of a split with the same separator gives the text back. |
| Text.Lines | Sources/Utils/FullYAMLPatchInstaller.swift:99 | A text has at least one line and no line holds a line break. |
| Text.LinesUnlines | Sources/Utils/FullYAMLPatchInstaller.swift:99-109 | Joining lines and splitting again gives the same lines. |
| Text.UnlinesLines | Sources/Utils/FullYAMLPatchInstaller.swift:99-109 | Splitting a text into lines and joining them again gives the text back. |
| Text.JoinConcat | install.swift:905 | Joining two non-empty runs of pieces puts one separator between them. |
| Text.Trim | Sources/Utils/FullYAMLPatchInstaller.swift:24 | The trimmed text is empty exactly when the text is blank, and otherwise neither starts nor ends with whitespace. |
| Text.TrimRight | Sources/Utils/FullYAMLPatchInstaller.swift:24 | Trimming the right end keeps a prefix that does not end with whitespace and drops only whitespace. |
| Text.TrimSpaces | install.swift:748 | Trimming spaces and tabs never lengthens the text and leaves neither at its ends. |
| Text.TrimSpacesUnchanged | install.swift:748 | A text without spaces or tabs at its ends is unchanged by trimming. |
| Text.TrimUnchanged | Sources/Utils/FullYAMLPatchInstaller.swift:24 | A text without whitespace at its ends is its own trimmed text. |
| Text.ReplaceAllAbsent | Sources/Domain/ValueObjects/TemplateName.swift:8 | Replacement leaves a text without the pattern untouched. |
| Text.ReplaceAllShrinks | Sources/Domain/ValueObjects/TemplateName.swift:8 | Replacing by something no longer never lengthens the text. |
| Text.LineContainsImpliesContains | Sources/Utils/FullYAMLPatchInstaller.swift:92-100 | If some line holds the needle, so does the whole text. |
| Text.ContainsImpliesLineContains | Sources/Utils/FullYAMLPatchInstaller.swift:92-100 | A single-line needle found in the text lies inside one of its lines, so the text check and the line search agree. |
| Text.SplitOnAbsent | install.swift:807 | A text without the separator is a single piece. |
| Text.LinesConcat | Sources/Utils/FullYAMLPatchInstaller.swift:99 | The lines of two texts joined by a line break are the lines of each. |
| Ordering.LessIrreflexive | install.swift:870 | No string is smaller than itself. |
| Ordering.LessTransitive | install.swift:870 | The string order is transitive. |
| Ordering.LessTotal | install.swift:870 | Two different strings are always ordered one way or the other. |
| Ordering.LessAsymmetric | install.swift:870 | If `a < b` then not `b < a`. |
| Ordering.StrictlySortedFromAdjacent | install.swift:441 | A sequence whose neighbours are in order is sorted throughout. |
| Ordering.SortedUnique | install.swift:441 | Two strictly sorted sequences with the same elements are equal. |
| Ordering.SortedSet | install.swift:441 | `sorted()` on a set lists each element once, in ascending order. |
| Ordering.SortedSetUnique | install.swift:441 | Any strictly sorted listing of a set is its sorted listing. |
| Ordering.Insert | install.swift:441 | Inserting a new element into a sorted sequence keeps it sorted and adds exactly that element. |
| Ordering.SortBy | install.swift:870-885 | `sorted(by:)` on a key is a permutation of its input. |
| Ordering.InsertBy | install.swift:870-885 | Inserting by key adds exactly the element. |
| Ordering.InsertBySorted | install.swift:870-885 | Inserting by key into a key-sorted sequence keeps it key-sorted. |
| Ordering.SortBySorted | install.swift:870-885 | The result of sorting by key is in ascending key order. |
| Ordering.SortByStrict | install.swift:870-885 | With distinct keys the sorted keys are strictly ascending. |
| Ordering.SortByKeysCanonical | install.swift:870-885 | Sorting by key any listing with one record per key gives the keys in ascending order, however the records were gathered. |

## Left out

- Terminal system calls (`tcgetattr`, `tcsetattr`, `read`): the bytes of one read are an input, and the attributes are a record with four flag words and the control-character array. `MenuCursor.readKey`'s own raw-mode switch and its failure message (install.swift:1037-1041, 1132-1183) are folded into "a failed read gives no key".
- Rendering: screen drawing, ANSI sequences, colours, `print`, `fflush` and `usleep` are not modelled. Each screen is a state of the menu models.
- Blocking waits (`waitForEnter`, `Term.confirm`, the confirmation screen's polling loop) are modelled one key per step, with explicit waiting states, not as loops that spin.
- Process spawning, the network and downloads (`verifyDependencies`, `downloadRepository`, `installHooks`, the shell executor): each call is a step whose success a predicate decides. The model records which steps ran.
- File reads and writes: an existing file is an optional text and a template folder is a map from directory name to text. Written text is the result, except the source patchers, which return the list of writes. The intermediate writes of the repair utilities (the file written after the marker is placed) are not modelled, because each is overwritten by the final write.
- The download progress bar (floating point) and its dispatch-queue and semaphore handling (concurrency) are not modelled.
- Swift strings: text is a sequence of characters, not of grapheme clusters. `.newlines` is approximated by `'\n'` alone, so `\r` and U+2028 do not split lines. Whitespace is approximated by space, tab, line feed, carriage return, vertical tab and form feed.
- FullYamlPatch.GeneratePath: plain concatenation stands in for `NSString.appendingPathComponent`, whose slash normalisation (an empty directory, trailing slashes) is not modelled.
- Swift `Set` iteration order is unspecified. Loops over sets take their elements in any order, and every result stated about them holds for every order.
- Ordering.SortBy: `sorted(by:)` is not stable; the model sorts by insertion. Every place the source sorts has distinct keys, and there all sorts give the same result (`Ordering.SortByKeysCanonical`).
- The test scripts' progress messages and the full-patch script's embedded test script: that script's text is a parameter of `SourcePatch.InstallFullPatch`, and what it does is modelled separately by `TestTemplateFix`.
- SourcePatch.InstallFullPatch: the test script is written, but making it executable (`setAttributes` with permissions `0o755`, install-full-patch.swift:176) is not modelled. File attributes are not part of the list of writes.
- TestMultipleTemplates.UpperAscii, TestMultipleTemplates.Capitalized: upper-casing is ASCII-only and keeps the length. Swift's `uppercased()` applies full Unicode case mapping, which also maps non-ASCII letters ("é" to "É") and can make the text longer ("ß" to "SS"). That mapping is not modelled, because it needs Unicode's case tables. The names the test script capitalises (test-multiple-templates.swift:13) are all ASCII, and on those the two agree.
- The verbose warning of `YAMLTemplateProcessor.process` is the `warn` result; the message itself is not modelled.
- Declarations without behaviour (`main.swift`, the package manifests, protocols, configuration constants, the logging classes, `FilePath`, `CommandResult`, the bundle template registry) are not modelled beyond the constants and record fields the modelled code uses.

## Findings

| source | as written | input that shows it | evidently intended | confidence | as-written member | corrected member |
|---|---|---|---|---|---|---|
| Sources/Utils/TerminalHandler.swift:27-43 | `setRawMode` saves the current attributes every time it is called, overwriting those saved before | `init` (raw mode on), then `setRawMode` again, then `deinit`: the saved attributes are the raw ones, so the terminal stays in raw mode with echo off | save the attributes only when none are saved, so `deinit` restores the terminal as found | low: the packaged code calls `setRawMode` only from `init`; not executed | TerminalHandler.NestedRawModeAsWritten | TerminalHandler.NestedRawModeGuarded |
| Sources/Utils/DirectAppendFix.swift:61-73 | the removal cuts from BEGIN to one character past END, but the section it removes was written with a line break in front of BEGIN | a configuration updated once, then updated again with the same templates: every rerun leaves one more empty line above the section | the removal takes off exactly the section the update appended, so a rerun gives the same text | medium: visible on every rerun; not executed | DirectAppendFix.RerunGrows | DirectAppendFix.FixedRerunIdempotent |
| Sources/Utils/DirectAppendFix.swift:65-68 | `index(after: endMarkerRange.upperBound)` is taken without checking that a character follows END | a configuration whose text ends right after `# --- END MANAGED TEMPLATES ---`, with no final line break: the index is past the end and the removal traps | remove through END, and its line break only when there is one | medium: editors that strip the final line break produce this input; not executed | DirectAppendFix.TrapsWhenEndEndsText | DirectAppendFix.FixedWhenEndEndsText |
