/** `InstallerService.updateConfigFileWithTemplatesFixed`: the configuration
    is cut after its first marker line (or the marker is added), and the
    selected templates' non-blank lines are rebuilt below it. The configuration
    file is an optional text (absent when the file does not exist) and the
    templates are a map from template directory to the text of its
    `template.yaml` (a directory without the file is not a key). */
module MultipleTemplatesFix {
  import opened Text
  import opened ConfigText

  /** `cleanedLines`: the lines through the first marker line; without a
      marker, the lines through `repos:` and its following comment and blank
      lines plus a new marker line; without `repos:` either, every line plus
      `repos:` and the marker. */
  function CleanedLines(ls: seq<string>): seq<string> {
    match FirstLineContaining(ls, Marker)
    case Some(k) => ls[..k + 1]
    case None =>
      match FirstLineContaining(ls, ReposKey)
      case Some(r) => ls[..SkipFrom(ls, r + 1)] + [IndentedMarker]
      case None => ls + [ReposKey, IndentedMarker]
  }

  /** The lines one template contributes, or nothing for a missing or empty file. */
  function Contribution(dir: string, templates: map<string, string>): seq<string> {
    if dir in templates && templates[dir] != "" then IndentNonBlank(Lines(templates[dir])) else []
  }

  /** `allTemplateLines`: the templates' lines in the requested order, an empty
      line between consecutive templates. */
  function TemplateLines(dirs: seq<string>, templates: map<string, string>): seq<string> {
    if |dirs| == 0 then []
    else
      var prev := TemplateLines(dirs[..|dirs| - 1], templates);
      var d := dirs[|dirs| - 1];
      if d in templates && templates[d] != "" then
        prev + (if |prev| > 0 then [""] else []) + Contribution(d, templates)
      else prev
  }

  /** The lines written for the configuration text `content`. */
  function UpdatedLines(content: string, dirs: seq<string>, templates: map<string, string>): seq<string> {
    var tl := TemplateLines(dirs, templates);
    CleanedLines(Lines(content)) + (if |tl| > 0 then [""] + tl else [])
  }

  function UpdateText(content: string, dirs: seq<string>, templates: map<string, string>): string {
    Unlines(UpdatedLines(content, dirs, templates))
  }

  /** The text written for the configuration file, the default one when it is absent. */
  function UpdateConfig(existing: Option<string>, dirs: seq<string>, templates: map<string, string>): string {
    UpdateText(ReadOrDefault(existing), dirs, templates)
  }

  /** The configuration cut after its first marker line, or given a marker line. */
  method CleanConfigLines(lines: seq<string>) returns (cleanedLines: seq<string>)
    ensures cleanedLines == CleanedLines(lines)
  {
    cleanedLines := [];
    var markerIndex := -1;
    var index := 0;
    while index < |lines|
      invariant 0 <= index <= |lines|
      invariant markerIndex == -1 && cleanedLines == lines[..index]
      invariant forall j :: 0 <= j < index ==> !Contains(lines[j], Marker)
    {
      if Contains(lines[index], Marker) {
        FirstLineContainingIs(lines, Marker, index);
        markerIndex := index;
        cleanedLines := cleanedLines + [lines[index]];
        assert lines[..index + 1] == lines[..index] + [lines[index]];
        break;
      }
      cleanedLines := cleanedLines + [lines[index]];
      assert lines[..index + 1] == lines[..index] + [lines[index]];
      index := index + 1;
    }
    if markerIndex == -1 {
      assert lines[..index] == lines;
      var found := FirstLineContaining(lines, ReposKey);
      var reposLineIndex := if found.Some? then found.value as int else -1;
      if reposLineIndex != -1 {
        var insertLineIndex := SkipCommentsAndBlanks(lines, reposLineIndex + 1);
        cleanedLines := lines[..insertLineIndex] + [IndentedMarker];
      } else {
        cleanedLines := cleanedLines + [ReposKey, IndentedMarker];
      }
    }
  }

  /** The inner loop: the template's non-blank lines, indented, go after `acc`. */
  method AppendTemplateLines(acc: seq<string>, templateLines: seq<string>) returns (r: seq<string>)
    ensures r == acc + IndentNonBlank(templateLines)
  {
    r := acc;
    var i := 0;
    while i < |templateLines|
      invariant 0 <= i <= |templateLines|
      invariant r == acc + IndentNonBlank(templateLines[..i])
    {
      assert templateLines[..i + 1][..i] == templateLines[..i];
      if Trim(templateLines[i]) != "" {
        r := r + ["  " + templateLines[i]];
      }
      i := i + 1;
    }
    assert templateLines[..i] == templateLines;
  }

  /** The selected templates' lines, read in order and separated by empty lines. */
  method CollectTemplateLines(selectedTemplates: seq<string>, templates: map<string, string>)
    returns (allTemplateLines: seq<string>)
    ensures allTemplateLines == TemplateLines(selectedTemplates, templates)
  {
    allTemplateLines := [];
    var t := 0;
    while t < |selectedTemplates|
      invariant 0 <= t <= |selectedTemplates|
      invariant allTemplateLines == TemplateLines(selectedTemplates[..t], templates)
    {
      var templateDir := selectedTemplates[t];
      assert selectedTemplates[..t + 1][..t] == selectedTemplates[..t];
      if templateDir in templates {
        var templateContent := templates[templateDir];
        if templateContent != "" {
          if |allTemplateLines| > 0 {
            allTemplateLines := allTemplateLines + [""];
          }
          allTemplateLines := AppendTemplateLines(allTemplateLines, Lines(templateContent));
        }
      }
      t := t + 1;
    }
    assert selectedTemplates[..t] == selectedTemplates;
  }

  /** Rewrites the text of a configuration for the selected templates. */
  method RewriteConfig(configText: string, selectedTemplates: seq<string>, templates: map<string, string>)
    returns (configContent: string)
    ensures configContent == UpdateText(configText, selectedTemplates, templates)
  {
    var lines := Lines(configText);
    var cleanedLines := CleanConfigLines(lines);
    var allTemplateLines := CollectTemplateLines(selectedTemplates, templates);
    ghost var tail := if |allTemplateLines| > 0 then [""] + allTemplateLines else [];
    ghost var expected := cleanedLines + tail;
    if |allTemplateLines| > 0 {
      cleanedLines := cleanedLines + [""] + allTemplateLines;
    }
    assert cleanedLines == expected;
    configContent := Unlines(cleanedLines);
  }

  /** `updateConfigFileWithTemplatesFixed`: the existing configuration, or the
      default one, rewritten for the selected templates. */
  method UpdateConfigFileWithTemplatesFixed(existing: Option<string>, selectedTemplates: seq<string>,
                                            templates: map<string, string>)
    returns (configContent: string)
    ensures configContent == UpdateConfig(existing, selectedTemplates, templates)
  {
    var configText := if existing.Some? then existing.value else DefaultConfig();
    configContent := RewriteConfig(configText, selectedTemplates, templates);
  }

  // ---------------------------------------------------------------------------
  // Properties

  /** The cleaned lines end with a marker line, and no earlier line has the
      marker. */
  lemma CleanedLinesEndAtMarker(ls: seq<string>)
    requires NoNewlines(ls)
    ensures var c := CleanedLines(ls);
      |c| >= 1 && Contains(c[|c| - 1], Marker) &&
      (forall j :: 0 <= j < |c| - 1 ==> !Contains(c[j], Marker)) &&
      NoNewlines(c)
  {
    var c := CleanedLines(ls);
    var m := FirstLineContaining(ls, Marker);
    if m.Some? {
      assert c == ls[..m.value + 1];
    } else {
      IndentedMarkerHasMarker();
      IndentedMarkerOneLine();
      var rp := FirstLineContaining(ls, ReposKey);
      if rp.Some? {
        var j := SkipFrom(ls, rp.value + 1);
        assert c == ls[..j] + [IndentedMarker];
        assert forall i :: 0 <= i < j ==> c[i] == ls[i];
      } else {
        TooLongToContain(ReposKey, Marker);
        assert c == ls + [ReposKey, IndentedMarker];
        assert forall i :: 0 <= i < |ls| ==> c[i] == ls[i];
        assert '\n' !in ReposKey;
      }
    }
  }

  lemma {:induction false} TemplateLinesOneLine(dirs: seq<string>, templates: map<string, string>)
    ensures NoNewlines(TemplateLines(dirs, templates))
  {
    if |dirs| > 0 {
      TemplateLinesOneLine(dirs[..|dirs| - 1], templates);
      var d := dirs[|dirs| - 1];
      if d in templates && templates[d] != "" {
        IndentNonBlankOneLine(Lines(templates[d]));
      }
    }
  }

  /** Lines that end at their only marker line are kept whole by the cut,
      whatever follows them. */
  lemma CutAtMarker(c: seq<string>, tail: seq<string>)
    requires |c| >= 1 && Contains(c[|c| - 1], Marker)
    requires forall j :: 0 <= j < |c| - 1 ==> !Contains(c[j], Marker)
    ensures CleanedLines(c + tail) == c
  {
    var u := c + tail;
    forall j | 0 <= j < |c| - 1 ensures !Contains(u[j], Marker) {
      assert u[j] == c[j];
    }
    assert u[|c| - 1] == c[|c| - 1];
    FirstLineContainingIs(u, Marker, |c| - 1);
    assert u[..|c|] == c;
  }

  lemma UpdatedLinesOneLine(content: string, dirs: seq<string>, templates: map<string, string>)
    ensures NoNewlines(UpdatedLines(content, dirs, templates))
  {
    var ls := Lines(content);
    var c := CleanedLines(ls);
    var tl := TemplateLines(dirs, templates);
    var u := UpdatedLines(content, dirs, templates);
    CleanedLinesEndAtMarker(ls);
    TemplateLinesOneLine(dirs, templates);
    forall k | 0 <= k < |u| ensures '\n' !in u[k] {
      if k < |c| {
        assert u[k] == c[k];
      } else if k > |c| {
        assert u[k] == tl[k - |c| - 1];
      }
    }
  }

  /** Rewriting an already rewritten configuration with the same templates
      gives the same text: the old template lines below the marker are cut and
      rebuilt. */
  lemma UpdateTextIdempotent(content: string, dirs: seq<string>, templates: map<string, string>)
    ensures UpdateText(UpdateText(content, dirs, templates), dirs, templates) == UpdateText(content, dirs, templates)
  {
    var ls := Lines(content);
    var c := CleanedLines(ls);
    var tl := TemplateLines(dirs, templates);
    var tail := if |tl| > 0 then [""] + tl else [];
    var u := UpdatedLines(content, dirs, templates);
    assert u == c + tail;
    CleanedLinesEndAtMarker(ls);
    UpdatedLinesOneLine(content, dirs, templates);
    LinesUnlines(u);
    CutAtMarker(c, tail);
    assert UpdatedLines(Unlines(u), dirs, templates) == u;
  }

  /** The same, for the configuration file: a second run with the same
      selection writes the text the first run wrote. */
  lemma UpdateIdempotent(existing: Option<string>, dirs: seq<string>, templates: map<string, string>)
    ensures UpdateConfig(Some(UpdateConfig(existing, dirs, templates)), dirs, templates) ==
      UpdateConfig(existing, dirs, templates)
  {
    UpdateTextIdempotent(ReadOrDefault(existing), dirs, templates);
  }

  /** A marker already present keeps every line up to and including the first
      marker line, unchanged and in order, at the top of the result; the lines
      after it are replaced by the template lines. */
  lemma MarkerKeepsPrefix(content: string, dirs: seq<string>, templates: map<string, string>, k: nat)
    requires FirstLineContaining(Lines(content), Marker) == Some(k)
    ensures var ls := Lines(content);
      var u := UpdatedLines(content, dirs, templates);
      |u| > k && u[..k + 1] == ls[..k + 1] &&
      (forall j :: k < j < |u| ==> u[j] == "" || IndentedLine(u[j]))
  {
    var ls := Lines(content);
    var tl := TemplateLines(dirs, templates);
    TemplateLinesShape(dirs, templates);
    var u := UpdatedLines(content, dirs, templates);
    assert CleanedLines(ls) == ls[..k + 1];
    forall j | k < j < |u| ensures u[j] == "" || IndentedLine(u[j]) {
      if j > k + 1 {
        assert u[j] == tl[j - k - 2];
      }
    }
  }

  /** Without a marker, the marker line lands after the `repos:` line and its
      following comment and blank lines; every later line of the old text is
      dropped. */
  lemma MarkerAfterRepos(ls: seq<string>, r: nat)
    requires FirstLineContaining(ls, Marker).None? && FirstLineContaining(ls, ReposKey) == Some(r)
    ensures var j := SkipFrom(ls, r + 1);
      var c := CleanedLines(ls);
      |c| == j + 1 && c[..j] == ls[..j] && c[j] == IndentedMarker &&
      (forall i :: r < i < j ==> Skippable(ls[i])) && (j < |ls| ==> !Skippable(ls[j]))
  {
    var j := SkipFrom(ls, r + 1);
    assert CleanedLines(ls) == ls[..j] + [IndentedMarker];
  }

  /** Without a marker or a `repos:` line, every line is kept and `repos:` and
      the marker line follow. */
  lemma MarkerAndReposAppended(ls: seq<string>)
    requires FirstLineContaining(ls, Marker).None? && FirstLineContaining(ls, ReposKey).None?
    ensures var c := CleanedLines(ls);
      |c| == |ls| + 2 && c[..|ls|] == ls && c[|ls|] == ReposKey && c[|ls| + 1] == IndentedMarker
  {
  }

  /** Every template line is empty (the separators) or two spaces followed by a
      non-blank line. */
  lemma {:induction false} TemplateLinesShape(dirs: seq<string>, templates: map<string, string>)
    ensures forall j :: 0 <= j < |TemplateLines(dirs, templates)| ==>
      TemplateLines(dirs, templates)[j] == "" || IndentedLine(TemplateLines(dirs, templates)[j])
  {
    if |dirs| > 0 {
      var prev := TemplateLines(dirs[..|dirs| - 1], templates);
      TemplateLinesShape(dirs[..|dirs| - 1], templates);
      var d := dirs[|dirs| - 1];
      if d in templates && templates[d] != "" {
        var sep: seq<string> := if |prev| > 0 then [""] else [];
        var add := IndentNonBlank(Lines(templates[d]));
        var tl := TemplateLines(dirs, templates);
        assert tl == prev + sep + add;
        forall j | 0 <= j < |tl| ensures tl[j] == "" || IndentedLine(tl[j]) {
          if j < |prev| {
            assert tl[j] == prev[j];
          } else if j < |prev| + |sep| {
            assert tl[j] == "";
          } else {
            assert tl[j] == add[j - |prev| - |sep|];
          }
        }
      }
    }
  }

  /** An empty line follows the marker exactly when some template contributed
      lines; otherwise the result ends with the marker line. */
  lemma NothingAfterMarkerWithoutTemplates(content: string, dirs: seq<string>, templates: map<string, string>)
    ensures var c := CleanedLines(Lines(content));
      var u := UpdatedLines(content, dirs, templates);
      (TemplateLines(dirs, templates) == [] ==> u == c) &&
      (TemplateLines(dirs, templates) != [] ==> |u| > |c| && u[|c|] == "")
  {
  }

  /** A requested directory without a template file, or with an empty file,
      contributes nothing and does not disturb the others. */
  lemma MissingTemplateSkipped(dirs: seq<string>, d: string, templates: map<string, string>)
    requires d !in templates || templates[d] == ""
    ensures TemplateLines(dirs + [d], templates) == TemplateLines(dirs, templates)
  {
    assert (dirs + [d])[..|dirs|] == dirs;
  }

  /** Two templates that both contribute lines are separated by exactly one
      empty line. */
  lemma TemplatesSeparated(dirs: seq<string>, d: string, templates: map<string, string>)
    requires d in templates && templates[d] != ""
    requires TemplateLines(dirs, templates) != []
    ensures TemplateLines(dirs + [d], templates) ==
      TemplateLines(dirs, templates) + [""] + IndentNonBlank(Lines(templates[d]))
  {
    assert (dirs + [d])[..|dirs|] == dirs;
  }

  /** Every non-blank line of every requested template appears, indented by two
      spaces, among the written lines. */
  lemma {:induction false} TemplateLineKept(dirs: seq<string>, templates: map<string, string>, i: nat, l: string)
    requires i < |dirs| && dirs[i] in templates && templates[dirs[i]] != ""
    requires l in Lines(templates[dirs[i]]) && !IsBlank(l)
    ensures Indent(l) in TemplateLines(dirs, templates)
  {
    var n := |dirs| - 1;
    if i == n {
      IndentNonBlankKeeps(Lines(templates[dirs[i]]), l);
    } else {
      assert dirs[..n][i] == dirs[i];
      TemplateLineKept(dirs[..n], templates, i, l);
    }
  }
}
