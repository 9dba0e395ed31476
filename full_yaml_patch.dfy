/** `FullYAMLPatchInstaller` and its collaborators: each selected template's
    text is cut into lines, blank lines are trimmed off both ends, and the
    lines are inserted, indented by two spaces, right below the first line
    holding the managed marker. The configuration file is an optional text
    and the templates are a map from template directory to the text of its
    `template.yaml`; a directory missing from the map is a missing file. */
module FullYamlPatch {
  import opened Text
  import opened ConfigText

  // ---------------------------------------------------------------------------
  // YAMLTemplateProcessor

  /** The lines `process` returns: the template's lines with the blank ones at
      both ends removed. */
  function ProcessedLines(content: string): seq<string> {
    StripBlankEnds(Lines(content))
  }

  /** Whether the first line that is neither blank nor a comment starts, once
      trimmed, with `-` (a YAML list entry such as `- repo:`). */
  predicate StartsWithEntry(ls: seq<string>) {
    var j := SkipFrom(ls, 0);
    j < |ls| && HasPrefix(Trim(ls[j]), "-")
  }

  /** `YAMLTemplateProcessor.process`. `warn` is the condition under which the
      verbose processor prints its warning; the lines are returned either way. */
  method Process(content: string) returns (lines: seq<string>, warn: bool)
    ensures lines == ProcessedLines(content)
    ensures warn <==> |lines| > 0 && !StartsWithEntry(lines)
  {
    lines := Lines(content);
    lines := TrimBlankLines(lines);
    var foundFirstRepo := FindFirstRepo(lines);
    warn := !foundFirstRepo && |lines| > 0;
  }

  /** The `for` loop that looks at the first line that is neither blank nor a
      comment and stops there. */
  method FindFirstRepo(lines: seq<string>) returns (foundFirstRepo: bool)
    ensures foundFirstRepo <==> StartsWithEntry(lines)
  {
    foundFirstRepo := false;
    var i := 0;
    while i < |lines|
      invariant 0 <= i <= |lines|
      invariant SkipFrom(lines, i) == SkipFrom(lines, 0)
      invariant !foundFirstRepo
    {
      var trimmed := Trim(lines[i]);
      if !HasPrefix(trimmed, "#") && trimmed != "" {
        if HasPrefix(trimmed, "- repo:") || HasPrefix(trimmed, "-") {
          foundFirstRepo := true;
        }
        break;
      }
      i := i + 1;
    }
  }

  // ---------------------------------------------------------------------------
  // DefaultTemplateContentInserter

  /** `insertTemplate`: the indented block goes right below the first line
      containing `marker`; without such a line it is appended after an empty
      separating line. */
  function InsertTemplateText(block: seq<string>, content: string, marker: string): string {
    var ls := Lines(content);
    if FirstLineContaining(ls, marker).Some? then Unlines(InsertAfterFirst(ls, marker, IndentLines(block)))
    else Unlines(ls + [""] + IndentLines(block))
  }

  method InsertTemplate(templateContent: seq<string>, configContent: string, marker: string)
    returns (r: string)
    ensures r == InsertTemplateText(templateContent, configContent, marker)
  {
    var lines := Lines(configContent);
    var newLines, insertedTemplate := InsertAfterFirstLine(lines, marker, IndentLines(templateContent));
    if !insertedTemplate {
      if |newLines| > 0 {
        newLines := newLines + [""];
      }
      newLines := newLines + IndentLines(templateContent);
    }
    r := Unlines(newLines);
  }

  // ---------------------------------------------------------------------------
  // TemplatePathGenerator

  const TemplatesRoot := "hooks-templates/"
  const TemplateFile := "/template.yaml"

  /** `generatePath`: the `template.yaml` inside the directory's folder under
      `hooks-templates`. The directory name can be read back from the path. */
  function GeneratePath(dir: string): (p: string)
    ensures |p| == |TemplatesRoot| + |dir| + |TemplateFile|
    ensures HasPrefix(p, TemplatesRoot) && HasSuffix(p, TemplateFile)
    ensures p[|TemplatesRoot|..|p| - |TemplateFile|] == dir
  {
    TemplatesRoot + dir + TemplateFile
  }

  /** Different directories give different paths, so no two selected
      templates are read from the same file. */
  lemma GeneratePathInjective(a: string, b: string)
    requires GeneratePath(a) == GeneratePath(b)
    ensures a == b
  {
    var p := GeneratePath(a);
    assert a == p[|TemplatesRoot|..|p| - |TemplateFile|];
  }

  // ---------------------------------------------------------------------------
  // FullYAMLPatchInstaller.updateConfigFile

  /** What one selected template does to the text: a missing or empty file
      leaves it alone, otherwise its processed lines go below the marker. */
  function Apply(config: string, dir: string, templates: map<string, string>): string {
    if dir in templates && templates[dir] != "" then
      InsertTemplateText(ProcessedLines(templates[dir]), config, Marker)
    else config
  }

  /** The templates applied in selection order. */
  function Merge(config: string, dirs: seq<string>, templates: map<string, string>): string
    decreases |dirs|
  {
    if |dirs| == 0 then config
    else Apply(Merge(config, dirs[..|dirs| - 1], templates), dirs[|dirs| - 1], templates)
  }

  /** The text `updateConfigFile` writes and returns. */
  function UpdateConfig(existing: Option<string>, dirs: seq<string>, templates: map<string, string>): string {
    Merge(EnsureMarker(ReadOrDefault(existing)), dirs, templates)
  }

  method UpdateConfigFile(existing: Option<string>, selectedTemplates: seq<string>, templates: map<string, string>)
    returns (configContent: string)
    ensures configContent == UpdateConfig(existing, selectedTemplates, templates)
  {
    configContent := ReadOrDefault(existing);
    configContent := EnsureMarkerExists(configContent);
    ghost var start := configContent;
    for i := 0 to |selectedTemplates|
      invariant configContent == Merge(start, selectedTemplates[..i], templates)
    {
      assert selectedTemplates[..i + 1][..i] == selectedTemplates[..i];
      var templateDir := selectedTemplates[i];
      if templateDir in templates {
        var templateContent := templates[templateDir];
        if templateContent != "" {
          var processedLines, _ := Process(templateContent);
          configContent := InsertTemplate(processedLines, configContent, Marker);
        }
      }
    }
    assert selectedTemplates[..|selectedTemplates|] == selectedTemplates;
  }

  // ---------------------------------------------------------------------------
  // Properties

  /** The processed lines are a run of the template's lines with only blank
      lines cut away, they start and end with a non-blank line, and
      processing their text again gives them back. */
  lemma ProcessedLinesShape(content: string)
    ensures var r := ProcessedLines(content);
      NoNewlines(r) && (|r| == 0 || (!IsBlank(r[0]) && !IsBlank(r[|r| - 1])))
    ensures var r := ProcessedLines(content);
      |r| > 0 ==> ProcessedLines(Unlines(r)) == r
  {
    var ls := Lines(content);
    StripBlankEndsShape(ls);
    var r := StripBlankEnds(ls);
    var a: nat, b: nat :| KeptRun(ls, r, a, b);
    NoNewlinesSlice(ls, a, b);
    if |r| > 0 {
      LinesUnlines(r);
      StripBlankEndsIdempotent(ls);
    }
  }

  /** The `- repo:` test in the entry check adds nothing to the `-` test. */
  lemma RepoEntryIsListEntry(trimmed: string)
    requires HasPrefix(trimmed, "- repo:")
    ensures HasPrefix(trimmed, "-")
  {
    assert trimmed[0] == "- repo:"[0];
  }

  /** With the marker first found on line `k`, the block's indented lines come
      right after line `k`, every other line is kept in order, and line `k`
      stays the first one holding the marker. */
  lemma InsertedBelowMarker(block: seq<string>, content: string, marker: string, k: nat)
    requires NoNewlines(block)
    requires FirstLineContaining(Lines(content), marker) == Some(k)
    ensures var ls := Lines(content);
      Lines(InsertTemplateText(block, content, marker)) == ls[..k + 1] + IndentLines(block) + ls[k + 1..]
    ensures FirstLineContaining(Lines(InsertTemplateText(block, content, marker)), marker) == Some(k)
  {
    IndentLinesOneLine(block);
    InsertedAfterFirstLines(content, marker, IndentLines(block), k);
  }

  /** Without a marker line the block is appended after an empty line. */
  lemma AppendedWithoutMarker(block: seq<string>, content: string, marker: string)
    requires NoNewlines(block)
    requires FirstLineContaining(Lines(content), marker).None?
    ensures Lines(InsertTemplateText(block, content, marker)) == Lines(content) + [""] + IndentLines(block)
  {
    var ls := Lines(content);
    IndentLinesOneLine(block);
    NoNewlinesConcat(ls, [""]);
    NoNewlinesConcat(ls + [""], IndentLines(block));
    LinesUnlines(ls + [""] + IndentLines(block));
  }

  /** Inserting two blocks one after the other leaves the later one on top:
      right below the marker line come the second block, then the first. */
  lemma LaterTemplateAbove(a: seq<string>, b: seq<string>, content: string, marker: string, k: nat)
    requires NoNewlines(a) && NoNewlines(b)
    requires FirstLineContaining(Lines(content), marker) == Some(k)
    ensures var ls := Lines(content);
      Lines(InsertTemplateText(b, InsertTemplateText(a, content, marker), marker)) ==
        ls[..k + 1] + IndentLines(b) + IndentLines(a) + ls[k + 1..]
  {
    var ls := Lines(content);
    var once := InsertTemplateText(a, content, marker);
    InsertedBelowMarker(a, content, marker, k);
    InsertedBelowMarker(b, once, marker, k);
    SpliceTwice(ls, IndentLines(a), IndentLines(b), k);
  }

  /** The lines a selected template adds: its processed lines indented, or
      nothing for a missing or empty file. */
  function Block(dir: string, templates: map<string, string>): seq<string> {
    if dir in templates && templates[dir] != "" then IndentLines(ProcessedLines(templates[dir])) else []
  }

  /** The blocks of all selected templates as they end up below the marker:
      the last selected on top. */
  function Stack(dirs: seq<string>, templates: map<string, string>): seq<string>
    decreases |dirs|
  {
    if |dirs| == 0 then [] else Block(dirs[|dirs| - 1], templates) + Stack(dirs[..|dirs| - 1], templates)
  }

  /** Starting from a text whose first marker line is line `k`, the merge puts
      all blocks right below line `k`, in reverse selection order, and keeps
      every other line. */
  lemma {:induction false} MergeLayout(config: string, dirs: seq<string>, templates: map<string, string>, k: nat)
    requires FirstLineContaining(Lines(config), Marker) == Some(k)
    ensures var ls := Lines(config);
      Lines(Merge(config, dirs, templates)) == ls[..k + 1] + Stack(dirs, templates) + ls[k + 1..]
    ensures FirstLineContaining(Lines(Merge(config, dirs, templates)), Marker) == Some(k)
    decreases |dirs|
  {
    var ls := Lines(config);
    if |dirs| == 0 {
      SpliceNothing(ls, k);
    } else {
      var n := |dirs| - 1;
      var d := dirs[n];
      var prev := Merge(config, dirs[..n], templates);
      var st := Stack(dirs[..n], templates);
      assert Lines(prev) == ls[..k + 1] + st + ls[k + 1..] && FirstLineContaining(Lines(prev), Marker) == Some(k) by {
        MergeLayout(config, dirs[..n], templates, k);
      }
      assert Stack(dirs, templates) == Block(d, templates) + st;
      assert Merge(config, dirs, templates) == Apply(prev, d, templates);
      if d in templates && templates[d] != "" {
        var block := ProcessedLines(templates[d]);
        ProcessedLinesShape(templates[d]);
        assert Merge(config, dirs, templates) == InsertTemplateText(block, prev, Marker);
        assert Stack(dirs, templates) == IndentLines(block) + st;
        InsertedBelowMarker(block, prev, Marker, k);
        SpliceTwice(ls, st, IndentLines(block), k);
      } else {
        assert Merge(config, dirs, templates) == prev;
        assert Stack(dirs, templates) == st;
      }
    }
  }

  /** `updateConfigFile` always finds the marker (it has just made sure of
      it), so every template is inserted below the first marker line in
      reverse selection order, and nothing else of the text changes. */
  lemma UpdateLayout(existing: Option<string>, dirs: seq<string>, templates: map<string, string>)
    ensures var ls := Lines(EnsureMarker(ReadOrDefault(existing)));
      FirstLineContaining(ls, Marker).Some? &&
      Lines(UpdateConfig(existing, dirs, templates)) ==
        ls[..FirstLineContaining(ls, Marker).value + 1] + Stack(dirs, templates) +
        ls[FirstLineContaining(ls, Marker).value + 1..]
  {
    var start := EnsureMarker(ReadOrDefault(existing));
    EnsureMarkerIdempotent(ReadOrDefault(existing));
    MarkerLineExists(start);
    MergeLayout(start, dirs, templates, FirstLineContaining(Lines(start), Marker).value);
  }

  /** Running the update again on its own result inserts every block a second
      time: the update is not idempotent whenever some selected template
      has content. */
  lemma RerunRepeatsBlocks(existing: Option<string>, dirs: seq<string>, templates: map<string, string>)
    ensures var once := UpdateConfig(existing, dirs, templates);
      |Lines(UpdateConfig(Some(once), dirs, templates))| == |Lines(once)| + |Stack(dirs, templates)|
  {
    var once := UpdateConfig(existing, dirs, templates);
    var start := EnsureMarker(ReadOrDefault(existing));
    EnsureMarkerIdempotent(ReadOrDefault(existing));
    MarkerLineExists(start);
    var k := FirstLineContaining(Lines(start), Marker).value;
    MergeLayout(start, dirs, templates, k);
    UnlinesLines(once);
    MarkerLineExists(start);
    LineContainsImpliesContains(Lines(once), k, Marker);
    assert ReadOrDefault(Some(once)) == once;
    assert EnsureMarker(once) == once;
    MergeLayout(once, dirs, templates, k);
  }
}
