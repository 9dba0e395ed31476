/** `YAMLTemplateHandler` of the install-fix script: each template's text has
    its blank end lines and its first comment line (the template's title)
    removed; the rest goes, indented by two spaces, right below the first line
    holding the managed marker, or at the end of the text when there is no
    such line. The configuration file is an optional text and the templates
    are a map from template directory to the text of its `template.yaml`. */
module InstallFix {
  import opened Text
  import opened ConfigText

  /** The title line is dropped when the first kept line is a comment. */
  function DropTitle(ls: seq<string>): (r: seq<string>)
    ensures |ls| > 0 && IsCommentLine(ls[0]) ==> r == ls[1..]
    ensures !(|ls| > 0 && IsCommentLine(ls[0])) ==> r == ls
  {
    if |ls| > 0 && IsCommentLine(ls[0]) then ls[1..] else ls
  }

  /** The text `processTemplate` returns. */
  function ProcessedText(content: string): string {
    Unlines(DropTitle(StripBlankEnds(Lines(content))))
  }

  /** `processTemplate`. */
  method ProcessTemplate(content: string) returns (r: string)
    ensures r == ProcessedText(content)
  {
    var lines := Lines(content);
    lines := TrimBlankLines(lines);
    if |lines| > 0 && HasPrefix(Trim(lines[0]), "#") {
      lines := lines[1..];
    }
    r := Unlines(lines);
  }

  /** The text after one processed template is put in: below the first marker
      line, or appended as the last lines when no line holds the marker. */
  function InsertProcessed(processed: string, config: string): string {
    var ls := Lines(config);
    var block := IndentLines(Lines(processed));
    if FirstLineContaining(ls, Marker).Some? then Unlines(InsertAfterFirst(ls, Marker, block))
    else Unlines(ls + block)
  }

  /** The `for line in lines` loop with its `insertedTemplate` flag and the
      fallback after it. */
  method InsertTemplate(processedTemplate: string, configContent: string) returns (r: string)
    ensures r == InsertProcessed(processedTemplate, configContent)
  {
    var lines := Lines(configContent);
    var templateLines := IndentLines(Lines(processedTemplate));
    var newLines, insertedTemplate := InsertAfterFirstLine(lines, Marker, templateLines);
    if !insertedTemplate {
      newLines := newLines + IndentLines(Lines(processedTemplate));
    }
    r := Unlines(newLines);
  }

  /** What one selected template does: a missing file or an empty processed
      text leaves the text alone. */
  function Apply(config: string, dir: string, templates: map<string, string>): string {
    if dir in templates && ProcessedText(templates[dir]) != "" then
      InsertProcessed(ProcessedText(templates[dir]), config)
    else config
  }

  function Merge(config: string, dirs: seq<string>, templates: map<string, string>): string
    decreases |dirs|
  {
    if |dirs| == 0 then config
    else Apply(Merge(config, dirs[..|dirs| - 1], templates), dirs[|dirs| - 1], templates)
  }

  /** The text `addTemplatesToConfig` writes: the file's text or the default
      one, the marker made sure of, then the templates in selection order. */
  function AddedConfig(existing: Option<string>, dirs: seq<string>, templates: map<string, string>): string {
    Merge(EnsureMarker(ReadOrDefault(existing)), dirs, templates)
  }

  method AddTemplatesToConfig(existing: Option<string>, selectedTemplates: seq<string>, templates: map<string, string>)
    returns (configContent: string)
    ensures configContent == AddedConfig(existing, selectedTemplates, templates)
  {
    configContent := ReadOrDefault(existing);
    configContent := EnsureMarkerExists(configContent);
    ghost var start := configContent;
    for i := 0 to |selectedTemplates|
      invariant configContent == Merge(start, selectedTemplates[..i], templates)
    {
      MergeStep(start, selectedTemplates, i, templates);
      ghost var before := configContent;
      var templateDir := selectedTemplates[i];
      if templateDir in templates {
        var processedTemplate := ProcessTemplate(templates[templateDir]);
        if processedTemplate != "" {
          configContent := InsertTemplate(processedTemplate, configContent);
        }
      }
      assert configContent == Apply(before, templateDir, templates);
    }
    assert selectedTemplates[..|selectedTemplates|] == selectedTemplates;
  }

  /** One more selected template is one more `Apply`. */
  lemma MergeStep(config: string, dirs: seq<string>, i: nat, templates: map<string, string>)
    requires i < |dirs|
    ensures Merge(config, dirs[..i + 1], templates) == Apply(Merge(config, dirs[..i], templates), dirs[i], templates)
  {
    assert dirs[..i + 1][..i] == dirs[..i];
  }

  // ---------------------------------------------------------------------------
  // Properties

  /** The processed text's lines are the template's lines with the blank ends
      and the title comment removed; the text is empty exactly when nothing
      but blank lines and at most a title is left. */
  lemma ProcessedTextShape(content: string)
    ensures var ls := StripBlankEnds(Lines(content));
      ProcessedText(content) == "" <==> (|ls| == 0 || (|ls| == 1 && IsCommentLine(ls[0])))
    ensures ProcessedText(content) != "" ==>
      Lines(ProcessedText(content)) == DropTitle(StripBlankEnds(Lines(content)))
  {
    var ls := StripBlankEnds(Lines(content));
    StrippedOneLineEach(Lines(content));
    StripBlankEndsShape(Lines(content));
    var d := DropTitle(ls);
    TitleDropped(ls);
    if |d| > 0 {
      JoinedNonEmpty(d);
    }
  }

  /** Stripping blank ends keeps lines free of line breaks. */
  lemma StrippedOneLineEach(all: seq<string>)
    requires NoNewlines(all)
    ensures NoNewlines(StripBlankEnds(all))
  {
    var a, b := KeptBounds(all);
    NoNewlinesSlice(all, a, b);
  }

  /** Dropping the title of lines with non-blank ends leaves lines with a
      non-empty last one, and nothing exactly when at most a title was there. */
  lemma TitleDropped(ls: seq<string>)
    requires NoNewlines(ls)
    requires |ls| == 0 || (!IsBlank(ls[0]) && !IsBlank(ls[|ls| - 1]))
    ensures NoNewlines(DropTitle(ls))
    ensures |DropTitle(ls)| == 0 <==> (|ls| == 0 || (|ls| == 1 && IsCommentLine(ls[0])))
    ensures |DropTitle(ls)| > 0 ==> DropTitle(ls)[|DropTitle(ls)| - 1] != ""
  {
    var d := DropTitle(ls);
    if |ls| > 0 && IsCommentLine(ls[0]) {
      NoNewlinesSlice(ls, 1, |ls|);
      assert d == ls[1..|ls|];
    }
    if |d| > 0 {
      assert d[|d| - 1] == ls[|ls| - 1];
      assert !IsBlank(ls[|ls| - 1]);
    }
  }

  /** Lines whose last one is not empty join to a non-empty text that splits
      back into them. */
  lemma JoinedNonEmpty(d: seq<string>)
    requires NoNewlines(d) && |d| > 0 && d[|d| - 1] != ""
    ensures Unlines(d) != "" && Lines(Unlines(d)) == d
  {
    LinesUnlines(d);
    if |d| > 1 {
      assert Unlines(d) == d[0] + "\n" + Unlines(d[1..]);
    }
  }

  /** A title-only template is skipped; its comment line never reaches the
      configuration. */
  lemma TitleOnlySkipped(title: string)
    requires '\n' !in title && IsCommentLine(title)
    ensures ProcessedText(title) == ""
  {
    NoNewlineNoOccurrence(title);
    SplitOnAbsent(title, "\n");
    assert Lines(title) == [title];
    assert !IsBlank(title) by {
      assert Trim(title) != "";
    }
  }

  /** With the marker first found on line `k`, the processed lines come right
      after it, indented, and every other line is kept in order. */
  lemma InsertedBelowMarker(processed: string, config: string, k: nat)
    requires FirstLineContaining(Lines(config), Marker) == Some(k)
    ensures var ls := Lines(config);
      Lines(InsertProcessed(processed, config)) == ls[..k + 1] + IndentLines(Lines(processed)) + ls[k + 1..]
    ensures FirstLineContaining(Lines(InsertProcessed(processed, config)), Marker) == Some(k)
  {
    IndentLinesOneLine(Lines(processed));
    InsertedAfterFirstLines(config, Marker, IndentLines(Lines(processed)), k);
  }

  /** Without a marker line the processed lines are appended with no
      separating empty line. */
  lemma AppendedWithoutMarker(processed: string, config: string)
    requires FirstLineContaining(Lines(config), Marker).None?
    ensures Lines(InsertProcessed(processed, config)) == Lines(config) + IndentLines(Lines(processed))
  {
    var ls := Lines(config);
    IndentLinesOneLine(Lines(processed));
    NoNewlinesConcat(ls, IndentLines(Lines(processed)));
    LinesUnlines(ls + IndentLines(Lines(processed)));
  }

  /** The lines a selected template adds below the marker. */
  function Block(dir: string, templates: map<string, string>): seq<string> {
    if dir in templates && ProcessedText(templates[dir]) != "" then
      IndentLines(Lines(ProcessedText(templates[dir])))
    else []
  }

  /** All blocks as they end up below the marker: the last selected on top. */
  function Stack(dirs: seq<string>, templates: map<string, string>): seq<string>
    decreases |dirs|
  {
    if |dirs| == 0 then [] else Block(dirs[|dirs| - 1], templates) + Stack(dirs[..|dirs| - 1], templates)
  }

  lemma {:induction false} MergeLayout(config: string, dirs: seq<string>, templates: map<string, string>, k: nat)
    requires FirstLineContaining(Lines(config), Marker) == Some(k)
    ensures var ls := Lines(config);
      Lines(Merge(config, dirs, templates)) == ls[..k + 1] + Stack(dirs, templates) + ls[k + 1..]
    ensures FirstLineContaining(Lines(Merge(config, dirs, templates)), Marker) == Some(k)
    decreases |dirs|
  {
    var ls := Lines(config);
    if |dirs| == 0 {
      SpliceNothing(ls, k);
    } else {
      var n := |dirs| - 1;
      var d := dirs[n];
      var prev := Merge(config, dirs[..n], templates);
      var st := Stack(dirs[..n], templates);
      assert Lines(prev) == ls[..k + 1] + st + ls[k + 1..] && FirstLineContaining(Lines(prev), Marker) == Some(k) by {
        MergeLayout(config, dirs[..n], templates, k);
      }
      if d in templates && ProcessedText(templates[d]) != "" {
        var p := ProcessedText(templates[d]);
        assert Merge(config, dirs, templates) == InsertProcessed(p, prev);
        assert Stack(dirs, templates) == IndentLines(Lines(p)) + st;
        InsertedBelowMarker(p, prev, k);
        SpliceTwice(ls, st, IndentLines(Lines(p)), k);
      } else {
        assert Merge(config, dirs, templates) == prev;
        assert Stack(dirs, templates) == st;
      }
    }
  }

  /** `addTemplatesToConfig` always finds the marker, so every template lands
      right below the first marker line, the last selected on top, and every
      other line of the text is kept. */
  lemma AddedLayout(existing: Option<string>, dirs: seq<string>, templates: map<string, string>)
    ensures var ls := Lines(EnsureMarker(ReadOrDefault(existing)));
      FirstLineContaining(ls, Marker).Some? &&
      Lines(AddedConfig(existing, dirs, templates)) ==
        ls[..FirstLineContaining(ls, Marker).value + 1] + Stack(dirs, templates) +
        ls[FirstLineContaining(ls, Marker).value + 1..]
  {
    var start := EnsureMarker(ReadOrDefault(existing));
    EnsureMarkerIdempotent(ReadOrDefault(existing));
    MarkerLineExists(start);
    MergeLayout(start, dirs, templates, FirstLineContaining(Lines(start), Marker).value);
  }

  /** Running the script again on its own output inserts every block again. */
  lemma RerunRepeatsBlocks(existing: Option<string>, dirs: seq<string>, templates: map<string, string>)
    ensures var once := AddedConfig(existing, dirs, templates);
      |Lines(AddedConfig(Some(once), dirs, templates))| == |Lines(once)| + |Stack(dirs, templates)|
  {
    var once := AddedConfig(existing, dirs, templates);
    var start := EnsureMarker(ReadOrDefault(existing));
    EnsureMarkerIdempotent(ReadOrDefault(existing));
    MarkerLineExists(start);
    var k := FirstLineContaining(Lines(start), Marker).value;
    MergeLayout(start, dirs, templates, k);
    UnlinesLines(once);
    LineContainsImpliesContains(Lines(once), k, Marker);
    assert ReadOrDefault(Some(once)) == once;
    assert EnsureMarker(once) == once;
    MergeLayout(once, dirs, templates, k);
  }
}
