/** `TemplatePreservationHandler` of the complete-fix script: after the
    marker is made sure of (below `repos:`, or below the first line when there
    is no `repos:`), each template goes right below the first marker line as
    an empty separating line followed by the template's non-blank lines, each
    indented by two spaces. A text without a marker line is left alone. */
module TestCompleteFix {
  import opened Text
  import opened ConfigText

  /** The inner loop over the template's lines: blank ones are skipped, the
      others indented. */
  method IndentTemplateLines(templateLines: seq<string>) returns (block: seq<string>)
    ensures block == IndentNonBlank(templateLines)
  {
    block := [];
    for i := 0 to |templateLines|
      invariant block == IndentNonBlank(templateLines[..i])
    {
      assert templateLines[..i + 1][..i] == templateLines[..i];
      var templateLine := templateLines[i];
      if Trim(templateLine) != "" {
        block := block + ["  " + templateLine];
      }
    }
    assert templateLines[..|templateLines|] == templateLines;
  }

  /** What one template adds below the marker. */
  function Block(template: string): seq<string> {
    [""] + IndentNonBlank(Lines(template))
  }

  /** The text after one template is put in. */
  function InsertPreserved(template: string, config: string): string {
    Unlines(InsertAfterFirst(Lines(config), Marker, Block(template)))
  }

  /** The `for line in lines` loop: the block follows the first marker line. */
  method InsertTemplate(templateContent: string, configContent: string) returns (r: string)
    ensures r == InsertPreserved(templateContent, configContent)
  {
    var lines := Lines(configContent);
    var templateLines := IndentTemplateLines(Lines(templateContent));
    var newLines, _ := InsertAfterFirstLine(lines, Marker, [""] + templateLines);
    r := Unlines(newLines);
  }

  /** A missing or empty template file leaves the text alone. */
  function Apply(config: string, dir: string, templates: map<string, string>): string {
    if dir in templates && templates[dir] != "" then InsertPreserved(templates[dir], config) else config
  }

  function Merge(config: string, dirs: seq<string>, templates: map<string, string>): string
    decreases |dirs|
  {
    if |dirs| == 0 then config
    else Apply(Merge(config, dirs[..|dirs| - 1], templates), dirs[|dirs| - 1], templates)
  }

  /** The text `addTemplatesToConfig` writes. */
  function AddedConfig(existing: Option<string>, dirs: seq<string>, templates: map<string, string>): string {
    Merge(EnsureMarkerAtLine(ReadOrDefault(existing)), dirs, templates)
  }

  method AddTemplatesToConfig(existing: Option<string>, templateDirs: seq<string>, templates: map<string, string>)
    returns (configContent: string)
    ensures configContent == AddedConfig(existing, templateDirs, templates)
  {
    configContent := ReadOrDefault(existing);
    configContent := EnsureMarkerAtLineExists(configContent);
    ghost var start := configContent;
    for i := 0 to |templateDirs|
      invariant configContent == Merge(start, templateDirs[..i], templates)
    {
      assert templateDirs[..i + 1][..i] == templateDirs[..i];
      var templateDir := templateDirs[i];
      if templateDir in templates {
        var templateContent := templates[templateDir];
        if templateContent != "" {
          configContent := InsertTemplate(templateContent, configContent);
        }
      }
    }
    assert templateDirs[..|templateDirs|] == templateDirs;
  }

  // ---------------------------------------------------------------------------
  // Properties

  /** A template's block is an empty line, then exactly its non-blank lines
      indented: every such line is there and nothing else is. */
  lemma BlockContents(template: string)
    ensures var b := Block(template);
      |b| >= 1 && b[0] == "" && NoNewlines(b)
    ensures forall l :: l in Lines(template) && !IsBlank(l) ==> Indent(l) in Block(template)
    ensures forall m :: m in Block(template)[1..] ==>
      exists l :: l in Lines(template) && !IsBlank(l) && m == Indent(l)
  {
    var ls := Lines(template);
    IndentNonBlankOneLine(ls);
    NoNewlinesConcat([""], IndentNonBlank(ls));
    assert Block(template)[1..] == IndentNonBlank(ls);
    forall l | l in ls && !IsBlank(l) ensures Indent(l) in Block(template) {
      IndentNonBlankKeeps(ls, l);
    }
    forall m | m in Block(template)[1..] ensures exists l :: l in ls && !IsBlank(l) && m == Indent(l) {
      IndentNonBlankOnly(ls, m);
    }
  }

  /** A text without a marker line is not changed by a template. */
  lemma NoMarkerNoChange(template: string, config: string)
    requires FirstLineContaining(Lines(config), Marker).None?
    ensures InsertPreserved(template, config) == config
  {
    UnlinesLines(config);
  }

  /** All blocks as they end up below the marker: the last selected on top. */
  function Stack(dirs: seq<string>, templates: map<string, string>): seq<string>
    decreases |dirs|
  {
    if |dirs| == 0 then []
    else
      var d := dirs[|dirs| - 1];
      (if d in templates && templates[d] != "" then Block(templates[d]) else []) + Stack(dirs[..|dirs| - 1], templates)
  }

  lemma {:induction false} MergeLayout(config: string, dirs: seq<string>, templates: map<string, string>, k: nat)
    requires FirstLineContaining(Lines(config), Marker) == Some(k)
    ensures var ls := Lines(config);
      Lines(Merge(config, dirs, templates)) == ls[..k + 1] + Stack(dirs, templates) + ls[k + 1..]
    ensures FirstLineContaining(Lines(Merge(config, dirs, templates)), Marker) == Some(k)
    decreases |dirs|
  {
    var ls := Lines(config);
    if |dirs| == 0 {
      SpliceNothing(ls, k);
    } else {
      var n := |dirs| - 1;
      var d := dirs[n];
      var prev := Merge(config, dirs[..n], templates);
      var st := Stack(dirs[..n], templates);
      assert Lines(prev) == ls[..k + 1] + st + ls[k + 1..] && FirstLineContaining(Lines(prev), Marker) == Some(k) by {
        MergeLayout(config, dirs[..n], templates, k);
      }
      if d in templates && templates[d] != "" {
        var b := Block(templates[d]);
        assert Merge(config, dirs, templates) == InsertPreserved(templates[d], prev);
        assert Stack(dirs, templates) == b + st;
        BlockContents(templates[d]);
        InsertedAfterFirstLines(prev, Marker, b, k);
        SpliceTwice(ls, st, b, k);
      } else {
        assert Merge(config, dirs, templates) == prev;
        assert Stack(dirs, templates) == st;
      }
    }
  }

  /** The marker is always there when the templates go in, so each found,
      non-empty template lands right below the first marker line, the last
      selected on top, and every other line of the text is kept. */
  lemma AddedLayout(existing: Option<string>, dirs: seq<string>, templates: map<string, string>)
    ensures var ls := Lines(EnsureMarkerAtLine(ReadOrDefault(existing)));
      FirstLineContaining(ls, Marker).Some? &&
      Lines(AddedConfig(existing, dirs, templates)) ==
        ls[..FirstLineContaining(ls, Marker).value + 1] + Stack(dirs, templates) +
        ls[FirstLineContaining(ls, Marker).value + 1..]
  {
    var start := EnsureMarkerAtLine(ReadOrDefault(existing));
    EnsureMarkerAtLineIdempotent(ReadOrDefault(existing));
    MarkerLineExists(start);
    MergeLayout(start, dirs, templates, FirstLineContaining(Lines(start), Marker).value);
  }
}
