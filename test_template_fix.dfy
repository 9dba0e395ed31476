/** `TemplateHandler` of the template-fix script: one template, trimmed of
    blank lines at both ends, goes indented right below the first marker line,
    after the marker is made sure of. A text without a marker line is left
    alone. */
module TestTemplateFix {
  import opened Text
  import opened ConfigText
  import FullYamlPatch

  /** `processTemplate`: the same trimming of blank end lines as the full-YAML
      processor, without its entry check. */
  method ProcessTemplate(content: string) returns (lines: seq<string>)
    ensures lines == FullYamlPatch.ProcessedLines(content)
  {
    lines := Lines(content);
    lines := TrimBlankLines(lines);
  }

  /** The text the script writes: `template` is the text of the template
      file, or `None` when the file is missing. */
  function AddedConfig(existing: Option<string>, template: Option<string>): string {
    var config := EnsureMarkerAtLine(ReadOrDefault(existing));
    if template.Some? && template.value != "" then
      Unlines(InsertAfterFirst(Lines(config), Marker, IndentLines(FullYamlPatch.ProcessedLines(template.value))))
    else config
  }

  /** `addTemplateToConfig`. */
  method AddTemplateToConfig(existing: Option<string>, template: Option<string>) returns (configContent: string)
    ensures configContent == AddedConfig(existing, template)
  {
    configContent := ReadOrDefault(existing);
    configContent := EnsureMarkerAtLineExists(configContent);
    if template.Some? {
      var templateContent := template.value;
      if templateContent != "" {
        var lines := Lines(configContent);
        var processed := ProcessTemplate(templateContent);
        var newLines, _ := InsertAfterFirstLine(lines, Marker, IndentLines(processed));
        configContent := Unlines(newLines);
      }
    }
  }

  /** The template's trimmed lines land, indented, right below the first
      marker line, and every other line of the text is kept. */
  lemma AddedLayout(existing: Option<string>, template: string)
    requires template != ""
    ensures var ls := Lines(EnsureMarkerAtLine(ReadOrDefault(existing)));
      FirstLineContaining(ls, Marker).Some? &&
      Lines(AddedConfig(existing, Some(template))) ==
        ls[..FirstLineContaining(ls, Marker).value + 1] +
        IndentLines(FullYamlPatch.ProcessedLines(template)) +
        ls[FirstLineContaining(ls, Marker).value + 1..]
  {
    var config := EnsureMarkerAtLine(ReadOrDefault(existing));
    EnsureMarkerAtLineIdempotent(ReadOrDefault(existing));
    MarkerLineExists(config);
    var k := FirstLineContaining(Lines(config), Marker).value;
    var b := IndentLines(FullYamlPatch.ProcessedLines(template));
    assert AddedConfig(existing, Some(template)) == Unlines(InsertAfterFirst(Lines(config), Marker, b));
    assert NoNewlines(b) by {
      FullYamlPatch.ProcessedLinesShape(template);
      IndentLinesOneLine(FullYamlPatch.ProcessedLines(template));
    }
    InsertedAfterFirstLines(config, Marker, b, k);
  }

  /** A missing or empty template file leaves the text with only the marker
      made sure of. */
  lemma MissingTemplateKeepsText(existing: Option<string>, template: Option<string>)
    requires template.None? || template.value == ""
    ensures AddedConfig(existing, template) == EnsureMarkerAtLine(ReadOrDefault(existing))
    ensures Contains(AddedConfig(existing, template), Marker)
  {
    EnsureMarkerAtLineIdempotent(ReadOrDefault(existing));
  }
}
