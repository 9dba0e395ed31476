/** `DirectTemplateAppender` of the direct-append script: the default text is
    written, a BEGIN/END section holding the raw template texts is built the
    same way as `createTemplateSection`, and the section is appended to the
    text read back from the file. */
module TestDirectAppend {
  import opened Text
  import opened ConfigText
  import DirectAppendFix

  /** `appendTemplatesToConfig`: the file is overwritten with the default text
      and read back unchanged, so the result is that text followed by the
      section. */
  method AppendTemplatesToConfig(templateDirs: seq<string>, templates: map<string, string>)
    returns (configContent: string)
    ensures configContent == DefaultConfig() + DirectAppendFix.Section(templateDirs, templates)
  {
    var written := DefaultConfig();
    var templateSection := DirectAppendFix.CreateTemplateSection(templateDirs, templates);
    configContent := written;
    configContent := configContent + templateSection;
  }

  /** Appending keeps the text it starts from as a prefix, ends with the END
      marker on its own line, and holds the text of every template that was
      found. */
  lemma AppendedSection(start: string, dirs: seq<string>, templates: map<string, string>, i: nat)
    requires i < |dirs| && dirs[i] in templates
    ensures var c := start + DirectAppendFix.Section(dirs, templates);
      HasPrefix(c, start) && HasSuffix(c, DirectAppendFix.End + "\n") && Contains(c, templates[dirs[i]])
  {
    var s := DirectAppendFix.Section(dirs, templates);
    ConcatEnds(start, s);
    DirectAppendFix.SectionShape(dirs, templates);
    SuffixOfSuffix(start, s, DirectAppendFix.End + "\n");
    DirectAppendFix.TemplateInSection(dirs, templates, i);
    ContainsExtended(start, s, "", templates[dirs[i]]);
  }
}
