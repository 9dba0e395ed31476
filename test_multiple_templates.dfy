/** `MultipleTemplatesHandler` of the multiple-templates script: the same
    cut-and-rebuild merge as `updateConfigFileWithTemplatesFixed`, always
    started from the default text, and the script's check that every requested
    template can be found in the result. */
module TestMultipleTemplates {
  import opened Text
  import opened ConfigText
  import MultipleTemplatesFix

  /** `addTemplatesToConfig`: the default text is written first, so any earlier
      file is ignored. */
  method AddTemplatesToConfig(templateDirs: seq<string>, templates: map<string, string>)
    returns (configContent: string)
    ensures configContent == MultipleTemplatesFix.UpdateConfig(None, templateDirs, templates)
  {
    configContent := DefaultConfig();
    configContent := MultipleTemplatesFix.RewriteConfig(configContent, templateDirs, templates);
  }

  /** `c.uppercased()` for a letter of the ASCII alphabet. */
  function UpperAscii(c: char): (u: char)
    ensures 'a' <= c <= 'z' ==> 'A' <= u <= 'Z' && u as int == c as int - 32
    ensures !('a' <= c <= 'z') ==> u == c
  {
    if 'a' <= c <= 'z' then (c as int - 32) as char else c
  }

  /** `prefix(1).uppercased() + dropFirst()`. */
  function Capitalized(s: string): (r: string)
    ensures |r| == |s| && (|s| > 0 ==> r[1..] == s[1..])
    ensures |s| > 0 ==> r[0] == UpperAscii(s[0])
  {
    if |s| == 0 then "" else [UpperAscii(s[0])] + s[1..]
  }

  const GitHubRepo: string := "repo: https://github.com/"

  /** The heading comment a template is expected to start with. */
  function Heading(template: string): string {
    "# " + Capitalized(template) + " Hook"
  }

  /** The script's test that a template made it into the final text: its
      heading comment occurs, or some GitHub repository entry occurs and the
      template's name occurs somewhere. */
  predicate Detected(content: string, template: string) {
    Contains(content, Heading(template)) || (Contains(content, GitHubRepo) && Contains(content, template))
  }

  /** The verification loop: success stays true only while every template is found. */
  method VerifyTemplates(finalContent: string, testTemplates: seq<string>) returns (success: bool)
    ensures success <==> forall i :: 0 <= i < |testTemplates| ==> Detected(finalContent, testTemplates[i])
  {
    success := true;
    for i := 0 to |testTemplates|
      invariant success <==> forall j :: 0 <= j < i ==> Detected(finalContent, testTemplates[j])
    {
      if !Detected(finalContent, testTemplates[i]) {
        success := false;
      }
    }
  }

  /** A needle that starts with a non-whitespace character makes its line non-blank. */
  lemma ContainsNotBlank(l: string, t: string)
    requires |t| > 0 && !IsWhitespace(t[0]) && Contains(l, t)
    ensures !IsBlank(l)
  {
    var i :| 0 <= i <= |l| && OccursAt(l, t, i);
    assert l[i] == t[0];
  }

  /** A requested template whose file has a line holding its heading comment
      passes the script's check, whatever text the merge started from (the
      script starts from the default text). */
  lemma {:induction false} HeadingDetected(content: string, dirs: seq<string>, templates: map<string, string>,
                                           i: nat, l: string)
    requires i < |dirs| && dirs[i] in templates && templates[dirs[i]] != ""
    requires l in Lines(templates[dirs[i]]) && Contains(l, Heading(dirs[i]))
    ensures Detected(MultipleTemplatesFix.UpdateText(content, dirs, templates), dirs[i])
  {
    var j := HeadingLine(content, dirs, templates, i, l);
    LineContainsImpliesContains(MultipleTemplatesFix.UpdatedLines(content, dirs, templates), j, Heading(dirs[i]));
  }

  /** The line of the merged text that holds the heading comment. */
  lemma HeadingLine(content: string, dirs: seq<string>, templates: map<string, string>, i: nat, l: string)
    returns (j: nat)
    requires i < |dirs| && dirs[i] in templates && templates[dirs[i]] != ""
    requires l in Lines(templates[dirs[i]]) && Contains(l, Heading(dirs[i]))
    ensures var u := MultipleTemplatesFix.UpdatedLines(content, dirs, templates);
      j < |u| && Contains(u[j], Heading(dirs[i]))
  {
    var k := HeadingTemplateLine(dirs, templates, i, l);
    j := TemplateLinePlaced(content, dirs, templates, k);
  }

  /** The template line, indented, that holds the heading comment. */
  lemma HeadingTemplateLine(dirs: seq<string>, templates: map<string, string>, i: nat, l: string)
    returns (k: nat)
    requires i < |dirs| && dirs[i] in templates && templates[dirs[i]] != ""
    requires l in Lines(templates[dirs[i]]) && Contains(l, Heading(dirs[i]))
    ensures var tl := MultipleTemplatesFix.TemplateLines(dirs, templates);
      k < |tl| && Contains(tl[k], Heading(dirs[i]))
  {
    var h := Heading(dirs[i]);
    assert h[0] == '#';
    ContainsNotBlank(l, h);
    MultipleTemplatesFix.TemplateLineKept(dirs, templates, i, l);
    var tl := MultipleTemplatesFix.TemplateLines(dirs, templates);
    k :| 0 <= k < |tl| && tl[k] == Indent(l);
    IndentKeepsNeedle(l, h);
  }

  /** Template line `k` is line `|c| + 1 + k` of the merged text, `c` being the
      cleaned existing lines. */
  lemma TemplateLinePlaced(content: string, dirs: seq<string>, templates: map<string, string>, k: nat)
    returns (j: nat)
    requires k < |MultipleTemplatesFix.TemplateLines(dirs, templates)|
    ensures var u := MultipleTemplatesFix.UpdatedLines(content, dirs, templates);
      j < |u| && u[j] == MultipleTemplatesFix.TemplateLines(dirs, templates)[k]
  {
    var c := MultipleTemplatesFix.CleanedLines(Lines(content));
    var tl := MultipleTemplatesFix.TemplateLines(dirs, templates);
    var u := MultipleTemplatesFix.UpdatedLines(content, dirs, templates);
    assert u == c + [""] + tl;
    j := |c| + 1 + k;
  }

  /** Indenting a line keeps what it contains. */
  lemma IndentKeepsNeedle(l: string, h: string)
    requires Contains(l, h)
    ensures Contains(Indent(l), h)
  {
    ContainsGrows("  ", l, "", h);
    assert "  " + l + "" == Indent(l);
  }
}
