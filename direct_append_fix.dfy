/** The direct-append merge (`DirectTemplateAppender.updateConfig`): an earlier
    BEGIN/END section is cut out of the configuration and a fresh section
    holding the raw template texts is appended. The configuration file is an
    optional text and the templates are a map from template directory to the
    text of its `template.yaml`. */
module DirectAppendFix {
  import opened Text
  import opened ConfigText

  const Begin: string := "# --- BEGIN MANAGED TEMPLATES ---"
  const End: string := "# --- END MANAGED TEMPLATES ---"

  /** `readOrCreateConfig`: the file's text, or the default text when it is absent. */
  function ReadOrCreateConfig(existing: Option<string>): (r: string)
    ensures existing.Some? ==> r == existing.value
    ensures existing.None? ==> r == Unlines(DefaultConfigLines)
  {
    ReadOrDefault(existing)
  }

  /** `removeExistingTemplateSection` for section markers `bm` and `em`: with
      both present, the text from the first `bm` through the character after
      the first `em` is removed. `None` is the run-time trap of
      `index(after:)` past the end of the text, or of a range whose bounds are
      reversed. */
  function RemoveSection(content: string, bm: string, em: string): (r: Option<string>)
    ensures !(Contains(content, bm) && Contains(content, em)) ==> r == Some(content)
    ensures Contains(content, bm) && Contains(content, em) ==>
      var b := IndexOf(content, bm).value;
      var e := IndexOf(content, em).value;
      (r.None? <==> (e + |em| == |content| || b > e + |em| + 1)) &&
      (r.Some? ==> r.value == content[..b] + content[e + |em| + 1..])
  {
    match IndexOf(content, bm)
    case None => Some(content)
    case Some(b) =>
      match IndexOf(content, em)
      case None => Some(content)
      case Some(e) =>
        var hi := e + |em| + 1;
        if hi > |content| || b > hi then None
        else Some(content[..b] + content[hi..])
  }

  /** `removeExistingTemplateSection` with the BEGIN and END markers. */
  function RemoveExistingTemplateSection(content: string): Option<string> {
    RemoveSection(content, Begin, End)
  }

  /** What one template adds to the section: its text, and a line break when it
      does not already end with one; nothing when its file is missing. */
  function Piece(dir: string, templates: map<string, string>): (p: string)
  {
    if dir in templates then
      var t := templates[dir];
      if HasSuffix(t, "\n") then t else t + "\n"
    else ""
  }

  /** A found template's piece is its text, then a line break exactly when the
      text does not already end with one. */
  lemma PieceShape(dir: string, templates: map<string, string>)
    requires dir in templates
    ensures var t := templates[dir];
      var p := Piece(dir, templates);
      p[..|t|] == t && p[|p| - 1] == '\n' && (|p| == |t| <==> HasSuffix(t, "\n"))
  {
  }

  /** The templates' texts in request order. */
  function Body(dirs: seq<string>, templates: map<string, string>): string {
    if |dirs| == 0 then "" else Body(dirs[..|dirs| - 1], templates) + Piece(dirs[|dirs| - 1], templates)
  }

  /** The section `createTemplateSection` builds. */
  function Section(dirs: seq<string>, templates: map<string, string>): string {
    "\n" + (Begin + ("\n" + (Body(dirs, templates) + (End + "\n"))))
  }

  /** `createTemplateSection`. */
  method CreateTemplateSection(templateDirs: seq<string>, templates: map<string, string>)
    returns (templateSection: string)
    ensures templateSection == Section(templateDirs, templates)
  {
    ghost var head := "\n" + Begin + "\n";
    templateSection := "\n" + Begin + "\n";
    for i := 0 to |templateDirs|
      invariant templateSection == head + Body(templateDirs[..i], templates)
    {
      assert templateDirs[..i + 1][..i] == templateDirs[..i];
      ghost var before := Body(templateDirs[..i], templates);
      var templateDir := templateDirs[i];
      if templateDir in templates {
        var templateContent := templates[templateDir];
        templateSection := templateSection + templateContent;
        if !HasSuffix(templateContent, "\n") {
          templateSection := templateSection + "\n";
          Regroup(head, before, templateContent, "\n");
        } else {
          Regroup(head, before, templateContent, "");
        }
      }
    }
    assert templateDirs[..|templateDirs|] == templateDirs;
    templateSection := templateSection + End + "\n";
    SectionOf(Body(templateDirs, templates));
  }

  /** The section around a given body, written left to right. */
  lemma SectionOf(body: string)
    ensures "\n" + Begin + "\n" + body + End + "\n" == "\n" + (Begin + ("\n" + (body + (End + "\n"))))
  {
  }

  /** `updateConfig` as written: `None` when the removal traps. */
  function UpdateText(content: string, dirs: seq<string>, templates: map<string, string>): (r: Option<string>)
    ensures r.None? <==> RemoveExistingTemplateSection(content).None?
    ensures r.Some? ==> r.value == RemoveExistingTemplateSection(content).value + Section(dirs, templates)
  {
    match RemoveExistingTemplateSection(content)
    case None => None
    case Some(rest) => Some(rest + Section(dirs, templates))
  }

  function UpdateConfig(existing: Option<string>, dirs: seq<string>, templates: map<string, string>): Option<string> {
    UpdateText(ReadOrCreateConfig(existing), dirs, templates)
  }

  /** `updateConfig` as a method over the file's text. */
  method UpdateConfigFile(existing: Option<string>, templates: seq<string>, templateTexts: map<string, string>)
    returns (configContent: Option<string>)
    ensures configContent == UpdateConfig(existing, templates, templateTexts)
  {
    var text := ReadOrCreateConfig(existing);
    var rest := RemoveExistingTemplateSection(text);
    if rest.None? {
      return None;
    }
    var templateSection := CreateTemplateSection(templates, templateTexts);
    configContent := Some(rest.value + templateSection);
  }

  // ---------------------------------------------------------------------------
  // The corrected removal

  /** The removal as evidently intended, for markers `bm` and `em`: the line
      break written in front of `bm` goes with the section, and an `em` at the
      very end of the text does not trap. A text whose first `em` precedes its
      first `bm` is left alone. */
  function RemoveSectionFixedFor(content: string, bm: string, em: string): (r: string)
    requires |em| > 0
    ensures !(Contains(content, bm) && Contains(content, em)) ==> r == content
    ensures |r| <= |content|
  {
    match IndexOf(content, bm)
    case None => content
    case Some(b) =>
      match IndexOf(content, em)
      case None => content
      case Some(e) => if b > e then content else CutSection(content, b, e, |em|)
  }

  /** The text without the section from `b` to the end `e + n` of the closing
      marker, the line break in front of `b` and the one after the marker
      included when present. */
  function CutSection(content: string, b: nat, e: nat, n: nat): (r: string)
    requires b <= e < |content|
    ensures |r| <= |content|
  {
    var lo := if b > 0 && content[b - 1] == '\n' then b - 1 else b;
    var hi := if e + n + 1 <= |content| then e + n + 1 else |content|;
    content[..lo] + content[hi..]
  }

  function RemoveSectionFixed(content: string): string {
    RemoveSectionFixedFor(content, Begin, End)
  }

  function UpdateTextFixed(content: string, dirs: seq<string>, templates: map<string, string>): string {
    RemoveSectionFixed(content) + Section(dirs, templates)
  }

  // ---------------------------------------------------------------------------
  // Properties

  /** The section starts with a line break and BEGIN on a line of its own, and
      ends with END and a line break. */
  lemma SectionShape(dirs: seq<string>, templates: map<string, string>)
    ensures HasPrefix(Section(dirs, templates), "\n" + Begin + "\n")
    ensures HasSuffix(Section(dirs, templates), End + "\n")
  {
    var body := Body(dirs, templates);
    Regroup("\n", Begin, "\n", body + (End + "\n"));
    ConcatEnds("\n" + Begin + "\n", body + (End + "\n"));
    Regroup("\n" + Begin + "\n", body, End, "\n");
    SectionOf(body);
    ConcatEnds("\n" + Begin + "\n" + body, End + "\n");
  }

  /** The body of a list of directories is the body of each part, in order. */
  lemma {:induction false} BodyAppend(a: seq<string>, b: seq<string>, templates: map<string, string>)
    ensures Body(a + b, templates) == Body(a, templates) + Body(b, templates)
    decreases |b|
  {
    if |b| > 0 {
      var n := |b| - 1;
      BodyAppend(a, b[..n], templates);
      assert (a + b)[..|a + b| - 1] == a + b[..n];
    } else {
      assert a + b == a;
    }
  }

  /** Each requested template contributes its text verbatim, at its place in the
      request order; a missing one contributes nothing. */
  lemma TemplateInPlace(dirs: seq<string>, templates: map<string, string>, i: nat)
    requires i < |dirs|
    ensures Body(dirs, templates) ==
      Body(dirs[..i], templates) + Piece(dirs[i], templates) + Body(dirs[i + 1..], templates)
  {
    assert dirs == dirs[..i] + [dirs[i]] + dirs[i + 1..];
    BodyAppend(dirs[..i] + [dirs[i]], dirs[i + 1..], templates);
    BodyAppend(dirs[..i], [dirs[i]], templates);
    assert Body([dirs[i]], templates) == Piece(dirs[i], templates) by {
      assert [dirs[i]][..0] == [];
    }
  }

  /** Every found template's text appears in the body. */
  lemma TemplateInBody(dirs: seq<string>, templates: map<string, string>, i: nat)
    requires i < |dirs| && dirs[i] in templates
    ensures Contains(Body(dirs, templates), templates[dirs[i]])
  {
    var t := templates[dirs[i]];
    var p := Piece(dirs[i], templates);
    TemplateInPlace(dirs, templates, i);
    PieceShape(dirs[i], templates);
    assert p == t + p[|t|..];
    ContainsPrefix(t, p[|t|..]);
    ContainsGrows(Body(dirs[..i], templates), p, Body(dirs[i + 1..], templates), t);
  }

  /** Every found template's text appears in the section. */
  lemma TemplateInSection(dirs: seq<string>, templates: map<string, string>, i: nat)
    requires i < |dirs| && dirs[i] in templates
    ensures Contains(Section(dirs, templates), templates[dirs[i]])
  {
    var body := Body(dirs, templates);
    var t := templates[dirs[i]];
    TemplateInBody(dirs, templates, i);
    ContainsExtended("", body, End + "\n", t);
    ContainsExtended("\n", body + (End + "\n"), "", t);
    ContainsExtended(Begin, "\n" + (body + (End + "\n")), "", t);
    ContainsExtended("\n", Begin + ("\n" + (body + (End + "\n"))), "", t);
  }

  /** A non-empty body ends with a line break. */
  lemma BodyEndsWithNewline(dirs: seq<string>, templates: map<string, string>)
    ensures Body(dirs, templates) == "" || Body(dirs, templates)[|Body(dirs, templates)| - 1] == '\n'
    decreases |dirs|
  {
    if |dirs| > 0 {
      BodyEndsWithNewline(dirs[..|dirs| - 1], templates);
    }
  }

  lemma BeginOneLine()
    ensures '\n' !in Begin
  {
    assert Begin == "# --- BEGI" + "N MANAGED " + "TEMPLATES " + "---";
    assert '\n' !in "# --- BEGI" && '\n' !in "N MANAGED " && '\n' !in "TEMPLATES " && '\n' !in "---";
  }

  lemma EndOneLine()
    ensures '\n' !in End
  {
    assert End == "# --- END " + "MANAGED TE" + "MPLATES --" + "-";
    assert '\n' !in "# --- END " && '\n' !in "MANAGED TE" && '\n' !in "MPLATES --" && '\n' !in "-";
  }

  lemma EndNotInBegin()
    ensures !Contains(Begin, End)
  {
    forall i | 0 <= i <= |Begin| ensures !OccursAt(Begin, End, i) {
      if i == 0 {
        assert Begin[6] != End[6];
      } else if i <= 2 {
        assert Begin[i] != End[0];
      }
    }
  }

  /** Markers `bm` and `em` on lines of their own, a remainder `r` that holds
      neither, and a body that holds no `em` and ends with a line break. */
  predicate SectionParts(r: string, bm: string, em: string, body: string) {
    '\n' !in bm && '\n' !in em && !Contains(bm, em) &&
    !Contains(r, bm) && !Contains(r, em) && !Contains(body, em) &&
    (body == "" || body[|body| - 1] == '\n')
  }

  /** In a remainder followed by a section between markers `bm` and `em`, the
      first `bm` is the section's and so is the first `em`, provided the
      remainder holds neither marker and the body holds no `em`. */
  lemma SectionFoundFor(r: string, bm: string, em: string, body: string)
    requires SectionParts(r, bm, em, body)
    ensures var c := r + ("\n" + (bm + ("\n" + (body + (em + "\n")))));
      IndexOf(c, bm) == Some(|r| + 1) && IndexOf(c, em) == Some(|r| + 1 + |bm| + 1 + |body|) &&
      c[|r|] == '\n'
  {
    OpeningFound(r, bm, em, body);
    ClosingFound(r, bm, em, body);
  }

  lemma OpeningFound(r: string, bm: string, em: string, body: string)
    requires SectionParts(r, bm, em, body)
    ensures var c := r + ("\n" + (bm + ("\n" + (body + (em + "\n")))));
      IndexOf(c, bm) == Some(|r| + 1) && c[|r|] == '\n'
  {
    var c := r + ("\n" + (bm + ("\n" + (body + (em + "\n")))));
    MarkersLocated(r, bm, body, em);
    IndexOfFirst(c, bm, |r| + 1);
  }

  lemma ClosingFound(r: string, bm: string, em: string, body: string)
    requires SectionParts(r, bm, em, body)
    ensures var c := r + ("\n" + (bm + ("\n" + (body + (em + "\n")))));
      IndexOf(c, em) == Some(|r| + 1 + |bm| + 1 + |body|)
  {
    var c := r + ("\n" + (bm + ("\n" + (body + (em + "\n")))));
    ClosingFirst(r, bm, em, body);
    IndexOfFirst(c, em, |r| + 1 + |bm| + 1 + |body|);
  }

  lemma ClosingFirst(r: string, bm: string, em: string, body: string)
    requires SectionParts(r, bm, em, body)
    ensures FirstAt(r + ("\n" + (bm + ("\n" + (body + (em + "\n"))))), em, |r| + 1 + |bm| + 1 + |body|)
  {
    MarkersLocated(r, bm, body, em);
  }

  /** The BEGIN and END markers around the body of the requested templates
      meet the conditions above when the remainder holds neither marker and the
      templates hold no END. */
  lemma BeginEndParts(r: string, dirs: seq<string>, templates: map<string, string>)
    requires !Contains(r, Begin) && !Contains(r, End) && !Contains(Body(dirs, templates), End)
    ensures SectionParts(r, Begin, End, Body(dirs, templates))
  {
    BeginOneLine();
    EndOneLine();
    EndNotInBegin();
    BodyEndsWithNewline(dirs, templates);
  }

  /** As written, removing the section that a run appended leaves the line
      break written in front of BEGIN behind. */
  lemma RemovalKeepsLeadingBreak(r: string, dirs: seq<string>, templates: map<string, string>)
    requires !Contains(r, Begin) && !Contains(r, End) && !Contains(Body(dirs, templates), End)
    ensures RemoveExistingTemplateSection(r + Section(dirs, templates)) == Some(r + "\n")
  {
    BeginEndParts(r, dirs, templates);
    RemovalKeepsBreakFor(r, Begin, End, Body(dirs, templates));
  }

  /** As written, for markers `bm` and `em`: the removal of an appended section
      stops at the line break in front of `bm`. */
  lemma RemovalKeepsBreakFor(r: string, bm: string, em: string, body: string)
    requires SectionParts(r, bm, em, body)
    ensures RemoveSection(r + ("\n" + (bm + ("\n" + (body + (em + "\n"))))), bm, em) == Some(r + "\n")
  {
    var c := r + ("\n" + (bm + ("\n" + (body + (em + "\n")))));
    SectionFoundFor(r, bm, em, body);
    assert Contains(c, bm) && Contains(c, em);
    CutAfterBreak(r, bm + ("\n" + (body + (em + "\n"))));
    assert |c| == |r| + 1 + |bm| + 1 + |body| + |em| + 1;
    assert c[|c|..] == [];
    assert r + "\n" + [] == r + "\n";
  }

  /** As written, every re-run with the same templates adds one more line
      break in front of the section: the text never settles. */
  lemma {:induction false} RerunGrows(content: string, dirs: seq<string>, templates: map<string, string>)
    requires RemoveExistingTemplateSection(content).Some?
    requires var r := RemoveExistingTemplateSection(content).value;
      !Contains(r, Begin) && !Contains(r, End) && !Contains(Body(dirs, templates), End)
    ensures var once := UpdateText(content, dirs, templates).value;
      UpdateText(once, dirs, templates) ==
        Some(RemoveExistingTemplateSection(content).value + "\n" + Section(dirs, templates)) &&
      |UpdateText(once, dirs, templates).value| == |once| + 1
  {
    var r := RemoveExistingTemplateSection(content).value;
    RemovalKeepsLeadingBreak(r, dirs, templates);
  }

  /** As written, a text whose first END marker is its last character run
      traps: there is no character after END to remove. */
  lemma TrapsWhenEndEndsText(content: string)
    requires Contains(content, Begin) && IndexOf(content, End) == Some(|content| - |End|)
    ensures RemoveExistingTemplateSection(content).None?
  {
  }

  /** Corrected: with both markers found, the opening one first, the section
      between them is cut. */
  lemma FixedCutsFound(c: string, bm: string, em: string, b: nat, e: nat)
    requires |em| > 0 && IndexOf(c, bm) == Some(b) && IndexOf(c, em) == Some(e) && b <= e
    ensures e < |c| && RemoveSectionFixedFor(c, bm, em) == CutSection(c, b, e, |em|)
  {
  }

  /** Corrected, on the input that traps as written: when the first END is
      the last thing in the text and the first BEGIN precedes it, the removal
      keeps the text before BEGIN, without the line break in front of BEGIN
      when there is one. */
  lemma FixedWhenEndEndsText(c: string, b: nat)
    requires IndexOf(c, Begin) == Some(b) && IndexOf(c, End) == Some(|c| - |End|)
    requires b <= |c| - |End|
    ensures RemoveSectionFixed(c) == if b > 0 && c[b - 1] == '\n' then c[..b - 1] else c[..b]
  {
    FixedWhenEmEndsText(c, Begin, End, b);
  }

  /** `FixedWhenEndEndsText` for markers `bm` and `em`. */
  lemma FixedWhenEmEndsText(c: string, bm: string, em: string, b: nat)
    requires |em| > 0 && IndexOf(c, bm) == Some(b) && IndexOf(c, em) == Some(|c| - |em|)
    requires b <= |c| - |em|
    ensures RemoveSectionFixedFor(c, bm, em) == if b > 0 && c[b - 1] == '\n' then c[..b - 1] else c[..b]
  {
    FixedCutsFound(c, bm, em, b, |c| - |em|);
    assert c[|c|..] == [];
  }

  /** A section that ends the text is cut together with the line break in
      front of it. */
  lemma CutSectionAtEnd(c: string, b: nat, e: nat, n: nat)
    requires 0 < b <= e < |c| && c[b - 1] == '\n' && e + n + 1 == |c|
    ensures CutSection(c, b, e, n) == c[..b - 1]
  {
    assert c[e + n + 1..] == [];
  }

  /** Corrected: re-running the update with the same templates changes nothing,
      provided the rest of the file holds neither marker and the templates hold
      no END. */
  lemma FixedRerunIdempotent(content: string, dirs: seq<string>, templates: map<string, string>)
    requires var r := RemoveSectionFixed(content);
      !Contains(r, Begin) && !Contains(r, End) && !Contains(Body(dirs, templates), End)
    ensures UpdateTextFixed(UpdateTextFixed(content, dirs, templates), dirs, templates) ==
      UpdateTextFixed(content, dirs, templates)
  {
    FixedRemovesSection(RemoveSectionFixed(content), dirs, templates);
  }

  /** Corrected: the removal takes off exactly the section a run appended. */
  lemma FixedRemovesSection(r: string, dirs: seq<string>, templates: map<string, string>)
    requires !Contains(r, Begin) && !Contains(r, End) && !Contains(Body(dirs, templates), End)
    ensures RemoveSectionFixed(r + Section(dirs, templates)) == r
  {
    BeginEndParts(r, dirs, templates);
    FixedRemovesFor(r, Begin, End, Body(dirs, templates));
  }

  /** Corrected, for markers `bm` and `em`: the removal takes off exactly a
      section appended to a remainder that holds neither marker. */
  lemma FixedRemovesFor(r: string, bm: string, em: string, body: string)
    requires SectionParts(r, bm, em, body) && |em| > 0
    ensures RemoveSectionFixedFor(r + ("\n" + (bm + ("\n" + (body + (em + "\n"))))), bm, em) == r
  {
    var c := r + ("\n" + (bm + ("\n" + (body + (em + "\n")))));
    var b, e := |r| + 1, |r| + 1 + |bm| + 1 + |body|;
    assert |c| == e + |em| + 1;
    SectionFoundFor(r, bm, em, body);
    FixedCutsFound(c, bm, em, b, e);
    CutSectionAtEnd(c, b, e, |em|);
    assert c[..b - 1] == r;
  }
}
