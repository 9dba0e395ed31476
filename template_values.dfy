/** The two value objects of the domain layer: `TemplateName`, a template
    file name with its `.yaml` extension removed, and `TemplateContent`, a
    template's text with the comment header that introduces it. Both are
    immutable, so they are datatypes here. */
module TemplateValues {
  import opened Text

  const YamlExtension := ".yaml"

  /** The SwiftLint template's file name. */
  const SwiftlintFile := "swiftlint" + YamlExtension

  /** A template name; `name` is the stored value. */
  datatype TemplateName = TemplateName(name: string)

  /** `TemplateName.init`: every `.yaml`, found left to right without overlap,
      is removed from the given name. */
  function MakeTemplateName(raw: string): (t: TemplateName)
    ensures |t.name| <= |raw|
    ensures !Contains(raw, YamlExtension) ==> t.name == raw
  {
    ReplaceAllShrinks(raw, YamlExtension, "");
    var r := ReplaceAll(raw, YamlExtension, "");
    assert !Contains(raw, YamlExtension) ==> r == raw by {
      if !Contains(raw, YamlExtension) {
        ReplaceAllAbsent(raw, YamlExtension, "");
      }
    }
    TemplateName(r)
  }

  /** A template's name and text. */
  datatype TemplateContent = TemplateContent(templateName: TemplateName, content: string)

  /** `header`: two line breaks, the `# Template:` comment naming the template,
      and a line break. */
  function Header(t: TemplateContent): (h: string)
    ensures |h| == |t.templateName.name| + 15
    ensures h[..2] == "\n\n" && h[2..14] == "# Template: "
    ensures h[|h| - 1] == '\n'
    ensures h[14..|h| - 1] == t.templateName.name
  {
    "\n\n# Template: " + t.templateName.name + "\n"
  }

  /** `body`: the template's text, unchanged. */
  function Body(t: TemplateContent): string {
    t.content
  }

  // ---------------------------------------------------------------------------
  // Properties

  /** A text without a dot does not contain `.yaml`. */
  lemma NoDotNoYaml(s: string)
    requires '.' !in s
    ensures !Contains(s, YamlExtension)
  {
    forall i | 0 <= i <= |s| ensures !OccursAt(s, YamlExtension, i) {
      if i + 5 <= |s| {
        assert s[i..i + 5][0] == s[i];
      }
    }
  }

  /** A name ending in `.yaml`, with no other `.yaml` in it, loses exactly the
      extension. */
  lemma StripsExtension(stem: string)
    requires !Contains(stem, YamlExtension)
    ensures MakeTemplateName(stem + YamlExtension).name == stem
  {
    var e := YamlExtension;
    assert e[1] != e[0] && e[2] != e[0] && e[3] != e[0] && e[4] != e[0];
    DropsTrailingPattern(stem, e);
  }

  /** Removing every occurrence of a pattern whose first character does not
      recur in it, from a text that ends with the pattern and holds it nowhere
      else, leaves the text before it: an occurrence cannot straddle the join. */
  lemma {:induction false} DropsTrailingPattern(stem: string, pat: string)
    requires |pat| > 0 && forall k :: 0 < k < |pat| ==> pat[k] != pat[0]
    requires !Contains(stem, pat)
    ensures ReplaceAll(stem + pat, pat, "") == stem
    decreases |stem|
  {
    var s := stem + pat;
    var n := |pat|;
    if |stem| == 0 {
      assert s == pat;
      assert HasPrefix(s, pat);
      assert s[n..] == [];
    } else {
      assert !HasPrefix(s, pat) by {
        if |stem| >= n {
          assert s[..n] == stem[..n];
          assert !OccursAt(stem, pat, 0);
        } else {
          assert s[..n][|stem|] == pat[0];
          assert pat[|stem|] != pat[0];
        }
      }
      assert s[1..] == stem[1..] + pat;
      assert !Contains(stem[1..], pat) by {
        forall i | 0 <= i <= |stem| - 1 ensures !OccursAt(stem[1..], pat, i) {
          if i + n <= |stem| - 1 {
            assert stem[1..][i..i + n] == stem[i + 1..i + 1 + n];
            assert !OccursAt(stem, pat, i + 1);
          }
        }
      }
      DropsTrailingPattern(stem[1..], pat);
      assert stem == [stem[0]] + stem[1..];
    }
  }

  /** `"swiftlint.yaml"` becomes `"swiftlint"`, and a template of that name
      has the header `"\n\n# Template: swiftlint\n"`. */
  lemma SwiftlintHeader(content: string)
    ensures MakeTemplateName(SwiftlintFile).name == "swiftlint"
    ensures Header(TemplateContent(MakeTemplateName(SwiftlintFile), content)) == "\n\n# Template: swiftlint\n"
  {
    var stem := "swiftlint";
    assert '.' !in stem;
    NoDotNoYaml(stem);
    StripsExtension(stem);
  }

  /** The removal is a single left-to-right pass: a `.yaml` that only forms
      once an inner one is removed survives. */
  lemma StripIsSinglePass()
    ensures MakeTemplateName(".ya.yamlml").name == YamlExtension
  {
    var e := YamlExtension;
    var tail := "ml";
    assert ".ya.yamlml" == ['.'] + (['y'] + (['a'] + (e + tail)));
    assert ['.'] + (['y'] + (['a'] + tail)) == e;
    ExtensionThenTail(tail);
    var x := ['a'] + (e + tail);
    assert x[0] != e[0];
    KeepsFirstWhenNoMatch('a', e + tail, e);
    var y := ['y'] + x;
    assert y[0] != e[0];
    KeepsFirstWhenNoMatch('y', x, e);
    var z := ['.'] + y;
    assert z[..5][3] != e[3];
    KeepsFirstWhenNoMatch('.', y, e);
  }

  /** `.yaml` followed by a tail without a dot loses the `.yaml` only. */
  lemma ExtensionThenTail(tail: string)
    requires '.' !in tail
    ensures ReplaceAll(YamlExtension + tail, YamlExtension, "") == tail
  {
    var e := YamlExtension;
    var v := e + tail;
    NoDotNoYaml(tail);
    ReplaceAllAbsent(tail, e, "");
    assert v[..5] == e;
    assert v[5..] == tail;
  }

  /** Where the pattern does not start, the first character is kept. */
  lemma KeepsFirstWhenNoMatch(c: char, x: string, pat: string)
    requires |pat| > 0 && !HasPrefix([c] + x, pat)
    ensures ReplaceAll([c] + x, pat, "") == [c] + ReplaceAll(x, pat, "")
  {
    assert ([c] + x)[1..] == x;
  }
}
