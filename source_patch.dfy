/** The two installer patch scripts (`install-patched.swift` and
    `install-full-patch.swift`): each finds the method
    `updateConfigFileWithTemplates` in the installer service's source text by
    its signature, finds its end with a brace-balance scan, replaces the method
    by a stub that delegates to `updateConfigFileWithTemplatesFixed`, and
    appends the text of a patch file. File reads are inputs; the files the
    scripts write are returned as an ordered list of writes. */
module SourcePatch {
  import opened Text

  const BasePath := "/Users/bruno/Developer/pre-commit-configs"
  const InstallerSourcePath := BasePath + "/Sources/Utils/InstallerService.swift"
  const TestScriptPath := BasePath + "/test-template-fix.swift"

  /** The text the scripts search for: the method's signature up to its `{`. */
  const Signature := SignatureHead + "{"

  /** The signature up to its opening brace. */
  const SignatureHead := "func updat" + "eConfigFil" + "eWithTempl" + "ates(selec" + "tedTemplat" +
    "es: [Strin" + "g]) throws" + " "

  /** The replacement method (the multi-line literal with its indentation
      stripped; it has no final line break). */
  const Stub := Signature + "\n    try updateConfigFileWithTemplatesFixed(selectedTemplates: selectedTemplates)\n}"

  /** One file the script writes, in the order it writes them. */
  datatype FileWrite = FileWrite(path: string, text: string)

  // ---------------------------------------------------------------------------
  // Brace balance

  /** What one character does to the balance: `{` opens, `}` closes, anything
      else (strings and comments included) counts for nothing. */
  function Delta(c: char): int {
    if c == '{' then 1 else if c == '}' then -1 else 0
  }

  /** The net number of open braces in a text. */
  function Depth(s: string): int {
    if |s| == 0 then 0 else Delta(s[0]) + Depth(s[1..])
  }

  /** The balance after scanning `s[i..j]` from balance `b`. */
  function Level(s: string, i: nat, b: int, j: nat): int
    requires i <= j <= |s|
  {
    b + Depth(s[i..j])
  }

  /** Where the scan that starts at `i` with balance `b` stops: at the first
      position where the balance has reached zero, or at the end of the text. */
  function ScanEnd(s: string, i: nat, b: int): (e: nat)
    requires i <= |s| && b >= 0
    ensures i <= e <= |s|
    ensures Level(s, i, b, e) >= 0
    ensures Level(s, i, b, e) == 0 || e == |s|
    ensures forall j :: i <= j < e ==> Level(s, i, b, j) > 0
    decreases |s| - i
  {
    if b == 0 || i == |s| then
      assert s[i..i] == [];
      i
    else
      var e := ScanEnd(s, i + 1, b + Delta(s[i]));
      forall j | i <= j <= e ensures Level(s, i, b, j) == (if j == i then b else Level(s, i + 1, b + Delta(s[i]), j)) {
        DepthCons(s, i, j);
      }
      e
  }

  lemma DepthCons(s: string, i: nat, j: nat)
    requires i <= j <= |s|
    ensures j == i ==> Depth(s[i..j]) == 0
    ensures j > i ==> Depth(s[i..j]) == Delta(s[i]) + Depth(s[i + 1..j])
  {
    if j > i {
      assert s[i..j][1..] == s[i + 1..j];
    } else {
      assert s[i..j] == [];
    }
  }

  lemma {:induction false} DepthSnoc(s: string, c: char)
    ensures Depth(s + [c]) == Depth(s) + Delta(c)
    decreases |s|
  {
    if |s| == 0 {
      assert (s + [c])[1..] == [];
    } else {
      assert (s + [c])[1..] == s[1..] + [c];
      DepthSnoc(s[1..], c);
    }
  }

  /** One more character moves the balance by its delta. */
  lemma LevelStep(s: string, i: nat, j: nat)
    requires i <= j < |s|
    ensures Level(s, i, 1, j + 1) == Level(s, i, 1, j) + Delta(s[j])
  {
    assert s[i..j + 1] == s[i..j] + [s[j]];
    DepthSnoc(s[i..j], s[j]);
  }

  lemma {:induction false} DepthConcat(a: string, b: string)
    ensures Depth(a + b) == Depth(a) + Depth(b)
    decreases |a|
  {
    if |a| == 0 {
      assert a + b == b;
    } else {
      assert (a + b)[1..] == a[1..] + b;
      DepthConcat(a[1..], b);
    }
  }

  /** The `while braceBalance > 0 && endIdx < endIndex` loop, started just
      after the signature's `{` with balance 1. It stops on the matching `}`
      (inclusive) or at the end of the text. */
  method FindMethodEnd(content: string, start: nat) returns (endIdx: nat, braceBalance: int)
    requires start <= |content|
    ensures endIdx == ScanEnd(content, start, 1)
    ensures braceBalance == Level(content, start, 1, endIdx) && braceBalance >= 0
    ensures braceBalance == 0 || endIdx == |content|
    ensures braceBalance == 0 ==> start < endIdx && content[endIdx - 1] == '}'
  {
    braceBalance := 1;
    endIdx := start;
    assert content[start..start] == [];
    while braceBalance > 0 && endIdx < |content|
      invariant start <= endIdx <= |content|
      invariant braceBalance == Level(content, start, 1, endIdx) && braceBalance >= 0
      invariant ScanEnd(content, endIdx, braceBalance) == ScanEnd(content, start, 1)
      invariant braceBalance == 0 ==> start < endIdx && content[endIdx - 1] == '}'
      decreases |content| - endIdx
    {
      var ch := content[endIdx];
      LevelStep(content, start, endIdx);
      if ch == '{' {
        braceBalance := braceBalance + 1;
      } else if ch == '}' {
        braceBalance := braceBalance - 1;
      }
      endIdx := endIdx + 1;
    }
  }

  // ---------------------------------------------------------------------------
  // The patch

  /** The position of the signature and the end of the method text the scan
      delimits, or `None` when the signature is not in the text. */
  function LocateMethod(content: string): (r: Option<(nat, nat)>)
    ensures r.None? <==> !Contains(content, Signature)
    ensures r.Some? ==> FirstAt(content, Signature, r.value.0)
    ensures r.Some? ==> r.value.1 == ScanEnd(content, r.value.0 + |Signature|, 1)
  {
    match IndexOf(content, Signature)
    case None => None
    case Some(b) => Some((b, ScanEnd(content, b + |Signature|, 1)))
  }

  /** The installer source after the patch, or `None` when the signature is not
      found and the source is left alone. */
  function PatchedSource(content: string, patch: string): Option<string> {
    match LocateMethod(content)
    case None => None
    case Some((b, e)) => Some(ReplaceAll(content, content[b..e], Stub) + "\n\n" + patch)
  }

  /** The body of both scripts from the backup on: locate the method, cut it
      out by the brace scan, replace it and append the patch. */
  method PatchInstaller(installerContent: string, patchContent: string)
    returns (patched: Option<string>)
    ensures patched == PatchedSource(installerContent, patchContent)
  {
    var found := IndexOf(installerContent, Signature);
    if found.None? {
      return None;
    }
    var lower := found.value;
    var endIdx, _ := FindMethodEnd(installerContent, lower + |Signature|);
    var oldMethod := installerContent[lower..endIdx];
    var patchedInstallerContent := ReplaceAll(installerContent, oldMethod, Stub);
    patchedInstallerContent := patchedInstallerContent + "\n\n" + patchContent;
    patched := Some(patchedInstallerContent);
  }

  /** `install-patched.swift`: the backup is always written; the patched
      installer source only when the signature was found. */
  method InstallPatched(installerContent: string, patchContent: string)
    returns (writes: seq<FileWrite>)
    ensures |writes| >= 1 && writes[0] == FileWrite(InstallerSourcePath + ".bak", installerContent)
    ensures PatchedSource(installerContent, patchContent).None? ==> |writes| == 1
    ensures PatchedSource(installerContent, patchContent).Some? ==>
      writes == [writes[0], FileWrite(InstallerSourcePath, PatchedSource(installerContent, patchContent).value)]
  {
    writes := [FileWrite(InstallerSourcePath + ".bak", installerContent)];
    var patched := PatchInstaller(installerContent, patchContent);
    if patched.Some? {
      writes := writes + [FileWrite(InstallerSourcePath, patched.value)];
    }
  }

  /** `install-full-patch.swift`: as above with a `.bak.full` backup, and on
      success a test script is written as well. The text of that script is a
      fixed literal, taken here as `testScript`. */
  method InstallFullPatch(installerContent: string, patchContent: string, testScript: string)
    returns (writes: seq<FileWrite>)
    ensures |writes| >= 1 && writes[0] == FileWrite(InstallerSourcePath + ".bak.full", installerContent)
    ensures PatchedSource(installerContent, patchContent).None? ==> |writes| == 1
    ensures PatchedSource(installerContent, patchContent).Some? ==>
      writes == [writes[0], FileWrite(InstallerSourcePath, PatchedSource(installerContent, patchContent).value),
                 FileWrite(TestScriptPath, testScript)]
  {
    writes := [FileWrite(InstallerSourcePath + ".bak.full", installerContent)];
    var patched := PatchInstaller(installerContent, patchContent);
    if patched.Some? {
      writes := writes + [FileWrite(InstallerSourcePath, patched.value)];
      writes := writes + [FileWrite(TestScriptPath, testScript)];
    }
  }

  // ---------------------------------------------------------------------------
  // Properties

  /** Without the signature nothing is patched. */
  lemma NotFoundLeavesSource(content: string, patch: string)
    requires !Contains(content, Signature)
    ensures PatchedSource(content, patch).None?
  {
  }

  /** The signature opens exactly one brace, its last character. */
  lemma SignatureDepth()
    ensures Depth(Signature) == 1
  {
    HeadNoOpening();
    HeadNoClosing();
    NoBracesDepth(SignatureHead);
    DepthConcat(SignatureHead, "{");
  }

  lemma HeadNoOpening()
    ensures '{' !in SignatureHead
  {
    assert '{' !in "func updat" && '{' !in "eConfigFil" && '{' !in "eWithTempl" && '{' !in "ates(selec";
    assert '{' !in "tedTemplat" && '{' !in "es: [Strin" && '{' !in "g]) throws" && '{' !in " ";
  }

  lemma HeadNoClosing()
    ensures '}' !in SignatureHead
  {
    assert '}' !in "func updat" && '}' !in "eConfigFil" && '}' !in "eWithTempl" && '}' !in "ates(selec";
    assert '}' !in "tedTemplat" && '}' !in "es: [Strin" && '}' !in "g]) throws" && '}' !in " ";
  }

  /** A text without braces leaves the balance alone. */
  lemma {:induction false} NoBracesDepth(s: string)
    requires '{' !in s && '}' !in s
    ensures Depth(s) == 0
    decreases |s|
  {
    if |s| > 0 {
      assert s[0] in s;
      assert forall c :: c in s[1..] ==> c in s;
      NoBracesDepth(s[1..]);
    }
  }

  /** An occurrence of a text is an occurrence of each of its prefixes. */
  lemma PrefixOccurrence(s: string, m: string, p: string, j: nat)
    requires HasPrefix(m, p) && OccursAt(s, m, j)
    ensures OccursAt(s, p, j)
  {
    assert s[j..j + |p|] == s[j..j + |m|][..|p|];
  }

  /** When the scan reaches balance zero, the method text it delimits starts
      with the signature, ends with the matching `}` and has as many `}` as `{`;
      no shorter piece starting at the signature is balanced. */
  lemma ExtractedMethodBalanced(content: string, b: nat, e: nat)
    requires LocateMethod(content) == Some((b, e))
    requires Level(content, b + |Signature|, 1, e) == 0
    ensures b + |Signature| < e <= |content|
    ensures HasPrefix(content[b..e], Signature)
    ensures content[e - 1] == '}'
    ensures Depth(content[b..e]) == 0
    ensures forall j :: b + |Signature| <= j < e ==> Depth(content[b..j]) > 0
  {
    SignatureDepth();
    ScannedPiece(content, Signature, b, e);
  }

  /** The same for any opening text with one net brace found at `b`. */
  lemma ScannedPiece(content: string, sig: string, b: nat, e: nat)
    requires OccursAt(content, sig, b) && Depth(sig) == 1
    requires e == ScanEnd(content, b + |sig|, 1) && Level(content, b + |sig|, 1, e) == 0
    ensures b + |sig| < e <= |content|
    ensures HasPrefix(content[b..e], sig)
    ensures content[e - 1] == '}'
    ensures Depth(content[b..e]) == 0
    ensures forall j :: b + |sig| <= j < e ==> Depth(content[b..j]) > 0
  {
    var start := b + |sig|;
    assert content[b..start] == sig;
    BalancedPiece(content, b, start, e);
    PieceOpensWith(content, sig, b, e);
  }

  lemma PieceOpensWith(s: string, p: string, b: nat, e: nat)
    requires OccursAt(s, p, b) && b + |p| <= e <= |s|
    ensures HasPrefix(s[b..e], p)
  {
    assert s[b..e][..|p|] == s[b..b + |p|];
  }

  /** A piece opening with one net brace before `start`, whose scan from
      there stays positive and reaches zero at `e`. */
  lemma BalancedPiece(s: string, b: nat, start: nat, e: nat)
    requires b <= start <= e <= |s| && Depth(s[b..start]) == 1
    requires forall j :: start <= j < e ==> Level(s, start, 1, j) > 0
    requires Level(s, start, 1, e) == 0
    ensures start < e && s[e - 1] == '}'
    ensures Depth(s[b..e]) == 0
    ensures forall j :: start <= j < e ==> Depth(s[b..j]) > 0
  {
    forall j | start <= j <= e ensures Depth(s[b..j]) == Level(s, start, 1, j) {
      assert s[b..j] == s[b..start] + s[start..j];
      DepthConcat(s[b..start], s[start..j]);
    }
    LastCloses(s, start, e);
  }

  /** The step that brings a positive balance to zero reads a `}`. */
  lemma LastCloses(s: string, start: nat, e: nat)
    requires start < e <= |s|
    requires Level(s, start, 1, e - 1) > 0 && Level(s, start, 1, e) == 0
    ensures s[e - 1] == '}'
  {
    assert s[start..e] == s[start..e - 1] + [s[e - 1]];
    DepthSnoc(s[start..e - 1], s[e - 1]);
  }

  /** Replacement scans left to right: when the first occurrence of the pattern
      is at `b`, the text before it is kept and the rest is processed after the
      replacement. */
  lemma {:induction false} ReplaceAllFirstAt(s: string, pat: string, rep: string, b: nat)
    requires |pat| > 0 && FirstAt(s, pat, b)
    ensures ReplaceAll(s, pat, rep) == s[..b] + rep + ReplaceAll(s[b + |pat|..], pat, rep)
    decreases b
  {
    if b == 0 {
      assert HasPrefix(s, pat);
    } else {
      var t := s[1..];
      FirstAtInTail(s, pat, b);
      assert ReplaceAll(s, pat, rep) == [s[0]] + ReplaceAll(t, pat, rep);
      ReplaceAllFirstAt(t, pat, rep, b - 1);
      assert t[b - 1 + |pat|..] == s[b + |pat|..];
      assert s[..b] == [s[0]] + t[..b - 1];
      ConsRegroup(s[0], t[..b - 1], rep, ReplaceAll(s[b + |pat|..], pat, rep));
    }
  }

  lemma ConsRegroup(c: char, a: string, m: string, z: string)
    ensures [c] + (a + m + z) == ([c] + a) + m + z
  {
  }

  /** A first occurrence past the start is, in the text without its first
      character, one place earlier. */
  lemma FirstAtInTail(s: string, pat: string, b: nat)
    requires |pat| > 0 && 0 < b && FirstAt(s, pat, b)
    ensures !HasPrefix(s, pat) && FirstAt(s[1..], pat, b - 1)
  {
    assert !OccursAt(s, pat, 0);
    var t := s[1..];
    assert t[b - 1..b - 1 + |pat|] == s[b..b + |pat|];
    forall j | 0 <= j < b - 1 ensures !OccursAt(t, pat, j) {
      assert t[j..j + |pat|] == s[j + 1..j + 1 + |pat|];
      assert !OccursAt(s, pat, j + 1);
    }
  }

  /** The patched source keeps everything before the method verbatim, puts the
      stub in the method's place, treats the text after the method as the
      replacement dictates, and ends with a blank line and the patch. */
  lemma PatchedLayout(content: string, patch: string, b: nat, e: nat)
    requires LocateMethod(content) == Some((b, e))
    ensures b <= e <= |content|
    ensures PatchedSource(content, patch) ==
      Some(content[..b] + Stub + ReplaceAll(content[e..], content[b..e], Stub) + "\n\n" + patch)
  {
    var m := content[b..e];
    assert m[..|Signature|] == Signature;
    forall j | 0 <= j < b && OccursAt(content, m, j) ensures OccursAt(content, Signature, j) {
      PrefixOccurrence(content, m, Signature, j);
    }
    assert OccursAt(content, m, b);
    ReplaceMethodText(content, Stub, b, e);
  }

  /** Replacing the text between `b` and `e`, found first at `b`, keeps what
      is before it and goes on after `e`. */
  lemma ReplaceMethodText(s: string, rep: string, b: nat, e: nat)
    requires b < e <= |s| && FirstAt(s, s[b..e], b)
    ensures ReplaceAll(s, s[b..e], rep) == s[..b] + rep + ReplaceAll(s[e..], s[b..e], rep)
  {
    ReplaceAllFirstAt(s, s[b..e], rep, b);
  }

  /** When the method text occurs only once, the patch is exactly: the text
      before it, the stub, the text after it, a blank line and the patch. */
  lemma PatchedSingleMethod(content: string, patch: string, b: nat, e: nat)
    requires LocateMethod(content) == Some((b, e))
    requires b <= e <= |content| && !Contains(content[e..], content[b..e])
    ensures PatchedSource(content, patch) == Some(content[..b] + Stub + content[e..] + "\n\n" + patch)
  {
    PatchedLayout(content, patch, b, e);
    ReplaceAllAbsent(content[e..], content[b..e], Stub);
  }

  /** The patched source ends with a blank line and the patch text. */
  lemma PatchAppended(content: string, patch: string)
    requires PatchedSource(content, patch).Some?
    ensures HasSuffix(PatchedSource(content, patch).value, "\n\n" + patch)
  {
    var (b, e) := LocateMethod(content).value;
    var head := ReplaceAll(content, content[b..e], Stub);
    assert PatchedSource(content, patch).value == head + ("\n\n" + patch);
    ConcatEnds(head, "\n\n" + patch);
  }
}
