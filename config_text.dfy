/** Building blocks shared by the template-merging variants: the managed
    marker, the default configuration text, and the line-level steps each
    variant combines (finding the first line with a text, skipping comment and
    blank lines after `repos:`, inserting the marker, dropping blank lines and
    inserting a block after the marker line). */
module ConfigText {
  import opened Text

  /** `# --- Managed by pre-commit-configs installer ---`, kept as its words. */
  const Marker := "# --- " + "Managed by " + "pre-commit-configs " + "installer " + "---"
  const IndentedMarker := "  " + Marker
  const ReposKey := "repos:"

  /** The default `.pre-commit-config.yaml` the template mergers start from. */
  const DefaultConfigLines: seq<string> := [
    "# See https://pre-commit.com/ for more information",
    "# See https://pre-commit.com/hooks.html for more hooks",
    "# This file is managed by the pre-commit-configs installer.",
    "# Default configurations (optional)",
    "default_stages: [pre-commit] # Sensible default",
    "default_install_hook_types: [pre-commit, pre-push, commit-msg]",
    "# default_language_version:",
    "#   python: python3.9",
    "repos:",
    "  # Add hooks here using the installer or manually"
  ]

  function DefaultConfig(): string {
    Unlines(DefaultConfigLines)
  }

  /** The text of an existing configuration file, or the default text when
      the file is absent. */
  function ReadOrDefault(existing: Option<string>): string {
    match existing
    case Some(text) => text
    case None => DefaultConfig()
  }

  /** `"  \(line)"`. */
  function Indent(l: string): string {
    "  " + l
  }

  /** `lines.map { "  \($0)" }`. */
  function IndentLines(ls: seq<string>): (r: seq<string>)
    ensures |r| == |ls| && forall k :: 0 <= k < |r| ==> r[k] == Indent(ls[k])
  {
    seq(|ls|, k requires 0 <= k < |ls| => Indent(ls[k]))
  }

  /** `lines.firstIndex { $0.contains(t) }`. */
  function FirstLineContaining(ls: seq<string>, t: string): (r: Option<nat>)
    ensures r.Some? ==> r.value < |ls| && Contains(ls[r.value], t)
    ensures r.Some? ==> forall j :: 0 <= j < r.value ==> !Contains(ls[j], t)
    ensures r.None? ==> forall j :: 0 <= j < |ls| ==> !Contains(ls[j], t)
  {
    if |ls| == 0 then None
    else if Contains(ls[0], t) then Some(0)
    else
      match FirstLineContaining(ls[1..], t)
      case None =>
        assert forall j :: 1 <= j < |ls| ==> ls[j] == ls[1..][j - 1];
        None
      case Some(k) =>
        assert forall j :: 1 <= j < |ls| ==> ls[j] == ls[1..][j - 1];
        Some(k + 1)
  }

  /** A line is skipped after `repos:` when its trimmed text is a comment or
      empty. */
  predicate Skippable(l: string) {
    IsCommentLine(l) || IsBlank(l)
  }

  /** The index the `while` loop after `repos:` stops at. */
  function SkipFrom(ls: seq<string>, i: nat): (j: nat)
    requires i <= |ls|
    ensures i <= j <= |ls|
    ensures forall k :: i <= k < j ==> Skippable(ls[k])
    ensures j < |ls| ==> !Skippable(ls[j])
    decreases |ls| - i
  {
    if i < |ls| && Skippable(ls[i]) then SkipFrom(ls, i + 1) else i
  }

  /** The `while` loop that advances `insertLineIndex` past comment and blank lines. */
  method SkipCommentsAndBlanks(lines: seq<string>, start: nat) returns (i: nat)
    requires start <= |lines|
    ensures i == SkipFrom(lines, start)
  {
    i := start;
    while i < |lines| && (HasPrefix(Trim(lines[i]), "#") || Trim(lines[i]) == "")
      invariant start <= i <= |lines|
      invariant SkipFrom(lines, i) == SkipFrom(lines, start)
      decreases |lines| - i
    {
      i := i + 1;
    }
  }

  /** Where the marker line goes: after the first line containing `repos:` (or
      after line 0 when there is none) and the comment and blank lines that
      follow it. */
  function MarkerSlot(ls: seq<string>): (j: nat)
    requires |ls| >= 1
    ensures 1 <= j <= |ls|
  {
    var r := match FirstLineContaining(ls, ReposKey) case Some(i) => i case None => 0;
    SkipFrom(ls, r + 1)
  }

  /** `lines.insert("  \(marker)", at: insertLineIndex)`. */
  function InsertMarkerLine(ls: seq<string>): seq<string>
    requires |ls| >= 1
  {
    var j := MarkerSlot(ls);
    ls[..j] + [IndentedMarker] + ls[j..]
  }

  /** `DefaultMarkerManager.ensureMarkerExists`, also inlined in install-fix:
      a text with the marker is kept; otherwise the marker line is inserted
      below `repos:`, or `repos:` and the marker are appended. */
  function EnsureMarker(content: string): string {
    if Contains(content, Marker) then content
    else if Contains(content, ReposKey) then Unlines(InsertMarkerLine(Lines(content)))
    else content + "\nrepos:\n" + IndentedMarker
  }

  /** The marker step of the template-fix test scripts: no `repos:` check, so
      without a `repos:` line the marker goes after line 0. */
  function EnsureMarkerAtLine(content: string): string {
    if Contains(content, Marker) then content
    else Unlines(InsertMarkerLine(Lines(content)))
  }

  method InsertMarker(content: string) returns (r: string)
    requires !Contains(content, Marker)
    ensures r == Unlines(InsertMarkerLine(Lines(content)))
  {
    var lines := Lines(content);
    var found := FirstLineContaining(lines, ReposKey);
    var reposLineIndex := if found.Some? then found.value else 0;
    var insertLineIndex := SkipCommentsAndBlanks(lines, reposLineIndex + 1);
    assert insertLineIndex == MarkerSlot(lines);
    r := Unlines(lines[..insertLineIndex] + [IndentedMarker] + lines[insertLineIndex..]);
  }

  method EnsureMarkerExists(content: string) returns (r: string)
    ensures r == EnsureMarker(content)
  {
    if Contains(content, Marker) {
      r := content;
    } else if Contains(content, ReposKey) {
      r := InsertMarker(content);
    } else {
      r := content + "\nrepos:\n" + IndentedMarker;
    }
  }

  method EnsureMarkerAtLineExists(content: string) returns (r: string)
    ensures r == EnsureMarkerAtLine(content)
  {
    if Contains(content, Marker) {
      r := content;
    } else {
      r := InsertMarker(content);
    }
  }

  /** The number of whitespace-only lines at the start. */
  function LeadingBlankLines(ls: seq<string>): (n: nat)
    ensures n <= |ls|
    ensures forall k :: 0 <= k < n ==> IsBlank(ls[k])
    ensures n < |ls| ==> !IsBlank(ls[n])
  {
    if |ls| > 0 && IsBlank(ls[0]) then
      var n := LeadingBlankLines(ls[1..]);
      assert forall k :: 1 <= k < |ls| ==> ls[k] == ls[1..][k - 1];
      n + 1
    else 0
  }

  /** Leading whitespace-only lines removed (`removeFirst` loop). */
  function DropLeadingBlank(ls: seq<string>): (r: seq<string>)
    ensures |r| <= |ls| && r == ls[|ls| - |r|..]
    ensures |r| > 0 ==> !IsBlank(r[0])
    ensures forall k :: 0 <= k < |ls| - |r| ==> IsBlank(ls[k])
  {
    ls[LeadingBlankLines(ls)..]
  }

  /** Trailing whitespace-only lines removed (`removeLast` loop). */
  function DropTrailingBlank(ls: seq<string>): (r: seq<string>)
    ensures |r| <= |ls| && r == ls[..|r|]
    ensures |r| > 0 ==> !IsBlank(r[|r| - 1])
    ensures forall k :: |r| <= k < |ls| ==> IsBlank(ls[k])
  {
    if |ls| > 0 && IsBlank(ls[|ls| - 1]) then DropTrailingBlank(ls[..|ls| - 1]) else ls
  }

  /** Leading and trailing whitespace-only lines removed. */
  function StripBlankEnds(ls: seq<string>): seq<string> {
    DropTrailingBlank(DropLeadingBlank(ls))
  }

  /** The two `while` loops that trim blank lines off both ends. */
  method TrimBlankLines(lines: seq<string>) returns (r: seq<string>)
    ensures r == StripBlankEnds(lines)
  {
    r := RemoveLeadingBlank(lines);
    r := RemoveTrailingBlank(r);
  }

  /** The first loop: `removeFirst` while the first line is blank. */
  method RemoveLeadingBlank(lines: seq<string>) returns (r: seq<string>)
    ensures r == DropLeadingBlank(lines)
  {
    r := lines;
    while |r| > 0 && Trim(r[0]) == ""
      invariant DropLeadingBlank(r) == DropLeadingBlank(lines)
      decreases |r|
    {
      assert r[1..][LeadingBlankLines(r[1..])..] == r[LeadingBlankLines(r)..];
      r := r[1..];
    }
  }

  /** The second loop: `removeLast` while the last line is blank. */
  method RemoveTrailingBlank(lines: seq<string>) returns (r: seq<string>)
    ensures r == DropTrailingBlank(lines)
  {
    r := lines;
    while |r| > 0 && Trim(r[|r| - 1]) == ""
      invariant DropTrailingBlank(r) == DropTrailingBlank(lines)
      decreases |r|
    {
      r := r[..|r| - 1];
    }
  }

  /** Two spaces followed by a line that is not blank. */
  predicate IndentedLine(l: string) {
    HasPrefix(l, "  ") && !IsBlank(l[2..])
  }

  /** The whitespace-only lines dropped and the others indented by two spaces. */
  function IndentNonBlank(ls: seq<string>): (r: seq<string>)
    ensures |r| <= |ls|
    ensures forall k :: 0 <= k < |r| ==> IndentedLine(r[k])
  {
    if |ls| == 0 then []
    else
      var last := ls[|ls| - 1];
      IndentNonBlank(ls[..|ls| - 1]) + (if IsBlank(last) then [] else [Indent(last)])
  }

  /** The loop that puts `block` after the first line containing `t`: every
      line is copied, the block follows the first match. */
  function InsertAfterFirst(ls: seq<string>, t: string, block: seq<string>): seq<string> {
    match FirstLineContaining(ls, t)
    case Some(k) => ls[..k + 1] + block + ls[k + 1..]
    case None => ls
  }

  /** The `for line in lines` loop with its `insertedTemplate` flag. */
  method InsertAfterFirstLine(lines: seq<string>, t: string, block: seq<string>)
    returns (newLines: seq<string>, inserted: bool)
    ensures inserted <==> FirstLineContaining(lines, t).Some?
    ensures newLines == InsertAfterFirst(lines, t, block)
  {
    newLines, inserted := [], false;
    var i := 0;
    while i < |lines|
      invariant 0 <= i <= |lines|
      invariant inserted <==> FirstLineContaining(lines[..i], t).Some?
      invariant newLines == InsertAfterFirst(lines[..i], t, block)
    {
      FirstLineContainingSnoc(lines[..i], lines[i], t);
      InsertAfterFirstSnoc(lines[..i], lines[i], t, block);
      assert lines[..i + 1] == lines[..i] + [lines[i]];
      newLines := newLines + [lines[i]];
      if Contains(lines[i], t) && !inserted {
        newLines := newLines + block;
        inserted := true;
      }
      i := i + 1;
    }
    assert lines[..i] == lines;
  }

  // ---------------------------------------------------------------------------
  // Lemmas

  /** The first matching line is the one with no match before it. */
  lemma FirstLineContainingIs(ls: seq<string>, t: string, k: nat)
    requires k < |ls| && Contains(ls[k], t)
    requires forall j :: 0 <= j < k ==> !Contains(ls[j], t)
    ensures FirstLineContaining(ls, t) == Some(k)
  {
  }

  lemma FirstLineContainingSnoc(ls: seq<string>, x: string, t: string)
    ensures FirstLineContaining(ls, t).Some? ==> FirstLineContaining(ls + [x], t) == FirstLineContaining(ls, t)
    ensures FirstLineContaining(ls, t).None? ==>
      FirstLineContaining(ls + [x], t) == (if Contains(x, t) then Some(|ls|) else None)
  {
    var s := ls + [x];
    match FirstLineContaining(ls, t)
    case Some(k) =>
      assert s[k] == ls[k];
      FirstLineContainingIs(s, t, k);
    case None =>
      if Contains(x, t) {
        assert s[|ls|] == x;
        FirstLineContainingIs(s, t, |ls|);
      } else {
        forall j | 0 <= j < |s| ensures !Contains(s[j], t) {
          if j < |ls| {
            assert s[j] == ls[j];
          }
        }
      }
  }

  lemma InsertAfterFirstSnoc(ls: seq<string>, x: string, t: string, block: seq<string>)
    ensures FirstLineContaining(ls, t).Some? ==>
      InsertAfterFirst(ls + [x], t, block) == InsertAfterFirst(ls, t, block) + [x]
    ensures FirstLineContaining(ls, t).None? && Contains(x, t) ==>
      InsertAfterFirst(ls + [x], t, block) == ls + [x] + block
    ensures FirstLineContaining(ls, t).None? && !Contains(x, t) ==>
      InsertAfterFirst(ls + [x], t, block) == ls + [x]
  {
    FirstLineContainingSnoc(ls, x, t);
    if FirstLineContaining(ls, t).Some? {
      InsertAfterEarlierMatch(ls, x, t, block);
    } else if Contains(x, t) {
      InsertAfterNewMatch(ls, x, t, block);
    }
  }

  /** A line appended after the first match is copied after the block. */
  lemma InsertAfterEarlierMatch(ls: seq<string>, x: string, t: string, block: seq<string>)
    requires FirstLineContaining(ls, t).Some?
    requires FirstLineContaining(ls + [x], t) == FirstLineContaining(ls, t)
    ensures InsertAfterFirst(ls + [x], t, block) == InsertAfterFirst(ls, t, block) + [x]
  {
    SpliceThenAppend(ls, x, FirstLineContaining(ls, t).value, block);
  }

  /** Splicing a block in after line `k` commutes with appending a line. */
  lemma SpliceThenAppend(ls: seq<string>, x: string, k: nat, block: seq<string>)
    requires k < |ls|
    ensures var s := ls + [x];
      s[..k + 1] + block + s[k + 1..] == ls[..k + 1] + block + ls[k + 1..] + [x]
  {
    var s := ls + [x];
    assert s[..k + 1] == ls[..k + 1];
    assert s[k + 1..] == ls[k + 1..] + [x];
  }

  /** An appended line that is the first match is followed by the block. */
  lemma InsertAfterNewMatch(ls: seq<string>, x: string, t: string, block: seq<string>)
    requires FirstLineContaining(ls + [x], t) == Some(|ls|)
    ensures InsertAfterFirst(ls + [x], t, block) == ls + [x] + block
  {
    var s := ls + [x];
    assert s[..|ls| + 1] == s;
    assert s[|ls| + 1..] == [];
  }

  /** The indented marker line contains the marker. */
  lemma IndentedMarkerHasMarker()
    ensures Contains(IndentedMarker, Marker)
  {
    ContainsSuffix("  ", Marker);
  }

  lemma IndentedMarkerOneLine()
    ensures '\n' !in IndentedMarker
  {
    assert '\n' !in "# --- ";
    assert '\n' !in "Managed by ";
    assert '\n' !in "pre-commit-configs ";
    assert '\n' !in "installer ";
    assert '\n' !in "---";
  }

  /** Inserting the marker line keeps every original line, in order, around it. */
  lemma InsertMarkerLineShape(ls: seq<string>)
    requires |ls| >= 1
    ensures var j := MarkerSlot(ls);
      var r := InsertMarkerLine(ls);
      |r| == |ls| + 1 && r[j] == IndentedMarker && r[..j] == ls[..j] && r[j + 1..] == ls[j..]
    ensures Contains(Unlines(InsertMarkerLine(ls)), Marker)
  {
    var j := MarkerSlot(ls);
    var r := InsertMarkerLine(ls);
    assert r[j] == IndentedMarker;
    IndentedMarkerHasMarker();
    LineContainsImpliesContains(r, j, Marker);
  }

  /** After `ensureMarkerExists` the text contains the marker, so a second
      application changes nothing. */
  lemma EnsureMarkerIdempotent(content: string)
    ensures Contains(EnsureMarker(content), Marker)
    ensures EnsureMarker(EnsureMarker(content)) == EnsureMarker(content)
  {
    if !Contains(content, Marker) {
      if Contains(content, ReposKey) {
        InsertMarkerLineShape(Lines(content));
      } else {
        IndentedMarkerHasMarker();
        ContainsSuffix(content + "\nrepos:\n", IndentedMarker);
        ContainsTransitive(content + "\nrepos:\n" + IndentedMarker, IndentedMarker, Marker);
      }
    }
  }

  /** The same for the variant that falls back to line 0. */
  lemma EnsureMarkerAtLineIdempotent(content: string)
    ensures Contains(EnsureMarkerAtLine(content), Marker)
    ensures EnsureMarkerAtLine(EnsureMarkerAtLine(content)) == EnsureMarkerAtLine(content)
  {
    if !Contains(content, Marker) {
      InsertMarkerLineShape(Lines(content));
    }
  }

  /** When the marker is inserted below `repos:`, the result's lines are the
      original lines with exactly one marker line added after the `repos:` line
      and the comment and blank lines that follow it. */
  lemma EnsureMarkerInsertsOneLine(content: string)
    requires !Contains(content, Marker) && Contains(content, ReposKey)
    ensures FirstLineContaining(Lines(content), ReposKey).Some?
    ensures var ls := Lines(content);
      MarkerSlot(ls) == SkipFrom(ls, FirstLineContaining(ls, ReposKey).value + 1)
    ensures Lines(EnsureMarker(content)) == InsertMarkerLine(Lines(content))
  {
    var ls := Lines(content);
    ReposLineExists(content);
    InsertedLinesOneLine(ls);
    LinesUnlines(InsertMarkerLine(ls));
  }

  /** A text containing `repos:` has a line containing it. */
  lemma ReposLineExists(content: string)
    requires Contains(content, ReposKey)
    ensures FirstLineContaining(Lines(content), ReposKey).Some?
  {
    var ls := Lines(content);
    UnlinesLines(content);
    ContainsImpliesLineContains(ls, ReposKey);
    var k :| 0 <= k < |ls| && Contains(ls[k], ReposKey);
  }

  /** The lines after the marker insertion hold no line break. */
  lemma InsertedLinesOneLine(ls: seq<string>)
    requires |ls| >= 1 && NoNewlines(ls)
    ensures |InsertMarkerLine(ls)| >= 1 && NoNewlines(InsertMarkerLine(ls))
  {
    IndentedMarkerOneLine();
    var j := MarkerSlot(ls);
    var r := InsertMarkerLine(ls);
    forall k | 0 <= k < |r| ensures '\n' !in r[k] {
      if k < j {
        assert r[k] == ls[k];
      } else if k > j {
        assert r[k] == ls[k - 1];
      }
    }
  }

  /** Without `repos:`, `repos:` and the marker line are appended. */
  lemma EnsureMarkerAppends(content: string)
    requires !Contains(content, Marker) && !Contains(content, ReposKey)
    ensures EnsureMarker(content) == content + "\nrepos:\n  " + Marker
  {
  }

  /** `r` is the run `ls[a..b]` and every line outside it is blank. */
  predicate KeptRun(ls: seq<string>, r: seq<string>, a: nat, b: nat) {
    a <= b <= |ls| && r == ls[a..b] &&
    (forall k :: 0 <= k < a ==> IsBlank(ls[k])) &&
    (forall k :: b <= k < |ls| ==> IsBlank(ls[k]))
  }

  /** The lines the blank-line trimming keeps are a contiguous run of the
      original, everything removed is blank, and the run is empty or starts and
      ends with a non-blank line. */
  lemma StripBlankEndsShape(ls: seq<string>)
    ensures exists a: nat, b: nat :: KeptRun(ls, StripBlankEnds(ls), a, b)
    ensures var r := StripBlankEnds(ls);
      |r| == 0 || (!IsBlank(r[0]) && !IsBlank(r[|r| - 1]))
  {
    var a, b := KeptBounds(ls);
    var d := DropLeadingBlank(ls);
    var r := DropTrailingBlank(d);
    if |r| > 0 {
      assert r[0] == d[0];
    }
  }

  /** Where the kept run starts and ends. */
  lemma KeptBounds(ls: seq<string>) returns (a: nat, b: nat)
    ensures KeptRun(ls, StripBlankEnds(ls), a, b)
  {
    var d := DropLeadingBlank(ls);
    var r := DropTrailingBlank(d);
    a := |ls| - |d|;
    b := a + |r|;
    assert d == ls[a..];
    assert r == d[..|r|];
    assert r == ls[a..b];
    forall k | b <= k < |ls| ensures IsBlank(ls[k]) {
      assert ls[k] == d[k - a];
    }
  }

  /** Trimming blank lines twice is trimming them once. */
  lemma StripBlankEndsIdempotent(ls: seq<string>)
    ensures StripBlankEnds(StripBlankEnds(ls)) == StripBlankEnds(ls)
  {
    StripBlankEndsShape(ls);
    var r := StripBlankEnds(ls);
    if |r| > 0 {
      assert DropLeadingBlank(r) == r;
      assert DropTrailingBlank(r) == r;
    }
  }

  /** A text containing `u`, where `u` contains `t`, contains `t`. */
  lemma ContainsTransitive(s: string, u: string, t: string)
    requires Contains(s, u) && Contains(u, t)
    ensures Contains(s, t)
  {
    var i :| 0 <= i <= |s| && OccursAt(s, u, i);
    var j :| 0 <= j <= |u| && OccursAt(u, t, j);
    assert s[i..i + |u|] == u;
    forall m | 0 <= m < |t| ensures s[i + j + m] == t[m] {
      assert s[i + j + m] == u[j + m];
      assert u[j + m] == t[m];
    }
    assert s[i + j..i + j + |t|] == t;
    assert OccursAt(s, t, i + j);
  }

  /** Indenting lines adds no line break. */
  lemma IndentLinesOneLine(ls: seq<string>)
    requires NoNewlines(ls)
    ensures NoNewlines(IndentLines(ls))
  {
    forall k | 0 <= k < |ls| ensures '\n' !in IndentLines(ls)[k] {
      assert IndentLines(ls)[k] == "  " + ls[k];
    }
  }

  /** With the first line containing `t` at `k`, the block goes right after
      line `k`, and line `k` is still the first one containing `t`. */
  lemma InsertAfterFirstAt(ls: seq<string>, t: string, block: seq<string>, k: nat)
    requires FirstLineContaining(ls, t) == Some(k)
    ensures InsertAfterFirst(ls, t, block) == ls[..k + 1] + block + ls[k + 1..]
    ensures FirstLineContaining(InsertAfterFirst(ls, t, block), t) == Some(k)
  {
    var r := ls[..k + 1] + block + ls[k + 1..];
    assert forall j :: 0 <= j <= k ==> r[j] == ls[j];
    FirstLineContainingIs(r, t, k);
  }

  /** Putting `block` after line `k` of a text's lines, where line `k` is the
      first holding `t`: splitting the joined result gives those lines back,
      and line `k` is still the first holding `t`. */
  lemma InsertedAfterFirstLines(content: string, t: string, block: seq<string>, k: nat)
    requires NoNewlines(block)
    requires FirstLineContaining(Lines(content), t) == Some(k)
    ensures var ls := Lines(content);
      Lines(Unlines(InsertAfterFirst(ls, t, block))) == ls[..k + 1] + block + ls[k + 1..]
    ensures FirstLineContaining(Lines(Unlines(InsertAfterFirst(Lines(content), t, block))), t) == Some(k)
  {
    var ls := Lines(content);
    InsertAfterFirstAt(ls, t, block, k);
    NoNewlinesSlice(ls, 0, k + 1);
    NoNewlinesSlice(ls, k + 1, |ls|);
    NoNewlinesConcat(ls[..k + 1], block);
    NoNewlinesConcat(ls[..k + 1] + block, ls[k + 1..]);
    LinesUnlines(ls[..k + 1] + block + ls[k + 1..]);
  }

  /** Splicing nothing after line `k`. */
  lemma SpliceNothing(ls: seq<string>, k: nat)
    requires k < |ls|
    ensures ls[..k + 1] + [] + ls[k + 1..] == ls
  {
    assert ls == ls[..k + 1] + ls[k + 1..];
  }

  /** Splicing `b` after line `k` of the result of splicing `a` after line `k`. */
  lemma SpliceTwice(ls: seq<string>, a: seq<string>, b: seq<string>, k: nat)
    requires k < |ls|
    ensures var m := ls[..k + 1] + a + ls[k + 1..];
      m[..k + 1] + b + m[k + 1..] == ls[..k + 1] + b + a + ls[k + 1..] &&
      m[..k + 1] + b + m[k + 1..] == ls[..k + 1] + (b + a) + ls[k + 1..]
  {
    var m := ls[..k + 1] + a + ls[k + 1..];
    assert m[..k + 1] == ls[..k + 1];
    assert m[k + 1..] == a + ls[k + 1..];
  }

  /** A text that contains the marker has a line that contains it. */
  lemma MarkerLineExists(content: string)
    requires Contains(content, Marker)
    ensures FirstLineContaining(Lines(content), Marker).Some?
  {
    var ls := Lines(content);
    UnlinesLines(content);
    MarkerOneLine();
    ContainsImpliesLineContains(ls, Marker);
    var k :| 0 <= k < |ls| && Contains(ls[k], Marker);
  }

  lemma MarkerOneLine()
    ensures '\n' !in Marker
  {
    IndentedMarkerOneLine();
    assert forall c :: c in Marker ==> c in IndentedMarker;
  }

  /** Indenting the non-blank lines adds no line break. */
  lemma {:induction false} IndentNonBlankOneLine(ls: seq<string>)
    requires NoNewlines(ls)
    ensures NoNewlines(IndentNonBlank(ls))
  {
    if |ls| > 0 {
      IndentNonBlankOneLine(ls[..|ls| - 1]);
      var last := ls[|ls| - 1];
      assert '\n' !in last;
      assert '\n' !in Indent(last) by {
        forall i | 0 <= i < |Indent(last)| ensures Indent(last)[i] != '\n' {
          if i >= 2 {
            assert Indent(last)[i] == last[i - 2];
          }
        }
      }
    }
  }

  /** Every non-blank line is kept, indented. */
  lemma {:induction false} IndentNonBlankKeeps(ls: seq<string>, l: string)
    requires l in ls && !IsBlank(l)
    ensures Indent(l) in IndentNonBlank(ls)
  {
    var n := |ls| - 1;
    if ls[n] != l {
      assert l in ls[..n] by {
        var k :| 0 <= k < |ls| && ls[k] == l;
        assert k < n && ls[..n][k] == l;
      }
      IndentNonBlankKeeps(ls[..n], l);
    }
  }

  /** Every line kept is a non-blank line of the input, indented. */
  lemma {:induction false} IndentNonBlankOnly(ls: seq<string>, m: string)
    requires m in IndentNonBlank(ls)
    ensures exists l :: l in ls && !IsBlank(l) && m == Indent(l)
  {
    var n := |ls| - 1;
    var last := ls[n];
    if m in IndentNonBlank(ls[..n]) {
      IndentNonBlankOnly(ls[..n], m);
      var l :| l in ls[..n] && !IsBlank(l) && m == Indent(l);
      assert l in ls;
    } else {
      assert m == Indent(last) && !IsBlank(last);
    }
  }
}
