/** String helpers shared by every part of the model: substring search, splitting
    and joining on a separator, trimming whitespace and literal replacement.
    Strings are sequences of characters; Swift's grapheme clusters and its wider
    Unicode whitespace set are approximated (see IsWhitespace). */
module Text {

  datatype Option<T> = None | Some(value: T)

  /** Whitespace as `trimmingCharacters(in: .whitespacesAndNewlines)` sees it,
      restricted to the ASCII members of that set. */
  predicate IsWhitespace(c: char) {
    c == ' ' || c == '\t' || c == '\n' || c == '\r' || c == '\U{B}' || c == '\U{C}'
  }

  /** Whitespace as `.whitespaces` sees it (no line breaks), ASCII members only. */
  predicate IsHorizontalSpace(c: char) {
    c == ' ' || c == '\t'
  }

  predicate HasPrefix(s: string, p: string) {
    |p| <= |s| && s[..|p|] == p
  }

  predicate HasSuffix(s: string, p: string) {
    |p| <= |s| && s[|s| - |p|..] == p
  }

  predicate OccursAt(s: string, t: string, i: int) {
    0 <= i && i + |t| <= |s| && s[i..i + |t|] == t
  }

  /** `s.contains(t)` / `s.range(of: t) != nil` for a non-empty needle. */
  predicate Contains(s: string, t: string) {
    exists i :: 0 <= i <= |s| && OccursAt(s, t, i)
  }

  /** Position of the first occurrence of `t` in `s`. */
  function IndexOf(s: string, t: string): (r: Option<nat>)
    ensures r.Some? <==> Contains(s, t)
    ensures r.Some? ==> OccursAt(s, t, r.value)
    ensures r.Some? ==> forall j :: 0 <= j < r.value ==> !OccursAt(s, t, j)
    decreases |s|
  {
    if |t| > |s| then
      assert forall i :: !OccursAt(s, t, i);
      None
    else if s[..|t|] == t then
      assert OccursAt(s, t, 0);
      Some(0)
    else
      assert !OccursAt(s, t, 0);
      match IndexOf(s[1..], t)
      case None =>
        assert forall i :: OccursAt(s, t, i) ==> i > 0 && OccursAt(s[1..], t, i - 1);
        None
      case Some(j) =>
        assert OccursAt(s, t, j + 1);
        assert forall k :: 0 < k < j + 1 && OccursAt(s, t, k) ==> OccursAt(s[1..], t, k - 1);
        Some(j + 1)
  }

  /** `s.components(separatedBy: sep)`: the pieces between the occurrences of a
      non-empty separator, left to right. */
  function SplitOn(s: string, sep: string): (parts: seq<string>)
    requires |sep| > 0
    ensures |parts| >= 1
    ensures forall k :: 0 <= k < |parts| ==> !Contains(parts[k], sep)
    decreases |s|
  {
    match IndexOf(s, sep)
    case None => [s]
    case Some(i) =>
      NoOccurrenceInPrefix(s, sep, i);
      [s[..i]] + SplitOn(s[i + |sep|..], sep)
  }

  /** `parts.joined(separator: sep)`. */
  function Join(parts: seq<string>, sep: string): string
  {
    if |parts| == 0 then ""
    else if |parts| == 1 then parts[0]
    else parts[0] + sep + Join(parts[1..], sep)
  }

  /** The lines of a text: split on '\n' (a stand-in for `.newlines`). */
  function Lines(s: string): (ls: seq<string>)
    ensures |ls| >= 1
    ensures forall k :: 0 <= k < |ls| ==> '\n' !in ls[k]
  {
    var ls := SplitOn(s, "\n");
    assert forall k, i :: 0 <= k < |ls| && 0 <= i < |ls[k]| && ls[k][i] == '\n' ==> OccursAt(ls[k], "\n", i);
    ls
  }

  /** Lines glued back with '\n' (`joined(separator: "\n")`). */
  function Unlines(ls: seq<string>): string {
    Join(ls, "\n")
  }

  predicate NoNewlines(ls: seq<string>) {
    forall k :: 0 <= k < |ls| ==> '\n' !in ls[k]
  }

  /** A line made of whitespace only (its trimmed text is empty). */
  predicate IsBlank(s: string) {
    forall i :: 0 <= i < |s| ==> IsWhitespace(s[i])
  }

  /** The number of whitespace characters at the start of `s`. */
  function LeadingBlanks(s: string): (n: nat)
    ensures n <= |s| && IsBlank(s[..n])
    ensures n < |s| ==> !IsWhitespace(s[n])
    decreases |s|
  {
    if |s| > 0 && IsWhitespace(s[0]) then
      var n := LeadingBlanks(s[1..]);
      assert s[..n + 1] == [s[0]] + s[1..][..n];
      n + 1
    else 0
  }

  function TrimLeft(s: string): string {
    s[LeadingBlanks(s)..]
  }

  function TrimRight(s: string): (r: string)
    ensures |r| <= |s| && r == s[..|r|]
    ensures |r| > 0 ==> !IsWhitespace(r[|r| - 1])
    ensures IsBlank(s[|r|..])
    decreases |s|
  {
    if |s| > 0 && IsWhitespace(s[|s| - 1]) then
      var r := TrimRight(s[..|s| - 1]);
      assert s[..|s| - 1][|r|..] == s[|r|..|s| - 1];
      r
    else s
  }

  /** `trimmingCharacters(in: .whitespacesAndNewlines)`. */
  function Trim(s: string): (r: string)
    ensures r == "" <==> IsBlank(s)
    ensures |r| > 0 ==> !IsWhitespace(r[0]) && !IsWhitespace(r[|r| - 1])
  {
    var l := TrimLeft(s);
    var r := TrimRight(l);
    TrimFacts(s, l, r);
    r
  }

  lemma TrimFacts(s: string, l: string, r: string)
    requires l == TrimLeft(s) && r == TrimRight(l)
    ensures r == "" <==> IsBlank(s)
  {
    var n := LeadingBlanks(s);
    if r == "" {
      assert l == l[|r|..];
      assert IsBlank(l);
      assert n == |s|;
      assert s == s[..n];
    } else {
      assert r[0] == l[0];
      assert l[0] == s[n];
    }
  }

  /** `trimmingCharacters(in: .whitespaces)`: spaces and tabs at both ends. */
  function TrimSpaces(s: string): (r: string)
    ensures |r| <= |s|
    ensures |r| > 0 ==> !IsHorizontalSpace(r[0]) && !IsHorizontalSpace(r[|r| - 1])
    decreases |s|
  {
    if |s| > 0 && IsHorizontalSpace(s[0]) then TrimSpaces(s[1..])
    else if |s| > 0 && IsHorizontalSpace(s[|s| - 1]) then TrimSpaces(s[..|s| - 1])
    else s
  }

  /** The trimmed line starts with '#': a YAML comment line. */
  predicate IsCommentLine(s: string) {
    HasPrefix(Trim(s), "#")
  }

  /** `s.replacingOccurrences(of: pat, with: rep)`: every non-overlapping
      occurrence of `pat`, found scanning left to right, is replaced. */
  function ReplaceAll(s: string, pat: string, rep: string): string
    requires |pat| > 0
    decreases |s|
  {
    if |s| == 0 then ""
    else if HasPrefix(s, pat) then rep + ReplaceAll(s[|pat|..], pat, rep)
    else [s[0]] + ReplaceAll(s[1..], pat, rep)
  }

  // ---------------------------------------------------------------------------
  // Lemmas

  /** An occurrence with none before it is the one IndexOf finds. */
  lemma IndexOfFirst(s: string, t: string, i: nat)
    requires OccursAt(s, t, i)
    requires forall j :: 0 <= j < i ==> !OccursAt(s, t, j)
    ensures IndexOf(s, t) == Some(i)
  {
    var r := IndexOf(s, t);
    assert r.Some?;
    assert !(r.value < i);
    assert !(i < r.value);
  }

  lemma NoOccurrenceInPrefix(s: string, t: string, i: nat)
    requires |t| > 0 && i + |t| <= |s|
    requires forall j :: 0 <= j < i ==> !OccursAt(s, t, j)
    ensures !Contains(s[..i], t)
  {
    forall j | 0 <= j <= i ensures !OccursAt(s[..i], t, j) {
      if j + |t| <= i {
        assert s[..i][j..j + |t|] == s[j..j + |t|];
        assert !OccursAt(s, t, j);
      }
    }
  }

  lemma {:induction false} JoinSplit(s: string, sep: string)
    requires |sep| > 0
    ensures Join(SplitOn(s, sep), sep) == s
    decreases |s|
  {
    match IndexOf(s, sep)
    case None =>
    case Some(i) =>
      var rest := s[i + |sep|..];
      var tail := SplitOn(rest, sep);
      JoinSplit(rest, sep);
      var parts := SplitOn(s, sep);
      assert parts == [s[..i]] + tail;
      assert parts[0] == s[..i] && parts[1..] == tail;
      assert Join(parts, sep) == s[..i] + sep + Join(tail, sep);
      assert s[i..i + |sep|] == sep;
      assert s == s[..i] + s[i..i + |sep|] + rest;
  }

  /** Joining lines and splitting again gives the lines back. */
  lemma {:induction false} LinesUnlines(ls: seq<string>)
    requires |ls| >= 1
    requires NoNewlines(ls)
    ensures Lines(Unlines(ls)) == ls
    decreases |ls|
  {
    if |ls| == 1 {
      NoNewlineNoOccurrence(ls[0]);
    } else {
      assert Unlines(ls) == ls[0] + "\n" + Unlines(ls[1..]);
      SplitFirstLine(ls[0], Unlines(ls[1..]));
      LinesUnlines(ls[1..]);
    }
  }

  /** Splitting a line, a line break and a rest gives the line, then the rest's lines. */
  lemma SplitFirstLine(l: string, rest: string)
    requires '\n' !in l
    ensures Lines(l + "\n" + rest) == [l] + Lines(rest)
  {
    var s := l + "\n" + rest;
    assert OccursAt(s, "\n", |l|);
    forall j | 0 <= j < |l| ensures !OccursAt(s, "\n", j) {
      assert s[j..j + 1][0] == s[j] == l[j];
    }
    IndexOfFirst(s, "\n", |l|);
    assert s[|l| + 1..] == rest;
    assert s[..|l|] == l;
  }

  lemma NoNewlineNoOccurrence(l: string)
    requires '\n' !in l
    ensures !Contains(l, "\n")
  {
    forall j | 0 <= j <= |l| ensures !OccursAt(l, "\n", j) {
      if j < |l| {
        assert l[j..j + 1][0] == l[j];
      }
    }
  }

  /** Splitting and joining again gives the text back. */
  lemma UnlinesLines(s: string)
    ensures Unlines(Lines(s)) == s
  {
    JoinSplit(s, "\n");
  }

  /** A text with a line containing the needle contains the needle. */
  lemma {:induction false} LineContainsImpliesContains(ls: seq<string>, k: nat, t: string)
    requires k < |ls|
    requires Contains(ls[k], t)
    ensures Contains(Unlines(ls), t)
    decreases |ls|
  {
    var j :| 0 <= j <= |ls[k]| && OccursAt(ls[k], t, j);
    if |ls| == 1 {
    } else if k == 0 {
      var s := Unlines(ls);
      assert s == ls[0] + ("\n" + Unlines(ls[1..]));
      assert s[j..j + |t|] == ls[0][j..j + |t|];
      assert OccursAt(s, t, j);
    } else {
      LineContainsImpliesContains(ls[1..], k - 1, t);
      var rest := Unlines(ls[1..]);
      var i :| 0 <= i <= |rest| && OccursAt(rest, t, i);
      var s := Unlines(ls);
      var off := |ls[0]| + 1;
      assert s == (ls[0] + "\n") + rest;
      assert s[off + i..off + i + |t|] == rest[i..i + |t|];
      assert OccursAt(s, t, off + i);
    }
  }

  /** A needle without a line break found in a text lies inside one line. */
  lemma {:induction false} ContainsImpliesLineContains(ls: seq<string>, t: string)
    requires |ls| >= 1
    requires '\n' !in t
    requires Contains(Unlines(ls), t)
    ensures exists k :: 0 <= k < |ls| && Contains(ls[k], t)
    decreases |ls|
  {
    var s := Unlines(ls);
    var i :| 0 <= i <= |s| && OccursAt(s, t, i);
    if |ls| == 1 {
      assert Contains(ls[0], t);
    } else {
      var rest := Unlines(ls[1..]);
      var n := |ls[0]|;
      assert s == ls[0] + "\n" + rest;
      if i + |t| <= n {
        assert s[i..i + |t|] == ls[0][i..i + |t|];
        assert OccursAt(ls[0], t, i);
      } else if i <= n {
        NewlineInsideWindow(s, t, i, n);
        assert false;
      } else {
        assert s[i..i + |t|] == rest[i - n - 1..i - n - 1 + |t|];
        assert OccursAt(rest, t, i - n - 1);
        ContainsImpliesLineContains(ls[1..], t);
        var k :| 0 <= k < |ls[1..]| && Contains(ls[1..][k], t);
        assert Contains(ls[k + 1], t);
      }
    }
  }

  lemma NewlineInsideWindow(s: string, t: string, i: nat, n: nat)
    requires OccursAt(s, t, i) && i <= n < i + |t| && s[n] == '\n'
    ensures '\n' in t
  {
    assert t[n - i] == s[i..i + |t|][n - i] == s[n];
  }

  /** Replacement leaves a text without the pattern untouched. */
  lemma {:induction false} ReplaceAllAbsent(s: string, pat: string, rep: string)
    requires |pat| > 0
    requires !Contains(s, pat)
    ensures ReplaceAll(s, pat, rep) == s
    decreases |s|
  {
    if |s| > 0 {
      assert !OccursAt(s, pat, 0);
      forall i | 0 <= i <= |s| - 1 && OccursAt(s[1..], pat, i) ensures false {
        assert s[1..][i..i + |pat|] == s[i + 1..i + 1 + |pat|];
        assert OccursAt(s, pat, i + 1);
      }
      ReplaceAllAbsent(s[1..], pat, rep);
    }
  }

  /** Replacing by something no longer never makes the text longer. */
  lemma {:induction false} ReplaceAllShrinks(s: string, pat: string, rep: string)
    requires |pat| > 0 && |rep| <= |pat|
    ensures |ReplaceAll(s, pat, rep)| <= |s|
    decreases |s|
  {
    if |s| > 0 {
      if HasPrefix(s, pat) {
        ReplaceAllShrinks(s[|pat|..], pat, rep);
      } else {
        ReplaceAllShrinks(s[1..], pat, rep);
      }
    }
  }

  lemma ContainsSuffix(a: string, t: string)
    ensures Contains(a + t, t)
  {
    assert (a + t)[|a|..|a| + |t|] == t;
    assert OccursAt(a + t, t, |a|);
  }

  lemma ContainsPrefix(t: string, b: string)
    ensures Contains(t + b, t)
  {
    assert (t + b)[..|t|] == t;
    assert OccursAt(t + b, t, 0);
  }

  lemma ContainsGrows(a: string, s: string, b: string, t: string)
    requires Contains(s, t)
    ensures Contains(a + s + b, t)
  {
    var i :| 0 <= i <= |s| && OccursAt(s, t, i);
    assert (a + s + b)[|a| + i..|a| + i + |t|] == s[i..i + |t|];
    assert OccursAt(a + s + b, t, |a| + i);
  }

  lemma ContainsExtended(a: string, s: string, b: string, t: string)
    requires Contains(s, t)
    ensures Contains(a + s, t) && Contains(s + b, t)
  {
    ContainsGrows(a, s, "", t);
    assert a + s + "" == a + s;
    ContainsGrows("", s, b, t);
    assert "" + s + b == s + b;
  }

  /** A text without the separator is a single piece. */
  lemma SplitOnAbsent(s: string, sep: string)
    requires |sep| > 0 && !Contains(s, sep)
    ensures SplitOn(s, sep) == [s]
  {
  }

  /** Trimming a text without blanks at its ends changes nothing. */
  lemma TrimSpacesUnchanged(s: string)
    requires |s| > 0 ==> !IsHorizontalSpace(s[0]) && !IsHorizontalSpace(s[|s| - 1])
    ensures TrimSpaces(s) == s
  {
  }

  /** A needle longer than the text cannot occur in it. */
  lemma TooLongToContain(s: string, t: string)
    requires |t| > |s|
    ensures !Contains(s, t)
  {
  }

  /** An occurrence in `s` of a single-line needle cannot cover position `n`
      when `s` breaks the line there. */
  lemma NotAcrossBreak(s: string, t: string, j: nat, n: nat)
    requires '\n' !in t && n < |s| && s[n] == '\n' && j <= n < j + |t|
    ensures !OccursAt(s, t, j)
  {
    if OccursAt(s, t, j) {
      NewlineInsideWindow(s, t, j, n);
    }
  }

  /** An occurrence lying inside a slice is an occurrence in the slice. */
  lemma OccursInSlice(s: string, t: string, j: nat, lo: nat, hi: nat)
    requires lo <= j && j + |t| <= hi <= |s| && OccursAt(s, t, j)
    ensures Contains(s[lo..hi], t)
  {
    forall k | 0 <= k < |t| ensures s[lo..hi][j - lo + k] == t[k] {
      assert s[j..j + |t|][k] == t[k];
    }
    assert s[lo..hi][j - lo..j - lo + |t|] == t;
    assert OccursAt(s[lo..hi], t, j - lo);
  }

  /** An occurrence past the break is an occurrence in the text after it. */
  lemma ShiftOccurrence(r: string, x: string, t: string, j: nat)
    requires |r| < j && OccursAt(r + ("\n" + x), t, j)
    ensures OccursAt(x, t, j - |r| - 1)
  {
    var c := r + ("\n" + x);
    assert c[|r| + 1..] == x;
    assert x[j - |r| - 1..j - |r| - 1 + |t|] == c[j..j + |t|];
  }

  /** No occurrence of a single-line needle starts before the break when the
      text before it does not contain the needle. */
  lemma NoneBeforeBreak(r: string, x: string, t: string, j: nat)
    requires '\n' !in t && !Contains(r, t) && j <= |r|
    ensures !OccursAt(r + ("\n" + x), t, j)
  {
    var c := r + ("\n" + x);
    assert c[..|r|] == r && c[|r|] == '\n';
    if j + |t| <= |r| {
      if OccursAt(c, t, j) {
        OccursInSlice(c, t, j, 0, |r|);
      }
    } else {
      NotAcrossBreak(c, t, j, |r|);
    }
  }

  /** `t` occurs at `i` in `s` and nowhere before. */
  predicate FirstAt(s: string, t: string, i: nat) {
    OccursAt(s, t, i) && forall j :: 0 <= j < i ==> !OccursAt(s, t, j)
  }

  /** The first occurrence of a single-line needle in `r + ("\n" + x)`, when `r`
      does not contain it, is its first occurrence in `x`. */
  lemma FirstPastBreak(r: string, x: string, t: string, k: nat)
    requires '\n' !in t && !Contains(r, t) && FirstAt(x, t, k)
    ensures FirstAt(r + ("\n" + x), t, |r| + 1 + k)
  {
    NoEarlierPastBreak(r, x, t, k);
    FoundPastBreak(r, x, t, k);
  }

  lemma NoEarlierPastBreak(r: string, x: string, t: string, k: nat)
    requires '\n' !in t && !Contains(r, t)
    requires forall j :: 0 <= j < k ==> !OccursAt(x, t, j)
    ensures forall j :: 0 <= j < |r| + 1 + k ==> !OccursAt(r + ("\n" + x), t, j)
  {
    forall j | 0 <= j < |r| + 1 + k ensures !OccursAt(r + ("\n" + x), t, j) {
      if j <= |r| {
        NoneBeforeBreak(r, x, t, j);
      } else if OccursAt(r + ("\n" + x), t, j) {
        ShiftOccurrence(r, x, t, j);
      }
    }
  }

  lemma FoundPastBreak(r: string, x: string, t: string, k: nat)
    requires OccursAt(x, t, k)
    ensures OccursAt(r + ("\n" + x), t, |r| + 1 + k)
  {
    var c := r + ("\n" + x);
    assert c[|r| + 1..] == x;
    assert x[k..k + |t|] == c[|r| + 1 + k..|r| + 1 + k + |t|];
  }

  /** A text starting with the needle has it first at 0. */
  lemma FirstAtStart(t: string, y: string)
    ensures FirstAt(t + y, t, 0)
  {
    assert (t + y)[..|t|] == t;
  }

  /** A needle absent from a text is absent from each of its prefixes. */
  lemma PrefixKeepsAbsence(s: string, n: nat, t: string)
    requires n <= |s| && !Contains(s, t)
    ensures !Contains(s[..n], t)
  {
    if Contains(s[..n], t) {
      var i :| 0 <= i <= n && OccursAt(s[..n], t, i);
      assert s[i..i + |t|] == s[..n][i..i + |t|];
      assert OccursAt(s, t, i);
    }
  }

  /** An end marker comes first right after a body that ends with a line
      break (or is empty) and does not contain it. */
  lemma EndAfterBody(body: string, em: string)
    requires '\n' !in em && !Contains(body, em)
    requires body == "" || body[|body| - 1] == '\n'
    ensures FirstAt(body + (em + "\n"), em, |body|)
  {
    FirstAtStart(em, "\n");
    if body == "" {
      assert body + (em + "\n") == em + "\n";
    } else {
      var b := body[..|body| - 1];
      PrefixKeepsAbsence(body, |body| - 1, em);
      FirstPastBreak(b, em + "\n", em, 0);
      assert body == b + "\n";
      assert body + (em + "\n") == b + ("\n" + (em + "\n"));
    }
  }

  /** In `r`, a break, a one-line start marker, a break, a body ending with a
      break (or empty), a one-line end marker and a break, the first start
      marker and the first end marker are the ones written there, provided `r`
      holds neither and the body and the start marker hold no end marker. */
  lemma MarkersLocated(r: string, bm: string, body: string, em: string)
    requires '\n' !in bm && '\n' !in em && !Contains(bm, em)
    requires !Contains(r, bm) && !Contains(r, em) && !Contains(body, em)
    requires body == "" || body[|body| - 1] == '\n'
    ensures FirstAt(r + ("\n" + (bm + ("\n" + (body + (em + "\n"))))), bm, |r| + 1)
    ensures FirstAt(r + ("\n" + (bm + ("\n" + (body + (em + "\n"))))), em, |r| + 1 + |bm| + 1 + |body|)
  {
    var y := body + (em + "\n");
    FirstAtStart(bm, "\n" + y);
    FirstPastBreak(r, bm + ("\n" + y), bm, 0);
    EndAfterBody(body, em);
    FirstPastBreak(bm, y, em, |body|);
    FirstPastBreak(r, bm + ("\n" + y), em, |bm| + 1 + |body|);
  }

  /** Concatenation regrouped to the right. */
  lemma Regroup(a: string, b: string, c: string, d: string)
    ensures a + b + c + d == a + (b + (c + d)) && a + b + c == a + (b + c)
  {
  }

  /** The two parts of a concatenation are its prefix and its suffix. */
  lemma ConcatEnds(a: string, b: string)
    ensures HasPrefix(a + b, a) && HasSuffix(a + b, b)
  {
    assert (a + b)[..|a|] == a;
    assert (a + b)[|a|..] == b;
  }

  /** Cutting a text just after the line break that follows its first part. */
  lemma CutAfterBreak(r: string, x: string)
    ensures (r + ("\n" + x))[..|r| + 1] == r + "\n"
    ensures (r + ("\n" + x))[..|r|] == r
  {
  }

  /** A suffix of a text stays a suffix when something is put in front. */
  lemma SuffixOfSuffix(a: string, s: string, p: string)
    requires HasSuffix(s, p)
    ensures HasSuffix(a + s, p)
  {
    assert (a + s)[|a + s| - |p|..] == s[|s| - |p|..];
  }

  /** Lines without breaks stay so when put together. */
  lemma NoNewlinesConcat(a: seq<string>, b: seq<string>)
    requires NoNewlines(a) && NoNewlines(b)
    ensures NoNewlines(a + b)
  {
    forall k | 0 <= k < |a + b| ensures '\n' !in (a + b)[k] {
      if k >= |a| {
        assert (a + b)[k] == b[k - |a|];
      }
    }
  }

  /** A run of lines without breaks has none in any slice. */
  lemma NoNewlinesSlice(a: seq<string>, lo: nat, hi: nat)
    requires NoNewlines(a) && lo <= hi <= |a|
    ensures NoNewlines(a[lo..hi])
  {
    forall k | 0 <= k < hi - lo ensures '\n' !in a[lo..hi][k] {
      assert a[lo..hi][k] == a[lo + k];
    }
  }

  /** Joining two non-empty runs of pieces puts one separator between them. */
  lemma {:induction false} JoinConcat(a: seq<string>, b: seq<string>, sep: string)
    requires |a| >= 1 && |b| >= 1
    ensures Join(a + b, sep) == Join(a, sep) + sep + Join(b, sep)
    decreases |a|
  {
    assert (a + b)[0] == a[0];
    if |a| == 1 {
      assert (a + b)[1..] == b;
    } else {
      assert (a + b)[1..] == a[1..] + b;
      JoinConcat(a[1..], b, sep);
    }
  }

  /** The lines of two texts joined by a line break are the lines of the
      first followed by the lines of the second. */
  lemma LinesConcat(a: string, b: string)
    ensures Lines(a + "\n" + b) == Lines(a) + Lines(b)
  {
    UnlinesLines(a);
    UnlinesLines(b);
    JoinConcat(Lines(a), Lines(b), "\n");
    NoNewlinesConcat(Lines(a), Lines(b));
    LinesUnlines(Lines(a) + Lines(b));
  }

  /** A text without a line break is one line. */
  lemma LinesOneLine(l: string)
    requires '\n' !in l
    ensures Lines(l) == [l]
  {
    NoNewlineNoOccurrence(l);
    SplitOnAbsent(l, "\n");
  }

  /** Trimming keeps a first character that is not whitespace. */
  lemma TrimKeepsFirst(s: string)
    requires |s| > 0 && !IsWhitespace(s[0])
    ensures |Trim(s)| > 0 && Trim(s)[0] == s[0]
  {
    assert LeadingBlanks(s) == 0;
    assert TrimLeft(s) == s;
    assert !IsBlank(s);
  }

  /** A text with no whitespace at its ends is its own trimmed text. */
  lemma TrimUnchanged(s: string)
    requires |s| > 0 && !IsWhitespace(s[0]) && !IsWhitespace(s[|s| - 1])
    ensures Trim(s) == s
  {
    assert LeadingBlanks(s) == 0;
    assert TrimLeft(s) == s;
    assert TrimRight(s) == s;
  }
}
