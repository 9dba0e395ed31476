/** The script templates the installer offers (`Installer.getAvailableTemplates`
    and `getTemplateDescription` in install.swift): the `.sh` files of the
    downloaded `scripts/` directory, sorted by file name, each with a one-line
    description taken from its first comment line. The directory listing and
    the file texts are inputs. */
module ScriptTemplates {
  import opened Text
  import opened Ordering

  const ShellExtension := ".sh"
  const CannotRead := "No description available (cannot read file)"
  const NoComment := "No description comment found"

  /** What listing the scripts directory gave. */
  datatype Listing =
    | NoDirectory                   // the directory does not exist
    | ListingError                  // `contentsOfDirectory` threw
    | Entries(names: seq<string>)   // the directory's entries

  /** `getAvailableTemplates`: the offered scripts, or the error it throws. */
  datatype Offer = Offered(scripts: seq<(string, string)>) | ListFailed

  /** The characters of `CharacterSet(charactersIn: "# ")`. */
  predicate IsHashOrSpace(c: char) {
    c == '#' || c == ' '
  }

  /** Every character is `#` or a space. */
  predicate AllHashOrSpace(s: string) {
    forall i :: 0 <= i < |s| ==> IsHashOrSpace(s[i])
  }

  function StripLeft(s: string): (r: string)
    ensures |r| <= |s| && r == s[|s| - |r|..]
    ensures |r| > 0 ==> !IsHashOrSpace(r[0])
    ensures AllHashOrSpace(s[..|s| - |r|])
    decreases |s|
  {
    if |s| > 0 && IsHashOrSpace(s[0]) then
      var r := StripLeft(s[1..]);
      assert s[1..][..|s| - 1 - |r|] == s[1..|s| - |r|];
      r
    else s
  }

  function StripRight(s: string): (r: string)
    ensures |r| <= |s| && r == s[..|r|]
    ensures |r| > 0 ==> !IsHashOrSpace(r[|r| - 1])
    ensures AllHashOrSpace(s[|r|..])
    decreases |s|
  {
    if |s| > 0 && IsHashOrSpace(s[|s| - 1]) then
      var r := StripRight(s[..|s| - 1]);
      assert s[..|s| - 1][|r|..] == s[|r|..|s| - 1];
      r
    else s
  }

  /** `trimmingCharacters(in: CharacterSet(charactersIn: "# "))`: the text
      between the runs of `#` and space at both ends. */
  function StripHashes(s: string): (r: string)
    ensures |r| <= |s|
    ensures |r| > 0 ==> !IsHashOrSpace(r[0]) && !IsHashOrSpace(r[|r| - 1])
  {
    StripRight(StripLeft(s))
  }

  /** A line that can describe a script: after trimming spaces and tabs it is
      a comment, but not a `#!` interpreter line. */
  predicate IsDescriptionLine(line: string) {
    var t := TrimSpaces(line);
    HasPrefix(t, "#") && !HasPrefix(t, "#!")
  }

  /** `lines.first(where:)` with that test, as an index. */
  function FirstDescriptionLine(lines: seq<string>): (r: Option<nat>)
    ensures r.Some? ==> r.value < |lines| && IsDescriptionLine(lines[r.value])
    ensures r.Some? ==> forall k :: 0 <= k < r.value ==> !IsDescriptionLine(lines[k])
    ensures r.None? ==> forall k :: 0 <= k < |lines| ==> !IsDescriptionLine(lines[k])
    decreases |lines|
  {
    if |lines| == 0 then None
    else if IsDescriptionLine(lines[0]) then Some(0)
    else
      match FirstDescriptionLine(lines[1..])
      case None =>
        assert forall k :: 1 <= k < |lines| ==> lines[k] == lines[1..][k - 1];
        None
      case Some(i) =>
        assert forall k :: 1 <= k <= i ==> lines[k] == lines[1..][k - 1];
        Some(i + 1)
  }

  /** `getTemplateDescription` given the script's text (`None` when it cannot
      be read). */
  function Description(contents: Option<string>): string {
    match contents
    case None => CannotRead
    case Some(text) =>
      var lines := Lines(text);
      match FirstDescriptionLine(lines)
      case Some(k) => StripHashes(lines[k])
      case None => NoComment
  }

  /** `contents.filter { $0.hasSuffix(".sh") }`. */
  function ShellScripts(names: seq<string>): (r: seq<string>)
    ensures |r| <= |names|
    ensures forall x :: x in r <==> x in names && HasSuffix(x, ShellExtension)
    ensures forall i :: 0 <= i < |r| ==> HasSuffix(r[i], ShellExtension)
    ensures (forall i, j :: 0 <= i < j < |names| ==> names[i] != names[j]) ==>
      forall i, j :: 0 <= i < j < |r| ==> r[i] != r[j]
    decreases |names|
  {
    if |names| == 0 then []
    else
      var rest := ShellScripts(names[1..]);
      assert forall x :: x in names <==> x == names[0] || x in names[1..];
      assert (forall i, j :: 0 <= i < j < |names| ==> names[i] != names[j]) ==> names[0] !in names[1..];
      if HasSuffix(names[0], ShellExtension) then [names[0]] + rest else rest
  }

  /** Each script paired with its description. */
  function Described(names: seq<string>, read: string -> Option<string>): (r: seq<(string, string)>)
    ensures |r| == |names|
    ensures forall i :: 0 <= i < |names| ==> r[i] == (names[i], Description(read(names[i])))
  {
    seq(|names|, i requires 0 <= i < |names| => (names[i], Description(read(names[i]))))
  }

  function FileName(entry: (string, string)): string {
    entry.0
  }

  /** `getAvailableTemplates`: `read` gives each file's text, if readable. */
  function AvailableTemplates(listing: Listing, read: string -> Option<string>): Offer {
    match listing
    case NoDirectory => Offered([])
    case ListingError => ListFailed
    case Entries(names) => Offered(SortBy(Described(ShellScripts(names), read), FileName))
  }

  // ---------------------------------------------------------------------------
  // Properties

  /** The offer lists each `.sh` entry of the directory exactly once, in
      ascending file-name order, with the description of its text; other
      entries are not offered. A missing directory offers nothing and a
      failed listing is an error. */
  lemma OfferedScripts(listing: Listing, read: string -> Option<string>)
    requires listing.Entries? ==> forall i, j :: 0 <= i < j < |listing.names| ==> listing.names[i] != listing.names[j]
    ensures listing.NoDirectory? ==> AvailableTemplates(listing, read) == Offered([])
    ensures listing.ListingError? <==> AvailableTemplates(listing, read).ListFailed?
    ensures listing.Entries? ==>
      var r := AvailableTemplates(listing, read).scripts;
      (forall i, j :: 0 <= i < j < |r| ==> Less(r[i].0, r[j].0)) &&
      (forall i :: 0 <= i < |r| ==> r[i].1 == Description(read(r[i].0))) &&
      (forall x :: (exists i :: 0 <= i < |r| && r[i].0 == x) <==> x in listing.names && HasSuffix(x, ShellExtension))
  {
    if listing.Entries? {
      SortedDescribed(ShellScripts(listing.names), read);
    }
  }

  /** Sorting described scripts with distinct names orders them strictly by
      name and keeps every name with its description. */
  lemma SortedDescribed(names: seq<string>, read: string -> Option<string>)
    requires forall i, j :: 0 <= i < j < |names| ==> names[i] != names[j]
    ensures var r := SortBy(Described(names, read), FileName);
      (forall i, j :: 0 <= i < j < |r| ==> Less(r[i].0, r[j].0)) &&
      (forall i :: 0 <= i < |r| ==> r[i].1 == Description(read(r[i].0)) && r[i].0 in names) &&
      (forall x :: x in names ==> exists i :: 0 <= i < |r| && r[i].0 == x)
  {
    var d := Described(names, read);
    assert forall i, j :: 0 <= i < j < |d| ==> FileName(d[i]) != FileName(d[j]);
    SortByStrict(d, FileName);
    var r := SortBy(d, FileName);
    SameEntries(d, r);
    SortedPairs(names, read);
    SortedNames(names, read);
  }

  /** Two sequences with the same multiset hold the same elements. */
  lemma SameEntries<T>(a: seq<T>, b: seq<T>)
    requires multiset(a) == multiset(b)
    ensures forall x :: x in a <==> x in b
  {
    forall x ensures x in a <==> x in b {
      assert x in a <==> x in multiset(a);
    }
  }

  lemma SortedPairs(names: seq<string>, read: string -> Option<string>)
    ensures var r := SortBy(Described(names, read), FileName);
      forall i :: 0 <= i < |r| ==> r[i].1 == Description(read(r[i].0)) && r[i].0 in names
  {
    var d := Described(names, read);
    var r := SortBy(d, FileName);
    SameEntries(d, r);
    forall i | 0 <= i < |r| ensures r[i].1 == Description(read(r[i].0)) && r[i].0 in names {
      assert r[i] in r;
      var j :| 0 <= j < |d| && d[j] == r[i];
    }
  }

  lemma SortedNames(names: seq<string>, read: string -> Option<string>)
    ensures var r := SortBy(Described(names, read), FileName);
      forall x :: x in names ==> exists i :: 0 <= i < |r| && r[i].0 == x
  {
    var d := Described(names, read);
    var r := SortBy(d, FileName);
    SameEntries(d, r);
    forall x | x in names ensures exists i :: 0 <= i < |r| && r[i].0 == x {
      var j :| 0 <= j < |names| && names[j] == x;
      assert d[j] in d;
      var i :| 0 <= i < |r| && r[i] == d[j];
      assert r[i].0 == x;
    }
    assert r == SortBy(Described(names, read), FileName);
  }

  /** A comment line `# text`, first in the file, describes the script as
      `text`, for a text that does not start with `!` and has no `#` or space
      at its ends. */
  lemma CommentDescribes(text: string, rest: string)
    requires |text| > 0 && '\n' !in text && text[0] != '!' && text[|text| - 1] != '\t'
    requires !IsHashOrSpace(text[0]) && !IsHashOrSpace(text[|text| - 1])
    ensures Description(Some("# " + text + "\n" + rest)) == text
  {
    var line := "# " + text;
    assert "# " + text + "\n" + rest == line + "\n" + rest;
    SplitFirstLine(line, rest);
    assert TrimSpaces(line) == line;
    assert IsDescriptionLine(line);
    assert StripLeft(line[2..]) == text;
    assert StripLeft(line[1..]) == text;
    assert StripLeft(line) == text;
  }

  /** A line that is not a description (an interpreter line, code, a blank
      line) is passed over: the description comes from the lines after it. */
  lemma SkipsOtherLines(line: string, rest: string)
    requires '\n' !in line && !IsDescriptionLine(line)
    ensures Description(Some(line + "\n" + rest)) == Description(Some(rest))
  {
    SplitFirstLine(line, rest);
    FirstDescriptionShifts(line, Lines(rest));
  }

  /** Below a first line that is not a description, the description line is
      the same one, one place further down. */
  lemma FirstDescriptionShifts(line: string, ls: seq<string>)
    requires !IsDescriptionLine(line)
    ensures FirstDescriptionLine([line] + ls) ==
      match FirstDescriptionLine(ls) case Some(k) => Some(k + 1) case None => None
    ensures forall k :: 0 <= k < |ls| ==> ([line] + ls)[k + 1] == ls[k]
  {
    assert ([line] + ls)[1..] == ls;
  }

  /** An interpreter line `#!…` is never the description. */
  lemma ShebangIsNotDescription(line: string)
    requires HasPrefix(line, "#!")
    ensures !IsDescriptionLine(line)
  {
    TrimSpacesKeepsStart(line, "#!");
  }

  /** Trimming spaces and tabs keeps a start that begins and ends with other
      characters. */
  lemma TrimSpacesKeepsStart(s: string, p: string)
    requires |p| > 0 && HasPrefix(s, p)
    requires !IsHorizontalSpace(p[0]) && !IsHorizontalSpace(p[|p| - 1])
    ensures HasPrefix(TrimSpaces(s), p)
    decreases |s|
  {
    if |s| > 0 && IsHorizontalSpace(s[|s| - 1]) {
      assert |s| > |p|;
      assert s[..|s| - 1][..|p|] == p;
      TrimSpacesKeepsStart(s[..|s| - 1], p);
    }
  }

  /** A file with no comment line gets the fixed fallback text, and an
      unreadable one the other fixed text. */
  lemma FallbackDescriptions(text: string)
    requires '#' !in text
    ensures Description(Some(text)) == NoComment
    ensures Description(None) == CannotRead
  {
    var ls := Lines(text);
    forall k | 0 <= k < |ls| ensures !IsDescriptionLine(ls[k]) {
      LineOfText(text, k);
      NoHashNoDescription(ls[k]);
    }
    assert FirstDescriptionLine(ls).None?;
  }

  lemma NoHashNoDescription(line: string)
    requires '#' !in line
    ensures !IsDescriptionLine(line)
  {
    TrimSpacesWithin(line);
  }

  /** Every character of a line is a character of the text. */
  lemma LineOfText(text: string, k: nat)
    requires k < |Lines(text)|
    ensures forall c :: c in Lines(text)[k] ==> c in text
  {
    var ls := Lines(text);
    UnlinesLines(text);
    forall c | c in ls[k] ensures c in text {
      var i :| 0 <= i < |ls[k]| && ls[k][i] == c;
      assert OccursAt(ls[k], [c], i) by { assert ls[k][i..i + 1] == [c]; }
      LineContainsImpliesContains(ls, k, [c]);
      var j :| 0 <= j <= |text| && OccursAt(text, [c], j);
      assert text[j..j + 1][0] == text[j];
    }
  }

  /** Trimming spaces keeps a character of the line first. */
  lemma TrimSpacesWithin(s: string)
    ensures forall c :: c in TrimSpaces(s) ==> c in s
    decreases |s|
  {
    if |s| > 0 && IsHorizontalSpace(s[0]) {
      TrimSpacesWithin(s[1..]);
    } else if |s| > 0 && IsHorizontalSpace(s[|s| - 1]) {
      TrimSpacesWithin(s[..|s| - 1]);
    }
  }
}
