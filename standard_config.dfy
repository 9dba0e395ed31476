/** The fixed text the installer writes above `repos:` in
    `.pre-commit-config.yaml`: `Config.standardHeader` and
    `Config.standardDefaults` of the installer script, line by line. Long
    literals are written in pieces of ten characters, which keeps the
    verifier's work on them small. */
module StandardConfig {
  import opened Text

  /** `Config.standardHeader`, line by line. */
  const HeaderLines: seq<string> := [
    "# See http" + "s://pre-co" + "mmit.com/ " + "for more i" + "nformation",
    "# See http" + "s://pre-co" + "mmit.com/h" + "ooks.html " + "for more h" + "ooks",
    "# This fil" + "e is manag" + "ed by the " + "pre-commit" + "-configs i" + "nstaller."
  ]

  /** `Config.standardDefaults`, line by line. */
  const DefaultsLines: seq<string> := [
    "# Default " + "configurat" + "ions (opti" + "onal)",
    "default_st" + "ages: [pre" + "-commit] #" + " Sensible " + "default",
    "default_in" + "stall_hook" + "_types: [p" + "re-commit," + " pre-push," + " commit-ms" + "g]",
    "# default_" + "language_v" + "ersion:",
    "#   python" + ": python3." + "9"
  ]

  /** A line that opens with a comment sign or with a `default_` key. */
  predicate OpensWithCommentOrKey(l: string) {
    |l| > 0 && (l[0] == '#' || l[0] == 'd')
  }

  /** No line of the header holds a line break. */
  lemma HeaderOneLine()
    ensures NoNewlines(HeaderLines)
  {
    forall k | 0 <= k < |HeaderLines| ensures '\n' !in HeaderLines[k] {
      if k == 0 {
        assert '\n' !in "# See http" && '\n' !in "s://pre-co" && '\n' !in "mmit.com/ " && '\n' !in "for more i" && '\n' !in "nformation";
      } else if k == 1 {
        assert '\n' !in "# See http" && '\n' !in "s://pre-co" && '\n' !in "mmit.com/h" && '\n' !in "ooks.html " && '\n' !in "for more h" && '\n' !in "ooks";
      } else if k == 2 {
        assert '\n' !in "# This fil" && '\n' !in "e is manag" && '\n' !in "ed by the " && '\n' !in "pre-commit" && '\n' !in "-configs i" && '\n' !in "nstaller.";
      }
    }
  }

  /** Every header line is a comment. */
  lemma HeaderOpens()
    ensures forall k :: 0 <= k < |HeaderLines| ==> OpensWithCommentOrKey(HeaderLines[k])
  {
  }

  /** No line of the defaults holds a line break. */
  lemma DefaultsOneLine()
    ensures NoNewlines(DefaultsLines)
  {
    forall k | 0 <= k < |DefaultsLines| ensures '\n' !in DefaultsLines[k] {
      if k == 0 {
        assert '\n' !in "# Default " && '\n' !in "configurat" && '\n' !in "ions (opti" && '\n' !in "onal)";
      } else if k == 1 {
        assert '\n' !in "default_st" && '\n' !in "ages: [pre" && '\n' !in "-commit] #" && '\n' !in " Sensible " && '\n' !in "default";
      } else if k == 2 {
        assert '\n' !in "default_in" && '\n' !in "stall_hook" && '\n' !in "_types: [p" && '\n' !in "re-commit," && '\n' !in " pre-push," && '\n' !in " commit-ms" && '\n' !in "g]";
      } else if k == 3 {
        assert '\n' !in "# default_" && '\n' !in "language_v" && '\n' !in "ersion:";
      } else if k == 4 {
        assert '\n' !in "#   python" && '\n' !in ": python3." && '\n' !in "9";
      }
    }
  }

  /** Every defaults line is a comment or a `default_` key. */
  lemma DefaultsOpen()
    ensures forall k :: 0 <= k < |DefaultsLines| ==> OpensWithCommentOrKey(DefaultsLines[k])
  {
  }
}
