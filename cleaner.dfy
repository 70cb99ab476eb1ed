/** The OCR-text cleaner of the client (App.jsx, `runOcr`): split the raw
    text into lines, collapse the whitespace of each line and trim it, drop
    every blank line that follows a blank line, join the lines again and trim
    the whole; an empty result is shown as a fixed placeholder. */
module Cleaner {
  import opened JsStrings

  type Lines = seq<string>

  /** `s.split("\n")`: the pieces between newlines; never empty. */
  function Split(s: string): (r: Lines)
    ensures |r| >= 1
    ensures forall i :: 0 <= i < |r| ==> '\n' !in r[i]
  {
    if |s| == 0 then [""]
    else
      var rest := Split(s[1..]);
      if s[0] == '\n' then [""] + rest
      else [[s[0]] + rest[0]] + rest[1..]
  }

  /** `ls.join("\n")`. */
  function Join(ls: Lines): string {
    if |ls| == 0 then ""
    else if |ls| == 1 then ls[0]
    else ls[0] + "\n" + Join(ls[1..])
  }

  /** The per-line step: `l.replace(/\s+/g, " ").trim()`. It yields the
      words of the line separated by single spaces. */
  function NormalizeLine(l: string): (r: string)
    ensures r == Unwords(Words(l))
    ensures LineNormal(r)
    ensures NonWs(r) == NonWs(l)
  {
    var c := CollapseWs(l);
    TrimKeepsSpacing(c);
    TrimKeepsNonWs(c);
    CollapseKeepsNonWs(l);
    TrimCollapseIsUnwords(l);
    Trim(c)
  }

  /** A line in normal form: trimmed, and its only whitespace is single
      spaces between other characters. */
  predicate LineNormal(l: string) {
    IsTrimmed(l) && NoAdjacentWs(l) && WsIsSpace(l)
  }

  predicate AllNormal(ls: Lines) {
    forall i :: 0 <= i < |ls| ==> LineNormal(ls[i])
  }

  /** `.map(NormalizeLine)`. */
  function NormalizeAll(ls: Lines): (r: Lines)
    ensures |r| == |ls|
  {
    if |ls| == 0 then [] else [NormalizeLine(ls[0])] + NormalizeAll(ls[1..])
  }

  lemma {:induction false} NormalizeAllNormal(ls: Lines)
    ensures AllNormal(NormalizeAll(ls))
  {
    if |ls| > 0 {
      NormalizeAllNormal(ls[1..]);
      var rest := NormalizeAll(ls[1..]);
      var r := [NormalizeLine(ls[0])] + rest;
      forall i | 0 <= i < |r| ensures LineNormal(r[i]) {
        if i > 0 {
          assert r[i] == rest[i - 1];
        }
      }
    }
  }

  /** No blank line directly follows another. */
  predicate NoBlankRun(ls: Lines) {
    forall i, j :: 0 <= i < |ls| && 0 <= j < |ls| && j == i + 1 ==> !(ls[i] == "" && ls[j] == "")
  }

  /** `.filter((l, i, arr) => !(l === "" && arr[i - 1] === ""))`, where
      `prevBlank` says whether the line before `ls` in the mapped array is
      blank (before the first line it is `undefined`, so not blank). The
      predecessor is taken from the array being filtered, not from the lines
      kept so far. */
  function DropRepeatedBlanks(ls: Lines, prevBlank: bool): Lines {
    if |ls| == 0 then []
    else
      (if ls[0] == "" && prevBlank then [] else [ls[0]])
      + DropRepeatedBlanks(ls[1..], ls[0] == "")
  }

  /** The cleaned text, before the placeholder is substituted. */
  function Clean(raw: string): string {
    Trim(Join(DropRepeatedBlanks(NormalizeAll(Split(raw)), false)))
  }

  const NoTextPlaceholder: string := "(No text detected)"

  /** What `runOcr` stores as `ocrText`: `cleaned || "(No text detected)"`. */
  function ShownText(raw: string): (r: string)
    ensures r != "" && IsClean(r)
    ensures AllWs(raw) ==> r == NoTextPlaceholder
    ensures !AllWs(raw) ==> r == Clean(raw)
  {
    CleanIsClean(raw);
    CleanEmptyIff(raw);
    PlaceholderIsClean();
    var c := Clean(raw);
    if c == "" then NoTextPlaceholder else c
  }

  /** The normal form the cleaner produces: the text is trimmed, each of its
      lines is in normal form, and no blank line follows a blank line. */
  predicate IsClean(s: string) {
    IsTrimmed(s) && AllNormal(Split(s)) && NoBlankRun(Split(s))
  }

  // ---------------------------------------------------------------------
  // Splitting and joining

  /** Joining the pieces of a split gives back the original text. */
  lemma {:induction false} JoinSplit(s: string)
    ensures Join(Split(s)) == s
  {
    if |s| > 0 {
      var rest := Split(s[1..]);
      JoinSplit(s[1..]);
      if s[0] == '\n' {
        assert Split(s) == [""] + rest;
        assert Join(Split(s)) == "" + "\n" + Join(rest);
        assert s == [s[0]] + s[1..];
      } else {
        var first := [s[0]] + rest[0];
        assert Split(s) == [first] + rest[1..];
        if |rest| == 1 {
          assert Join(Split(s)) == first;
        } else {
          assert ([first] + rest[1..])[1..] == rest[1..];
          assert Join(Split(s)) == first + "\n" + Join(rest[1..]);
          assert Join(rest) == rest[0] + "\n" + Join(rest[1..]);
        }
        assert s == [s[0]] + s[1..];
      }
    }
  }

  /** Splitting a join of newline-free lines gives back the lines. */
  lemma {:induction false} SplitJoin(ls: Lines)
    requires |ls| >= 1
    requires forall i :: 0 <= i < |ls| ==> '\n' !in ls[i]
    ensures Split(Join(ls)) == ls
  {
    if |ls| == 1 {
      SplitLine(ls[0], "", false);
    } else {
      SplitJoin(ls[1..]);
      SplitLine(ls[0], Join(ls[1..]), true);
      assert [ls[0]] + ls[1..] == ls;
    }
  }

  /** Splitting a newline-free line, possibly followed by a newline and more
      text. */
  lemma {:induction false} SplitLine(l: string, rest: string, newline: bool)
    requires '\n' !in l
    ensures newline ==> Split(l + "\n" + rest) == [l] + Split(rest)
    ensures !newline ==> Split(l) == [l]
  {
    if |l| == 0 {
      assert l + "\n" + rest == "\n" + rest;
      assert ("\n" + rest)[1..] == rest;
    } else {
      SplitLine(l[1..], rest, newline);
      assert (l + "\n" + rest)[1..] == l[1..] + "\n" + rest;
      assert [l[0]] + l[1..] == l;
    }
  }

  /** Joining two non-empty line lists. */
  lemma {:induction false} JoinAppend(a: Lines, b: Lines)
    requires |a| > 0 && |b| > 0
    ensures Join(a + b) == Join(a) + "\n" + Join(b)
  {
    if |a| == 1 {
      assert (a + b)[1..] == b;
    } else {
      JoinAppend(a[1..], b);
      assert (a + b)[1..] == a[1..] + b;
    }
  }

  /** The text of a join begins with the first line and ends with the last. */
  lemma {:induction false} JoinEnds(ls: Lines)
    requires |ls| > 0
    ensures |Join(ls)| >= |ls[0]| && Join(ls)[..|ls[0]|] == ls[0]
    ensures |Join(ls)| >= |ls[|ls| - 1]| && Join(ls)[|Join(ls)| - |ls[|ls| - 1]|..] == ls[|ls| - 1]
  {
    if |ls| > 1 {
      JoinEnds(ls[1..]);
    }
  }

  // ---------------------------------------------------------------------
  // The blank-line filter

  /** One step of the filter on a concatenation whose first part is not empty. */
  lemma DropAppendHead(a: Lines, b: Lines, prevBlank: bool)
    requires |a| > 0
    ensures DropRepeatedBlanks(a + b, prevBlank)
         == (if a[0] == "" && prevBlank then [] else [a[0]])
          + DropRepeatedBlanks(a[1..] + b, a[0] == "")
  {
    assert (a + b)[0] == a[0];
    assert (a + b)[1..] == a[1..] + b;
  }

  /** The filter is applied piecewise: the second part only needs to know
      whether the last line of the first part was blank. */
  lemma {:induction false} DropAppend(a: Lines, b: Lines, prevBlank: bool)
    ensures DropRepeatedBlanks(a + b, prevBlank)
         == DropRepeatedBlanks(a, prevBlank)
          + DropRepeatedBlanks(b, if |a| == 0 then prevBlank else a[|a| - 1] == "")
  {
    if |a| == 0 {
      assert a + b == b;
    } else {
      var blank := a[0] == "";
      var head := if blank && prevBlank then [] else [a[0]];
      var q := if |a| == 1 then blank else a[|a| - 1] == "";
      var rest := DropRepeatedBlanks(a[1..], blank);
      var tail := DropRepeatedBlanks(b, q);
      assert DropRepeatedBlanks(a[1..] + b, blank) == rest + tail by {
        DropAppend(a[1..], b, blank);
        assert (if |a[1..]| == 0 then blank else a[1..][|a[1..]| - 1] == "") == q;
      }
      assert DropRepeatedBlanks(a + b, prevBlank) == head + (rest + tail) by {
        DropAppendHead(a, b, prevBlank);
      }
      assert DropRepeatedBlanks(a, prevBlank) == head + rest;
      assert head + (rest + tail) == (head + rest) + tail;
    }
  }

  lemma {:induction false} DropBlanks(k: nat, prevBlank: bool)
    requires k >= 1
    ensures DropRepeatedBlanks(Repeat("", k), prevBlank) == if prevBlank then [] else [""]
  {
    if k > 1 {
      DropBlanks(k - 1, true);
    }
  }

  /** A run of one or more blank lines between non-blank lines (or the ends)
      comes out as exactly one blank line; the lines around it are filtered as
      if the run were not there. */
  lemma BlankRunReduced(before: Lines, k: nat, after: Lines)
    requires k >= 1
    requires |before| == 0 || before[|before| - 1] != ""
    requires |after| == 0 || after[0] != ""
    ensures DropRepeatedBlanks(before + Repeat("", k) + after, false)
         == DropRepeatedBlanks(before, false) + [""] + DropRepeatedBlanks(after, false)
  {
    DropAppend(before + Repeat("", k), after, false);
    DropAppend(before, Repeat("", k), false);
    DropBlanks(k, false);
    assert (before + Repeat("", k))[|before + Repeat("", k)| - 1] == "";
    DropFirstNotBlank(after);
  }

  /** Whether the predecessor was blank does not matter before a non-blank
      line. */
  lemma DropFirstNotBlank(ls: Lines)
    requires |ls| == 0 || ls[0] != ""
    ensures DropRepeatedBlanks(ls, true) == DropRepeatedBlanks(ls, false)
  {
  }

  /** The filter leaves no blank line directly after another, and the first
      line it keeps is not blank when the predecessor was. */
  lemma {:induction false} DropNoBlankRun(ls: Lines, prevBlank: bool)
    ensures NoBlankRun(DropRepeatedBlanks(ls, prevBlank))
    ensures prevBlank && |DropRepeatedBlanks(ls, prevBlank)| > 0
      ==> DropRepeatedBlanks(ls, prevBlank)[0] != ""
  {
    if |ls| > 0 {
      DropNoBlankRun(ls[1..], ls[0] == "");
    }
  }

  lemma {:induction false} DropKeepsNormal(ls: Lines, prevBlank: bool)
    requires AllNormal(ls)
    ensures AllNormal(DropRepeatedBlanks(ls, prevBlank))
  {
    if |ls| > 0 {
      DropKeepsNormal(ls[1..], ls[0] == "");
      var head := if ls[0] == "" && prevBlank then [] else [ls[0]];
      var rest := DropRepeatedBlanks(ls[1..], ls[0] == "");
      assert forall i :: 0 <= i < |rest| ==> (head + rest)[|head| + i] == rest[i];
    }
  }

  /** The filter always keeps the first line unless it is a blank after a
      blank. */
  lemma DropKeepsFirst(ls: Lines, prevBlank: bool)
    requires |ls| > 0 && !(prevBlank && ls[0] == "")
    ensures |DropRepeatedBlanks(ls, prevBlank)| > 0
    ensures DropRepeatedBlanks(ls, prevBlank)[0] == ls[0]
  {
  }

  /** The filter removes nothing from lines that have no blank run. */
  lemma {:induction false} DropKeepsUnrepeated(ls: Lines, prevBlank: bool)
    requires NoBlankRun(ls)
    requires prevBlank ==> |ls| == 0 || ls[0] != ""
    ensures DropRepeatedBlanks(ls, prevBlank) == ls
  {
    if |ls| > 0 {
      DropKeepsUnrepeated(ls[1..], ls[0] == "");
      assert [ls[0]] + ls[1..] == ls;
    }
  }

  // ---------------------------------------------------------------------
  // Non-whitespace characters

  /** The non-whitespace characters of all lines, in order. */
  function NonWsLines(ls: Lines): string {
    if |ls| == 0 then "" else NonWs(ls[0]) + NonWsLines(ls[1..])
  }

  lemma {:induction false} NonWsJoin(ls: Lines)
    ensures NonWs(Join(ls)) == NonWsLines(ls)
  {
    if |ls| == 1 {
      assert NonWsLines(ls) == NonWs(ls[0]) + "";
    } else if |ls| > 1 {
      NonWsJoin(ls[1..]);
      NonWsAppend(ls[0] + "\n", Join(ls[1..]));
      NonWsAppend(ls[0], "\n");
    }
  }

  lemma {:induction false} NonWsNormalizeAll(ls: Lines)
    ensures NonWsLines(NormalizeAll(ls)) == NonWsLines(ls)
  {
    if |ls| > 0 {
      NonWsNormalizeAll(ls[1..]);
    }
  }

  lemma {:induction false} NonWsDrop(ls: Lines, prevBlank: bool)
    ensures NonWsLines(DropRepeatedBlanks(ls, prevBlank)) == NonWsLines(ls)
  {
    if |ls| > 0 {
      NonWsDrop(ls[1..], ls[0] == "");
      var head := if ls[0] == "" && prevBlank then [] else [ls[0]];
      NonWsLinesAppend(head, DropRepeatedBlanks(ls[1..], ls[0] == ""));
    }
  }

  lemma {:induction false} NonWsLinesAppend(a: Lines, b: Lines)
    ensures NonWsLines(a + b) == NonWsLines(a) + NonWsLines(b)
  {
    if |a| > 0 {
      NonWsLinesAppend(a[1..], b);
      assert (a + b)[1..] == a[1..] + b;
    } else {
      assert a + b == b;
    }
  }

  // ---------------------------------------------------------------------
  // Properties of the cleaner

  /** Cleaning removes or replaces whitespace only: the non-whitespace
      characters of the raw text survive exactly, in order. */
  lemma CleanKeepsNonWs(raw: string)
    ensures NonWs(Clean(raw)) == NonWs(raw)
  {
    var split := Split(raw);
    var normal := NormalizeAll(split);
    var kept := DropRepeatedBlanks(normal, false);
    JoinSplit(raw);
    NonWsJoin(split);
    NonWsNormalizeAll(split);
    NonWsDrop(normal, false);
    NonWsJoin(kept);
    TrimKeepsNonWs(Join(kept));
  }

  /** The cleaned text is empty exactly when the raw text is all whitespace
      (so the placeholder is shown exactly then). */
  lemma CleanEmptyIff(raw: string)
    ensures Clean(raw) == "" <==> AllWs(raw)
  {
    CleanKeepsNonWs(raw);
    NonWsEmptyIff(raw);
    NonWsEmptyIff(Clean(raw));
  }

  /** Whatever the raw text, the cleaned text is in normal form. */
  lemma CleanIsClean(raw: string)
    ensures IsClean(Clean(raw))
  {
    var normal := NormalizeAll(Split(raw));
    var kept := DropRepeatedBlanks(normal, false);
    NormalizeAllNormal(Split(raw));
    DropNoBlankRun(normal, false);
    DropKeepsNormal(normal, false);
    DropKeepsFirst(normal, false);
    TrimJoinIsClean(kept);
  }

  /** Joining normal lines without blank runs and trimming the result yields a
      clean text. */
  lemma TrimJoinIsClean(ls: Lines)
    requires |ls| > 0 && AllNormal(ls) && NoBlankRun(ls)
    ensures IsClean(Trim(Join(ls)))
  {
    if ls == [""] {
      assert Trim(Join(ls)) == "";
      assert Split("") == [""];
    } else {
      var front: string := if ls[0] == "" then "\n" else "";
      var back: string := if ls[|ls| - 1] == "" then "\n" else "";
      var core := Inner(ls);
      JoinInner(ls);
      assert Join(ls) == front + Join(core) + back;
      assert AllWs(front) && AllWs(back);
      JoinOfInnerIsClean(core);
      TrimWrapped(front, Join(core), back);
    }
  }

  /** The lines without one leading and one trailing blank line. */
  function Inner(ls: Lines): Lines
    requires |ls| > 0
  {
    var lo := if ls[0] == "" then 1 else 0;
    var hi := if |ls| > lo && ls[|ls| - 1] == "" then |ls| - 1 else |ls|;
    ls[lo..hi]
  }

  /** Between an optional leading and trailing newline, the join of lines
      without blank runs is the join of its inner lines, which start and end
      with non-blank lines. */
  lemma JoinInner(ls: Lines)
    requires |ls| > 0 && AllNormal(ls) && NoBlankRun(ls) && ls != [""]
    ensures var core := Inner(ls);
      |core| > 0 && core[0] != "" && core[|core| - 1] != ""
      && AllNormal(core) && NoBlankRun(core)
      && Join(ls) == (if ls[0] == "" then "\n" else "") + Join(core)
                     + (if ls[|ls| - 1] == "" then "\n" else "")
  {
    var n := |ls|;
    var lo := if ls[0] == "" then 1 else 0;
    var hi := if n > lo && ls[n - 1] == "" then n - 1 else n;
    if ls[0] == "" {
      assert n > 1 && ls[1] != "";
    }
    if ls[n - 1] == "" {
      assert n > 1 && ls[n - 2] != "";
    }
    assert lo < hi;
    var a := ls[lo..];
    assert Join(ls) == (if ls[0] == "" then "\n" else "") + Join(a) by {
      if ls[0] == "" {
        assert Join(ls) == "" + "\n" + Join(ls[1..]);
      }
    }
    var core := ls[lo..hi];
    assert Join(a) == Join(core) + (if ls[n - 1] == "" then "\n" else "") by {
      if hi < n {
        JoinAppend(core, [""]);
        assert core + [""] == a;
      } else {
        assert core == a;
      }
    }
    SliceKeepsShape(ls, lo, hi);
  }

  lemma SliceKeepsShape(ls: Lines, lo: nat, hi: nat)
    requires lo <= hi <= |ls|
    requires AllNormal(ls) && NoBlankRun(ls)
    ensures AllNormal(ls[lo..hi]) && NoBlankRun(ls[lo..hi])
  {
    var t := ls[lo..hi];
    forall i, j | 0 <= i < |t| && 0 <= j < |t| && j == i + 1
      ensures !(t[i] == "" && t[j] == "")
    {
      assert t[i] == ls[lo + i] && t[j] == ls[lo + j];
    }
  }

  /** The join of normal lines without blank runs that starts and ends with a
      non-blank line is clean. */
  lemma JoinOfInnerIsClean(core: Lines)
    requires |core| > 0 && core[0] != "" && core[|core| - 1] != ""
    requires AllNormal(core) && NoBlankRun(core)
    ensures IsClean(Join(core))
  {
    var first, last := core[0], core[|core| - 1];
    JoinEnds(core);
    var j := Join(core);
    assert j[0] == j[..|first|][0] == first[0];
    assert j[|j| - 1] == j[|j| - |last|..][|last| - 1] == last[|last| - 1];
    assert LineNormal(first) && LineNormal(last);
    forall i | 0 <= i < |core| ensures '\n' !in core[i] {
      NormalHasNoNewline(core[i]);
    }
    SplitJoin(core);
  }

  lemma NormalHasNoNewline(l: string)
    requires LineNormal(l)
    ensures '\n' !in l
  {
    if '\n' in l {
      var i :| 0 <= i < |l| && l[i] == '\n';
      assert IsWs(l[i]);
    }
  }

  /** The cleaner leaves a clean text unchanged. */
  lemma CleanFixesClean(s: string)
    requires IsClean(s)
    ensures Clean(s) == s
  {
    var split := Split(s);
    NormalizeFixesNormal(split);
    DropKeepsUnrepeated(split, false);
    JoinSplit(s);
    TrimWrapped("", s, "");
    assert "" + s + "" == s;
  }

  lemma {:induction false} NormalizeFixesNormal(ls: Lines)
    requires AllNormal(ls)
    ensures NormalizeAll(ls) == ls
  {
    if |ls| > 0 {
      NormalizeFixesNormal(ls[1..]);
      CollapseFixed(ls[0]);
      TrimWrapped("", ls[0], "");
      assert "" + ls[0] + "" == ls[0];
      assert [ls[0]] + ls[1..] == ls;
    }
  }

  /** Cleaning twice is cleaning once. */
  lemma CleanIdempotent(raw: string)
    ensures Clean(Clean(raw)) == Clean(raw)
  {
    CleanIsClean(raw);
    CleanFixesClean(Clean(raw));
  }

  /** A text is clean exactly when the cleaner leaves it unchanged. */
  lemma CleanFixedIff(s: string)
    ensures Clean(s) == s <==> IsClean(s)
  {
    CleanIsClean(s);
    if IsClean(s) {
      CleanFixesClean(s);
    }
  }

  lemma PlaceholderIsClean()
    ensures IsClean(NoTextPlaceholder)
  {
    var p := NoTextPlaceholder;
    assert LineNormal(p) && '\n' !in p by {
      assert forall i :: 0 <= i < |p| ==> (IsWs(p[i]) <==> i == 3 || i == 8);
    }
    SplitLine(p, "", false);
    assert AllNormal([p]);
  }

  // ---------------------------------------------------------------------
  // Lines

  /** A text without line feeds is cleaned as a single line. */
  lemma CleanOneLine(l: string)
    requires '\n' !in l
    ensures Clean(l) == NormalizeLine(l)
  {
    SplitLine(l, "", false);
    var x := NormalizeLine(l);
    assert NormalizeAll([l]) == [x];
    assert DropRepeatedBlanks([x], false) == [x];
    assert Join([x]) == x;
    assert "" + x + "" == x;
    TrimWrapped("", x, "");
  }

  /** Words separated by any whitespace runs are normalised to the same words
      separated by single spaces. */
  lemma NormalizeSeparated(ws: seq<string>, seps: seq<string>)
    requires |ws| >= 1 && |seps| == |ws| - 1
    requires forall i :: 0 <= i < |ws| ==> IsWord(ws[i])
    requires forall i :: 0 <= i < |seps| ==> seps[i] != "" && AllWs(seps[i])
    ensures NormalizeLine(Separated(ws, seps)) == Unwords(ws)
  {
    WordsOfSeparated(ws, seps);
  }

  /** A one-line text of words separated by whitespace runs other than line
      feeds is cleaned to the words separated by single spaces. */
  lemma CleanSeparated(ws: seq<string>, seps: seq<string>)
    requires |ws| >= 1 && |seps| == |ws| - 1
    requires forall i :: 0 <= i < |ws| ==> IsWord(ws[i])
    requires forall i :: 0 <= i < |seps| ==> seps[i] != "" && AllWs(seps[i]) && '\n' !in seps[i]
    ensures Clean(Separated(ws, seps)) == Unwords(ws)
  {
    SeparatedHasNoNewline(ws, seps);
    CleanOneLine(Separated(ws, seps));
    NormalizeSeparated(ws, seps);
  }

  lemma {:induction false} SeparatedHasNoNewline(ws: seq<string>, seps: seq<string>)
    requires |ws| >= 1 && |seps| == |ws| - 1
    requires forall i :: 0 <= i < |ws| ==> IsWord(ws[i])
    requires forall i :: 0 <= i < |seps| ==> '\n' !in seps[i]
    ensures '\n' !in Separated(ws, seps)
    decreases |ws|
  {
    assert '\n' !in ws[0] by {
      assert forall k :: 0 <= k < |ws[0]| ==> !IsWs(ws[0][k]);
    }
    if |ws| > 1 {
      SeparatedHasNoNewline(ws[1..], seps[1..]);
    }
  }

  /** "Take   2  tabs<TAB>daily" is cleaned to "Take 2 tabs daily": each run
      of spaces, and the tab, becomes one space. */
  lemma CleanCollapsesRuns(l: string)
    requires l == "Take   2  tabs\tdaily"
    ensures Clean(l) == "Take 2 tabs daily"
  {
    var ws := ["Take", "2", "tabs", "daily"];
    var seps := ["   ", "  ", "\t"];
    ExampleWords();
    ExampleSeparated();
    ExampleUnwords();
    assert forall i :: 0 <= i < |ws| ==> IsWord(ws[i]);
    CleanSeparated(ws, seps);
  }

  /** The words and separators of the line in `CleanCollapsesRuns`. */
  lemma ExampleWords()
    ensures IsWord("Take") && IsWord("2") && IsWord("tabs") && IsWord("daily")
  {
  }

  lemma ExampleSeparated()
    ensures Separated(["Take", "2", "tabs", "daily"], ["   ", "  ", "\t"]) == "Take   2  tabs\tdaily"
  {
  }

  lemma ExampleUnwords()
    ensures Unwords(["Take", "2", "tabs", "daily"]) == "Take 2 tabs daily"
  {
  }
}
