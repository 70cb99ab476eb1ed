/** The JavaScript string primitives the cleaner and the relay rely on:
    the `\s` character class, `String.prototype.trim`, and
    `replace(/\s+/g, " ")`. */
module JsStrings {

  /** ECMAScript WhiteSpace and LineTerminator code points. This one set is
      what the regular-expression class `\s` matches and what `trim` removes. */
  predicate IsWs(c: char) {
    c == '\t' || c == '\n' || c == '\U{000B}' || c == '\U{000C}' || c == '\r'
    || c == ' ' || c == '\U{00A0}' || c == '\U{1680}'
    || ('\U{2000}' <= c <= '\U{200A}')
    || c == '\U{2028}' || c == '\U{2029}' || c == '\U{202F}' || c == '\U{205F}'
    || c == '\U{3000}' || c == '\U{FEFF}'
  }

  predicate AllWs(s: string) {
    forall i :: 0 <= i < |s| ==> IsWs(s[i])
  }

  /** Neither starts nor ends with whitespace. */
  predicate IsTrimmed(s: string) {
    |s| == 0 || (!IsWs(s[0]) && !IsWs(s[|s| - 1]))
  }

  predicate NoAdjacentWs(s: string) {
    forall i, j :: 0 <= i < |s| && 0 <= j < |s| && j == i + 1 ==> !(IsWs(s[i]) && IsWs(s[j]))
  }

  /** Every whitespace character present is a plain space. */
  predicate WsIsSpace(s: string) {
    forall i :: 0 <= i < |s| && IsWs(s[i]) ==> s[i] == ' '
  }

  /** The characters of `s` that are not whitespace, in order. */
  function NonWs(s: string): (r: string)
    ensures |r| <= |s|
    ensures forall i :: 0 <= i < |r| ==> !IsWs(r[i])
  {
    if |s| == 0 then ""
    else (if IsWs(s[0]) then "" else [s[0]]) + NonWs(s[1..])
  }

  /** `s` without its leading whitespace. */
  function TrimStart(s: string): (r: string)
    ensures |r| <= |s| && (|s| > 0 && IsWs(s[0]) ==> |r| < |s|)
    ensures r == [] || !IsWs(r[0])
  {
    if |s| > 0 && IsWs(s[0]) then TrimStart(s[1..]) else s
  }

  /** `s` without its trailing whitespace. */
  function TrimEnd(s: string): (r: string)
    ensures |r| <= |s| && (r == [] || r[0] == s[0])
    ensures r == [] || !IsWs(r[|r| - 1])
  {
    if |s| > 0 && IsWs(s[|s| - 1]) then TrimEnd(s[..|s| - 1]) else s
  }

  /** What `TrimStart` removes is a whitespace prefix: the result is the
      longest suffix that is empty or starts with a non-whitespace
      character. */
  lemma {:induction false} TrimStartIsSuffix(s: string)
    ensures var r := TrimStart(s); r == s[|s| - |r|..] && AllWs(s[..|s| - |r|])
  {
    if |s| > 0 && IsWs(s[0]) {
      TrimStartIsSuffix(s[1..]);
      var r := TrimStart(s);
      assert s[1..][|s| - 1 - |r|..] == s[|s| - |r|..];
      forall i | 0 <= i < |s| - |r| ensures IsWs(s[i]) {
        if i > 0 {
          assert s[i] == s[1..][..|s| - 1 - |r|][i - 1];
        }
      }
    }
  }

  /** What `TrimEnd` removes is a whitespace suffix. */
  lemma {:induction false} TrimEndIsPrefix(s: string)
    ensures var r := TrimEnd(s); r == s[..|r|] && AllWs(s[|r|..])
  {
    if |s| > 0 && IsWs(s[|s| - 1]) {
      var p := s[..|s| - 1];
      TrimEndIsPrefix(p);
      var r := TrimEnd(s);
      assert p[..|r|] == s[..|r|];
      forall i | |r| <= i < |s| ensures IsWs(s[i]) {
        if i < |s| - 1 {
          assert s[i] == p[|r|..][i - |r|];
        }
      }
    }
  }

  /** `String.prototype.trim`: `s` without its leading and its trailing
      whitespace. */
  function Trim(s: string): (r: string)
    ensures |r| <= |s| && IsTrimmed(r)
  {
    TrimEnd(TrimStart(s))
  }

  /** `trim` removes exactly a whitespace prefix and a whitespace suffix:
      the input is whitespace, then the trimmed string verbatim, then
      whitespace. */
  lemma TrimIsInfix(s: string)
    ensures var k := |s| - |TrimStart(s)|;
      && k + |Trim(s)| <= |s|
      && s[k..k + |Trim(s)|] == Trim(s)
      && AllWs(s[..k]) && AllWs(s[k + |Trim(s)|..])
  {
    TrimStartIsSuffix(s);
    var t := TrimStart(s);
    TrimEndIsPrefix(t);
    var k := |s| - |t|;
    var r := Trim(s);
    assert s[k..k + |r|] == t[..|r|];
    assert s[k + |r|..] == t[|r|..];
  }

  /** `replace(/\s+/g, " ")`: every maximal run of whitespace becomes one
      space. */
  function CollapseWs(s: string): (r: string)
    ensures NoAdjacentWs(r) && WsIsSpace(r)
    ensures |r| == 0 <==> |s| == 0
    ensures |s| > 0 ==> (IsWs(r[0]) <==> IsWs(s[0]))
    decreases |s|
  {
    if |s| == 0 then ""
    else if IsWs(s[0]) then " " + CollapseWs(TrimStart(s))
    else [s[0]] + CollapseWs(s[1..])
  }

  lemma {:induction false} NonWsAppend(a: string, b: string)
    ensures NonWs(a + b) == NonWs(a) + NonWs(b)
  {
    if |a| == 0 {
      assert a + b == b;
    } else {
      assert (a + b)[1..] == a[1..] + b;
      NonWsAppend(a[1..], b);
    }
  }

  /** A string has no non-whitespace character exactly when it is all
      whitespace. */
  lemma {:induction false} NonWsEmptyIff(s: string)
    ensures NonWs(s) == "" <==> AllWs(s)
  {
    if |s| > 0 {
      NonWsEmptyIff(s[1..]);
      if !IsWs(s[0]) {
        assert NonWs(s)[0] == s[0];
      }
    }
  }

  /** `trim` yields the empty string exactly for all-whitespace input. */
  lemma TrimEmptyIff(s: string)
    ensures Trim(s) == "" <==> AllWs(s)
  {
    TrimKeepsNonWs(s);
    NonWsEmptyIff(s);
    NonWsEmptyIff(Trim(s));
  }

  /** Whitespace around a trimmed string is exactly what `trim` removes. */
  lemma {:induction false} TrimWrapped(w1: string, x: string, w2: string)
    requires AllWs(w1) && AllWs(w2) && IsTrimmed(x)
    ensures Trim(w1 + x + w2) == x
  {
    TrimStartWs(w1, x + w2);
    assert w1 + x + w2 == w1 + (x + w2);
    if x == "" {
      assert x + w2 == w2;
      TrimStartWs(w2, "");
      assert w2 + "" == w2;
    } else {
      assert TrimStart(x + w2) == x + w2;
      TrimEndWs(x, w2);
    }
  }

  lemma {:induction false} TrimStartWs(w: string, x: string)
    requires AllWs(w)
    ensures TrimStart(w + x) == TrimStart(x)
  {
    if |w| > 0 {
      assert (w + x)[1..] == w[1..] + x;
      TrimStartWs(w[1..], x);
    } else {
      assert w + x == x;
    }
  }

  lemma {:induction false} TrimEndWs(x: string, w: string)
    requires AllWs(w)
    requires x == [] || !IsWs(x[|x| - 1])
    ensures TrimEnd(x + w) == x
  {
    if |w| > 0 {
      var w' := w[..|w| - 1];
      assert (x + w)[..|x + w| - 1] == x + w';
      TrimEndWs(x, w');
    } else {
      assert x + w == x;
    }
  }

  /** Trimming removes whitespace only: the other characters are kept, in
      order. */
  lemma TrimKeepsNonWs(s: string)
    ensures NonWs(Trim(s)) == NonWs(s)
  {
    TrimStartKeepsNonWs(s);
    TrimEndKeepsNonWs(TrimStart(s));
  }

  lemma {:induction false} TrimStartKeepsNonWs(s: string)
    ensures NonWs(TrimStart(s)) == NonWs(s)
  {
    if |s| > 0 && IsWs(s[0]) {
      TrimStartKeepsNonWs(s[1..]);
    }
  }

  lemma {:induction false} TrimEndKeepsNonWs(s: string)
    ensures NonWs(TrimEnd(s)) == NonWs(s)
  {
    if |s| > 0 && IsWs(s[|s| - 1]) {
      var p := s[..|s| - 1];
      TrimEndKeepsNonWs(p);
      assert s == p + [s[|s| - 1]];
      NonWsAppend(p, [s[|s| - 1]]);
    }
  }

  /** Trimming keeps a string's whitespace single spaces, none adjacent. */
  lemma TrimKeepsSpacing(s: string)
    requires NoAdjacentWs(s) && WsIsSpace(s)
    ensures NoAdjacentWs(Trim(s)) && WsIsSpace(Trim(s))
  {
    TrimStartKeepsSpacing(s);
    TrimEndKeepsSpacing(TrimStart(s));
  }

  lemma {:induction false} TrimStartKeepsSpacing(s: string)
    requires NoAdjacentWs(s) && WsIsSpace(s)
    ensures NoAdjacentWs(TrimStart(s)) && WsIsSpace(TrimStart(s))
  {
    if |s| > 0 && IsWs(s[0]) {
      SpacingOfSlice(s, 1, |s|);
      TrimStartKeepsSpacing(s[1..]);
    }
  }

  lemma {:induction false} TrimEndKeepsSpacing(s: string)
    requires NoAdjacentWs(s) && WsIsSpace(s)
    ensures NoAdjacentWs(TrimEnd(s)) && WsIsSpace(TrimEnd(s))
  {
    if |s| > 0 && IsWs(s[|s| - 1]) {
      SpacingOfSlice(s, 0, |s| - 1);
      TrimEndKeepsSpacing(s[..|s| - 1]);
    }
  }

  lemma SpacingOfSlice(s: string, lo: nat, hi: nat)
    requires lo <= hi <= |s|
    requires NoAdjacentWs(s) && WsIsSpace(s)
    ensures NoAdjacentWs(s[lo..hi]) && WsIsSpace(s[lo..hi])
  {
    var t := s[lo..hi];
    forall i, j | 0 <= i < j < |t| && j == i + 1 ensures !(IsWs(t[i]) && IsWs(t[j])) {
      assert t[i] == s[lo + i] && t[j] == s[lo + j];
    }
  }

  lemma {:induction false} CollapseKeepsNonWs(s: string)
    ensures NonWs(CollapseWs(s)) == NonWs(s)
    decreases |s|
  {
    if |s| == 0 {
    } else if IsWs(s[0]) {
      var t := TrimStart(s);
      CollapseKeepsNonWs(t);
      NonWsAppend(" ", CollapseWs(t));
      TrimStartKeepsNonWs(s);
    } else {
      CollapseKeepsNonWs(s[1..]);
      NonWsAppend([s[0]], CollapseWs(s[1..]));
    }
  }

  /** Collapsing leaves a string unchanged exactly when its whitespace is
      single spaces, none adjacent to another. */
  lemma {:induction false} CollapseFixedIff(s: string)
    ensures CollapseWs(s) == s <==> NoAdjacentWs(s) && WsIsSpace(s)
    decreases |s|
  {
    if NoAdjacentWs(s) && WsIsSpace(s) {
      CollapseFixed(s);
    }
  }

  lemma {:induction false} CollapseFixed(s: string)
    requires NoAdjacentWs(s) && WsIsSpace(s)
    ensures CollapseWs(s) == s
    decreases |s|
  {
    if |s| > 0 {
      SpacingOfSlice(s, 1, |s|);
      assert s[1..|s|] == s[1..];
      CollapseFixed(s[1..]);
      if IsWs(s[0]) {
        assert |s| > 1 ==> !IsWs(s[1]);
        assert TrimStart(s[1..]) == s[1..];
        assert TrimStart(s) == s[1..];
        assert s == [' '] + s[1..];
      } else {
        assert s == [s[0]] + s[1..];
      }
    }
  }

  // ---------------------------------------------------------------------
  // Words: what `replace(/\s+/g, " ").trim()` computes

  /** A word: a non-empty run of characters none of which is whitespace. */
  predicate IsWord(w: string) {
    w != "" && forall i :: 0 <= i < |w| ==> !IsWs(w[i])
  }

  /** The longest prefix of `s` that holds no whitespace. */
  function TakeWord(s: string): (r: string)
    ensures |r| <= |s| && r == s[..|r|]
    ensures forall i :: 0 <= i < |r| ==> !IsWs(r[i])
    ensures |r| < |s| ==> IsWs(s[|r|])
    ensures |s| > 0 && !IsWs(s[0]) ==> |r| > 0
  {
    if |s| == 0 || IsWs(s[0]) then "" else [s[0]] + TakeWord(s[1..])
  }

  /** The words of `s`: its maximal runs of non-whitespace characters, in
      order. */
  function Words(s: string): seq<string>
    decreases |s|
  {
    var t := TrimStart(s);
    if |t| == 0 then []
    else
      var w := TakeWord(t);
      [w] + Words(t[|w|..])
  }

  /** Words separated by single spaces. */
  function Unwords(ws: seq<string>): string {
    if |ws| == 0 then ""
    else if |ws| == 1 then ws[0]
    else ws[0] + " " + Unwords(ws[1..])
  }

  /** Words separated by the given whitespace runs. */
  function Separated(ws: seq<string>, seps: seq<string>): string
    requires |ws| >= 1 && |seps| == |ws| - 1
  {
    if |ws| == 1 then ws[0]
    else ws[0] + seps[0] + Separated(ws[1..], seps[1..])
  }

  /** Every entry of `Words(s)` is a word. */
  lemma {:induction false} WordsAreWords(s: string)
    ensures forall i :: 0 <= i < |Words(s)| ==> IsWord(Words(s)[i])
    decreases |s|
  {
    var t := TrimStart(s);
    if |t| > 0 {
      var w := TakeWord(t);
      WordsAreWords(t[|w|..]);
      var ws := Words(s);
      assert ws == [w] + Words(t[|w|..]);
      forall i | 0 <= i < |ws| ensures IsWord(ws[i]) {
        if i > 0 {
          assert ws[i] == Words(t[|w|..])[i - 1];
        }
      }
    }
  }

  /** The words hold exactly the non-whitespace characters of `s`, in order. */
  lemma {:induction false} WordsKeepNonWs(s: string)
    ensures NonWs(s) == Concat(Words(s))
    decreases |s|
  {
    var t := TrimStart(s);
    TrimStartKeepsNonWs(s);
    if |t| == 0 {
      assert NonWs(t) == "";
    } else {
      var w := TakeWord(t);
      var rest := t[|w|..];
      WordsKeepNonWs(rest);
      assert t == w + rest;
      NonWsAppend(w, rest);
      NonWsOfWord(w);
      assert Words(s) == [w] + Words(rest);
      assert Concat([w] + Words(rest)) == w + Concat(Words(rest)) by {
        assert ([w] + Words(rest))[1..] == Words(rest);
      }
    }
  }

  function Concat(ws: seq<string>): string {
    if |ws| == 0 then "" else ws[0] + Concat(ws[1..])
  }

  lemma {:induction false} NonWsOfWord(w: string)
    requires forall i :: 0 <= i < |w| ==> !IsWs(w[i])
    ensures NonWs(w) == w
  {
    if |w| > 0 {
      NonWsOfWord(w[1..]);
      assert w == [w[0]] + w[1..];
    }
  }

  /** Words can be read back from any text that separates them by whitespace
      runs. */
  lemma {:induction false} WordsOfSeparated(ws: seq<string>, seps: seq<string>)
    requires |ws| >= 1 && |seps| == |ws| - 1
    requires forall i :: 0 <= i < |ws| ==> IsWord(ws[i])
    requires forall i :: 0 <= i < |seps| ==> seps[i] != "" && AllWs(seps[i])
    ensures Words(Separated(ws, seps)) == ws
    decreases |ws|
  {
    var w := ws[0];
    var x := Separated(ws, seps);
    assert x[0] == w[0];
    assert TrimStart(x) == x;
    if |ws| == 1 {
      TakeWordOfWord(w, "");
      assert w + "" == w;
      assert x[|w|..] == "";
    } else {
      var rest := Separated(ws[1..], seps[1..]);
      var sep := seps[0];
      assert x == w + (sep + rest);
      TakeWordOfWord(w, sep + rest);
      assert x[|w|..] == sep + rest;
      WordsOfSeparated(ws[1..], seps[1..]);
      assert rest[0] == ws[1][0];
      TrimStartWs(sep, rest);
      assert TrimStart(rest) == rest;
      WordsAfterWs(sep + rest, rest);
    }
  }

  lemma {:induction false} TakeWordOfWord(w: string, rest: string)
    requires IsWord(w)
    requires rest == "" || IsWs(rest[0])
    ensures TakeWord(w + rest) == w
    decreases |w|
  {
    if |w| > 1 {
      assert (w + rest)[1..] == w[1..] + rest;
      TakeWordOfWord(w[1..], rest);
    } else {
      assert (w + rest)[1..] == rest;
    }
  }

  /** Words only depend on what follows the leading whitespace. */
  lemma WordsAfterWs(s: string, t: string)
    requires TrimStart(s) == TrimStart(t)
    ensures Words(s) == Words(t)
  {
  }

  /** `n` copies of `x`: single-space separators, or a run of blank lines. */
  function Repeat(x: string, n: nat): (r: seq<string>)
    ensures |r| == n && forall i :: 0 <= i < n ==> r[i] == x
  {
    if n == 0 then [] else [x] + Repeat(x, n - 1)
  }

  /** Single spaces are one way of separating words. */
  lemma {:induction false} UnwordsIsSeparated(ws: seq<string>)
    requires |ws| >= 1
    ensures Unwords(ws) == Separated(ws, Repeat(" ", |ws| - 1))
    decreases |ws|
  {
    if |ws| > 1 {
      UnwordsIsSeparated(ws[1..]);
      assert Repeat(" ", |ws| - 1)[1..] == Repeat(" ", |ws| - 2);
    }
  }

  /** Splitting into words undoes joining words with single spaces. */
  lemma WordsOfUnwords(ws: seq<string>)
    requires forall i :: 0 <= i < |ws| ==> IsWord(ws[i])
    ensures Words(Unwords(ws)) == ws
  {
    if |ws| > 0 {
      var seps := Repeat(" ", |ws| - 1);
      UnwordsIsSeparated(ws);
      assert forall i :: 0 <= i < |seps| ==> seps[i] != "" && AllWs(seps[i]);
      WordsOfSeparated(ws, seps);
    }
  }

  /** `replace(/\s+/g, " ").trim()` gives the words of the line separated by
      single spaces. */
  lemma {:induction false} TrimCollapseIsUnwords(s: string)
    ensures Trim(CollapseWs(s)) == Unwords(Words(s))
    decreases |s|
  {
    if |s| == 0 {
    } else if IsWs(s[0]) {
      var t := TrimStart(s);
      TrimCollapseIsUnwords(t);
      TrimStartWs(" ", CollapseWs(t));
      WordsAfterWs(s, t);
    } else {
      var w := TakeWord(s);
      var rest := s[|w|..];
      var r2 := TrimStart(rest);
      if |r2| == 0 {
        LastWord(s);
      } else {
        TrimCollapseIsUnwords(r2);
        InnerWord(s);
      }
    }
  }

  /** The case of `TrimCollapseIsUnwords` where one word is followed by
      whitespace only. */
  lemma LastWord(s: string)
    requires |s| > 0 && !IsWs(s[0])
    requires TrimStart(s[|TakeWord(s)|..]) == ""
    ensures Trim(CollapseWs(s)) == Unwords(Words(s))
  {
    var w := TakeWord(s);
    OnlyWord(s);
    CollapseOnlyWord(s);
    TrimWordSpace(w, if |s| == |w| then "" else " ");
  }

  lemma OnlyWord(s: string)
    requires |s| > 0 && !IsWs(s[0])
    requires TrimStart(s[|TakeWord(s)|..]) == ""
    ensures Words(s) == [TakeWord(s)] && IsWord(TakeWord(s))
  {
    var w := TakeWord(s);
    var rest := s[|w|..];
    WordsOfWordStart(s);
    WordsOfBlank(rest);
  }

  lemma CollapseOnlyWord(s: string)
    requires |s| > 0 && !IsWs(s[0])
    requires TrimStart(s[|TakeWord(s)|..]) == ""
    ensures var w := TakeWord(s); CollapseWs(s) == w + (if |s| == |w| then "" else " ")
  {
    var w := TakeWord(s);
    var rest := s[|w|..];
    CollapseWord(s);
    if rest != "" {
      CollapseOfBlank(rest);
    }
  }

  lemma TrimWordSpace(w: string, tail: string)
    requires IsWord(w) && (tail == "" || tail == " ")
    ensures Trim(w + tail) == w
  {
    assert AllWs(tail);
    assert "" + w + tail == w + tail;
    TrimWrapped("", w, tail);
  }

  /** The case of `TrimCollapseIsUnwords` where a word is followed by
      whitespace and more words. */
  lemma InnerWord(s: string)
    requires |s| > 0 && !IsWs(s[0])
    requires var r2 := TrimStart(s[|TakeWord(s)|..]);
      r2 != "" && Trim(CollapseWs(r2)) == Unwords(Words(r2))
    ensures Trim(CollapseWs(s)) == Unwords(Words(s))
  {
    var w := TakeWord(s);
    var r2 := TrimStart(s[|w|..]);
    WordThenWords(s);
    CollapseWordThenWords(s);
    TrimWordThen(w + " ", CollapseWs(r2));
  }

  lemma WordThenWords(s: string)
    requires |s| > 0 && !IsWs(s[0])
    requires TrimStart(s[|TakeWord(s)|..]) != ""
    ensures var w := TakeWord(s);
      Unwords(Words(s)) == w + " " + Unwords(Words(TrimStart(s[|w|..])))
  {
    var w := TakeWord(s);
    var rest := s[|w|..];
    var r2 := TrimStart(rest);
    WordsOfWordStart(s);
    WordsAfterWs(rest, r2);
    var ws := Words(r2);
    assert ws != [];
    assert ([w] + ws)[1..] == ws;
  }

  lemma CollapseWordThenWords(s: string)
    requires |s| > 0 && !IsWs(s[0])
    requires TrimStart(s[|TakeWord(s)|..]) != ""
    ensures var w := TakeWord(s); var r2 := TrimStart(s[|w|..]);
      && CollapseWs(s) == (w + " ") + CollapseWs(r2)
      && r2 != "" && !IsWs(r2[0])
  {
    var w := TakeWord(s);
    var rest := s[|w|..];
    CollapseWord(s);
    assert CollapseWs(rest) == " " + CollapseWs(TrimStart(rest));
  }

  lemma TrimWordThen(x: string, c: string)
    requires |x| > 0 && !IsWs(x[0])
    requires |c| > 0 && !IsWs(c[0])
    ensures Trim(x + c) == x + Trim(c)
  {
    assert !AllWs(c);
    assert TrimStart(x + c) == x + c;
    TrimEndAppend(x, c);
    assert TrimStart(c) == c;
  }

  lemma WordsOfWordStart(s: string)
    requires |s| > 0 && !IsWs(s[0])
    ensures Words(s) == [TakeWord(s)] + Words(s[|TakeWord(s)|..])
  {
    assert TrimStart(s) == s;
  }

  lemma WordsOfBlank(s: string)
    requires TrimStart(s) == ""
    ensures Words(s) == []
  {
  }

  lemma CollapseOfBlank(s: string)
    requires s != "" && TrimStart(s) == ""
    ensures CollapseWs(s) == " "
  {
  }

  /** A leading word survives the collapse unchanged. */
  lemma {:induction false} CollapseWord(s: string)
    ensures |TakeWord(s)| <= |s|
    ensures CollapseWs(s) == TakeWord(s) + CollapseWs(s[|TakeWord(s)|..])
    decreases |s|
  {
    if |s| > 0 && !IsWs(s[0]) {
      var t := s[1..];
      CollapseWord(t);
      var w' := TakeWord(t);
      assert TakeWord(s) == [s[0]] + w';
      assert CollapseWs(s) == [s[0]] + CollapseWs(t);
      assert t[|w'|..] == s[|w'| + 1..];
    } else {
      assert TakeWord(s) == "";
      assert s[0..] == s;
    }
  }

  /** Trailing whitespace is trimmed from the last part only, provided that
      part has some non-whitespace character. */
  lemma {:induction false} TrimEndAppend(x: string, y: string)
    requires !AllWs(y)
    ensures TrimEnd(x + y) == x + TrimEnd(y)
    decreases |y|
  {
    if IsWs(y[|y| - 1]) {
      var y' := y[..|y| - 1];
      assert (x + y)[..|x + y| - 1] == x + y';
      TrimEndAppend(x, y');
    }
  }
}
