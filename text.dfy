/** Character classes and the string rewrites that the backend performs with
    Python `str` methods and `re.sub`, and the frontend with JavaScript string
    methods and regular expressions. Characters are Unicode scalar values. */
module Text {
  import opened Seqs

  /** Whitespace: the ASCII characters that `str.split()`, `str.strip()`, the
      regular-expression class `\s` and `String.prototype.trim()` all treat as blank. */
  predicate IsSpace(c: char)
  {
    c == ' ' || c == '\t' || c == '\n' || c == '\r' || c == '\U{B}' || c == '\U{C}'
  }

  /** The sentence-ending class `[.!?]`. */
  predicate IsPunct(c: char)
  {
    c == '.' || c == '!' || c == '?'
  }

  /** Python `not s.strip()`, JavaScript `s.trim() === ''`. */
  predicate IsBlank(s: string)
  {
    forall i :: 0 <= i < |s| ==> IsSpace(s[i])
  }

  predicate StartsWith(s: string, prefix: string)
  {
    |prefix| <= |s| && s[..|prefix|] == prefix
  }

  lemma StartsWithAppend(prefix: string, rest: string)
    ensures StartsWith(prefix + rest, prefix)
  {
    assert (prefix + rest)[..|prefix|] == prefix;
  }

  /** The characters of `s` that are not whitespace, in order: what a rewrite that
      only touches whitespace must leave alone. */
  function NonSpace(s: string): string
  {
    if s == [] then [] else (if IsSpace(s[0]) then [] else [s[0]]) + NonSpace(s[1..])
  }

  lemma {:induction false} NonSpaceAppend(a: string, b: string)
    ensures NonSpace(a + b) == NonSpace(a) + NonSpace(b)
  {
    if a != [] {
      assert (a + b)[1..] == a[1..] + b;
      NonSpaceAppend(a[1..], b);
    } else {
      assert a + b == b;
    }
  }

  lemma {:induction false} NonSpaceOfBlank(s: string)
    requires IsBlank(s)
    ensures NonSpace(s) == []
  {
    if s != [] {
      NonSpaceOfBlank(s[1..]);
    }
  }

  // ---------------------------------------------------------------------------
  // Stripping

  function StripLeft(s: string): (r: string)
    ensures |r| <= |s|
    ensures r == [] || !IsSpace(r[0])
  {
    if s != [] && IsSpace(s[0]) then StripLeft(s[1..]) else s
  }

  function StripRight(s: string): (r: string)
    ensures |r| <= |s|
    ensures r == [] || !IsSpace(r[|r| - 1])
  {
    if s != [] && IsSpace(s[|s| - 1]) then StripRight(s[..|s| - 1]) else s
  }

  /** Python `str.strip()`, JavaScript `String.prototype.trim()`. */
  function Strip(s: string): (r: string)
  {
    StripRight(StripLeft(s))
  }

  /** Left stripping drops a blank prefix. */
  lemma {:induction false} StripLeftShape(s: string)
    ensures StripLeft(s) == s[|s| - |StripLeft(s)|..]
    ensures IsBlank(s[..|s| - |StripLeft(s)|])
  {
    if s != [] && IsSpace(s[0]) {
      StripLeftShape(s[1..]);
      var k := |s| - |StripLeft(s)|;
      assert s[..k] == [s[0]] + s[1..][..k - 1];
    }
  }

  /** Right stripping drops a blank suffix. */
  lemma {:induction false} StripRightShape(s: string)
    ensures StripRight(s) == s[..|StripRight(s)|]
    ensures IsBlank(s[|StripRight(s)|..])
  {
    if s != [] && IsSpace(s[|s| - 1]) {
      var n := |s| - 1;
      StripRightShape(s[..n]);
      var k := |StripRight(s)|;
      assert s[k..] == s[..n][k..] + [s[n]];
    }
  }

  lemma {:induction false} StripLeftSpec(s: string)
    ensures StripLeft(s) == [] <==> IsBlank(s)
    ensures NonSpace(StripLeft(s)) == NonSpace(s)
  {
    var t := StripLeft(s);
    StripLeftShape(s);
    var k := |s| - |t|;
    assert s == s[..k] + t;
    NonSpaceAppend(s[..k], t);
    NonSpaceOfBlank(s[..k]);
  }

  lemma {:induction false} StripRightSpec(t: string)
    ensures StripRight(t) == [] <==> IsBlank(t)
    ensures NonSpace(StripRight(t)) == NonSpace(t)
  {
    var u := StripRight(t);
    StripRightShape(t);
    assert t == u + t[|u|..];
    NonSpaceAppend(u, t[|u|..]);
    NonSpaceOfBlank(t[|u|..]);
  }

  /** What stripping does: it removes whitespace only, the result is empty exactly
      for a blank input, and otherwise it begins and ends with a visible character. */
  lemma {:induction false} StripSpec(s: string)
    ensures Strip(s) == [] <==> IsBlank(s)
    ensures Strip(s) != [] ==> !IsSpace(Strip(s)[0]) && !IsSpace(Strip(s)[|Strip(s)| - 1])
    ensures NonSpace(Strip(s)) == NonSpace(s)
  {
    var t := StripLeft(s);
    StripLeftSpec(s);
    StripRightSpec(t);
    var u := StripRight(t);
    StripRightShape(t);
    if u != [] {
      assert u[0] == t[0];
    }
  }

  /** Stripping introduces no character. */
  lemma StripSubset(s: string)
    ensures forall c :: c in Strip(s) ==> c in s
  {
    var t := StripLeft(s);
    StripLeftShape(s);
    StripRightShape(t);
    var k := |s| - |t|;
    assert Strip(s) == s[k..k + |Strip(s)|];
  }

  lemma StripOfTrimmed(s: string)
    requires s == [] || (!IsSpace(s[0]) && !IsSpace(s[|s| - 1]))
    ensures Strip(s) == s
  {
  }

  /** Leading whitespace is taken from the first part only when that part is
      not blank. */
  lemma {:induction false} StripLeftAppend(t: string, u: string)
    requires !IsBlank(t)
    ensures StripLeft(t + u) == StripLeft(t) + u
  {
    if IsSpace(t[0]) {
      assert (t + u)[1..] == t[1..] + u;
      StripLeftAppend(t[1..], u);
    }
  }

  /** Appending text that ends in a visible character to a text that is not blank:
      only the first part's leading whitespace is stripped. */
  lemma StripAppendVisible(t: string, u: string)
    requires !IsBlank(t)
    requires u != [] && !IsSpace(u[|u| - 1])
    ensures Strip(t + u) == StripLeft(t) + u
  {
    StripLeftAppend(t, u);
  }

  // ---------------------------------------------------------------------------
  // Python `str.split()` and `str.join`

  /** A nonempty run of visible characters. */
  predicate IsWord(w: string)
  {
    w != [] && forall i :: 0 <= i < |w| ==> !IsSpace(w[i])
  }

  /** The longest prefix of `s` without whitespace. */
  function TakeWord(s: string): (w: string)
    ensures |w| <= |s| && w == s[..|w|]
    ensures forall i :: 0 <= i < |w| ==> !IsSpace(w[i])
    ensures |w| < |s| ==> IsSpace(s[|w|])
  {
    if s == [] || IsSpace(s[0]) then [] else [s[0]] + TakeWord(s[1..])
  }

  /** Python `s.split()`: the maximal runs of visible characters, left to right. */
  function Words(s: string): (ws: seq<string>)
    ensures forall k :: 0 <= k < |ws| ==> IsWord(ws[k])
    decreases |s|
  {
    var t := StripLeft(s);
    if t == [] then []
    else
      var w := TakeWord(t);
      [w] + Words(t[|w|..])
  }

  /** Python `sep.join(parts)`. */
  function JoinWith(parts: seq<string>, sep: string): string
  {
    if parts == [] then ""
    else if |parts| == 1 then parts[0]
    else parts[0] + sep + JoinWith(parts[1..], sep)
  }

  lemma JoinWithCons(p: string, parts: seq<string>, sep: string)
    requires parts != []
    ensures JoinWith([p] + parts, sep) == p + sep + JoinWith(parts, sep)
  {
    assert ([p] + parts)[1..] == parts;
  }

  lemma JoinWithAppend(parts: seq<string>, p: string, sep: string)
    requires parts != []
    ensures JoinWith(parts + [p], sep) == JoinWith(parts, sep) + sep + p
  {
    if |parts| == 1 {
      assert (parts + [p])[1..] == [p];
    } else {
      assert (parts + [p])[1..] == parts[1..] + [p];
      JoinWithAppend(parts[1..], p, sep);
    }
  }

  /** A join with a nonempty separator is empty only when there is nothing to join
      or a single empty part. */
  lemma JoinWithEmpty(parts: seq<string>, sep: string)
    requires sep != []
    ensures JoinWith(parts, sep) == [] <==> parts == [] || parts == [[]]
  {
  }

  /** Python `' '.join(s.split())`. */
  function Collapse(s: string): string
  {
    JoinWith(Words(s), " ")
  }

  /** No whitespace at either end, and every whitespace character is a single
      space standing between two visible characters. */
  predicate Collapsed(s: string)
  {
    forall i :: 0 <= i < |s| ==> LoneSpaceAt(s, i)
  }

  predicate LoneSpaceAt(s: string, i: nat)
    requires i < |s|
  {
    IsSpace(s[i]) ==> s[i] == ' ' && 0 < i < |s| - 1 && !IsSpace(s[i + 1])
  }

  lemma {:induction false} JoinWordsCollapsed(ws: seq<string>)
    requires forall k :: 0 <= k < |ws| ==> IsWord(ws[k])
    ensures Collapsed(JoinWith(ws, " "))
    ensures ws != [] ==> JoinWith(ws, " ") != [] && !IsSpace(JoinWith(ws, " ")[0])
  {
    if |ws| >= 2 {
      JoinWordsCollapsed(ws[1..]);
      var w, rest := ws[0], JoinWith(ws[1..], " ");
      var r := w + " " + rest;
      assert JoinWith(ws, " ") == r;
      forall i | 0 <= i < |r|
        ensures LoneSpaceAt(r, i)
      {
        if i < |w| {
          assert r[i] == w[i];
        } else if i == |w| {
          assert r[i + 1] == rest[0];
        } else {
          assert LoneSpaceAt(rest, i - |w| - 1);
          assert r[i] == rest[i - |w| - 1];
          assert i + 1 < |r| ==> r[i + 1] == rest[i - |w|];
        }
      }
    }
  }

  lemma {:induction false} TakeWordOfPrefix(w: string, tail: string)
    requires forall i :: 0 <= i < |w| ==> !IsSpace(w[i])
    requires tail == [] || IsSpace(tail[0])
    ensures TakeWord(w + tail) == w
  {
    if w == [] {
      assert w + tail == tail;
    } else {
      assert (w + tail)[1..] == w[1..] + tail;
      TakeWordOfPrefix(w[1..], tail);
    }
  }

  lemma {:induction false} WordsAfterWord(w: string, rest: string)
    requires IsWord(w)
    ensures Words(w + (" " + rest)) == [w] + Words(rest)
  {
    var s := w + (" " + rest);
    assert s[0] == w[0];
    assert StripLeft(s) == s;
    TakeWordOfPrefix(w, " " + rest);
    assert s[|w|..] == " " + rest;
    assert StripLeft(" " + rest) == StripLeft(rest);
  }

  lemma {:induction false} WordsOfWord(w: string)
    requires IsWord(w)
    ensures Words(w) == [w]
  {
    assert StripLeft(w) == w;
    TakeWordOfPrefix(w, []);
    assert w + [] == w;
  }

  /** Splitting a space-join of words gives the words back. */
  lemma {:induction false} WordsOfJoin(ws: seq<string>)
    requires forall k :: 0 <= k < |ws| ==> IsWord(ws[k])
    ensures Words(JoinWith(ws, " ")) == ws
  {
    if ws == [] {
    } else if |ws| == 1 {
      WordsOfWord(ws[0]);
    } else {
      var rest := JoinWith(ws[1..], " ");
      assert JoinWith(ws, " ") == ws[0] + " " + rest;
      assert ws[0] + " " + rest == ws[0] + (" " + rest);
      WordsAfterWord(ws[0], rest);
      WordsOfJoin(ws[1..]);
      assert [ws[0]] + ws[1..] == ws;
    }
  }

  /** The concatenation of the words of `s` is its visible content. */
  lemma {:induction false} WordsContent(s: string)
    ensures Flatten(Words(s)) == NonSpace(s)
    decreases |s|
  {
    var t := StripLeft(s);
    StripLeftShape(s);
    var k := |s| - |t|;
    assert s == s[..k] + t;
    NonSpaceAppend(s[..k], t);
    NonSpaceOfBlank(s[..k]);
    if t != [] {
      var w := TakeWord(t);
      assert t == w + t[|w|..];
      NonSpaceAppend(w, t[|w|..]);
      VisibleContent(w);
      WordsContent(t[|w|..]);
    }
  }

  lemma {:induction false} VisibleContent(w: string)
    requires forall i :: 0 <= i < |w| ==> !IsSpace(w[i])
    ensures NonSpace(w) == w
  {
    if w != [] {
      VisibleContent(w[1..]);
    }
  }

  lemma {:induction false} JoinWordsContent(ws: seq<string>)
    requires forall k :: 0 <= k < |ws| ==> IsWord(ws[k])
    ensures NonSpace(JoinWith(ws, " ")) == Flatten(ws)
  {
    if ws == [] {
    } else if |ws| == 1 {
      VisibleContent(ws[0]);
      assert Flatten(ws) == ws[0] + Flatten(ws[1..]);
    } else {
      var w, rest := ws[0], JoinWith(ws[1..], " ");
      assert JoinWith(ws, " ") == w + (" " + rest);
      NonSpaceAppend(w, " " + rest);
      NonSpaceAppend(" ", rest);
      VisibleContent(w);
      JoinWordsContent(ws[1..]);
    }
  }

  /** `' '.join(s.split())` keeps every visible character in order, leaves no
      whitespace at the ends and no two whitespace characters together, and
      applying it again changes nothing. */
  lemma CollapseSpec(s: string)
    ensures Collapsed(Collapse(s))
    ensures NonSpace(Collapse(s)) == NonSpace(s)
    ensures Collapse(Collapse(s)) == Collapse(s)
  {
    JoinWordsCollapsed(Words(s));
    JoinWordsContent(Words(s));
    WordsContent(s);
    WordsOfJoin(Words(s));
  }

  // ---------------------------------------------------------------------------
  // Splitting on one character: Python `s.split('\n')`, JavaScript `s.split(' ')`

  function IndexOf(s: string, c: char): (i: nat)
    requires c in s
    ensures i < |s| && s[i] == c && c !in s[..i]
  {
    if s[0] == c then 0 else 1 + IndexOf(s[1..], c)
  }

  /** The pieces between occurrences of `sep`; an input without `sep` is one piece. */
  function SplitOn(s: string, sep: char): (parts: seq<string>)
    ensures |parts| >= 1
    ensures forall k :: 0 <= k < |parts| ==> sep !in parts[k]
    decreases |s|
  {
    if sep !in s then [s]
    else
      var i := IndexOf(s, sep);
      [s[..i]] + SplitOn(s[i + 1..], sep)
  }

  function CountChar(s: string, c: char): nat
  {
    if s == [] then 0 else (if s[0] == c then 1 else 0) + CountChar(s[1..], c)
  }

  lemma {:induction false} CountCharAppend(a: string, b: string, c: char)
    ensures CountChar(a + b, c) == CountChar(a, c) + CountChar(b, c)
  {
    if a == [] {
      assert a + b == b;
    } else {
      assert (a + b)[1..] == a[1..] + b;
      CountCharAppend(a[1..], b, c);
    }
  }

  lemma {:induction false} CountCharAbsent(s: string, c: char)
    requires c !in s
    ensures CountChar(s, c) == 0
  {
    if s != [] {
      CountCharAbsent(s[1..], c);
    }
  }

  /** Splitting on `sep` and joining with `sep` is the identity, and there is one
      more piece than there are separators. */
  lemma SplitOnSpec(s: string, sep: char)
    ensures JoinWith(SplitOn(s, sep), [sep]) == s
    ensures |SplitOn(s, sep)| == CountChar(s, sep) + 1
  {
    SplitOnJoin(s, sep);
    SplitOnCount(s, sep);
  }

  lemma {:induction false} SplitOnJoin(s: string, sep: char)
    ensures JoinWith(SplitOn(s, sep), [sep]) == s
    decreases |s|
  {
    if sep in s {
      var i := IndexOf(s, sep);
      var rest := s[i + 1..];
      assert SplitOn(s, sep) == [s[..i]] + SplitOn(rest, sep);
      SplitOnJoin(rest, sep);
      JoinWithCons(s[..i], SplitOn(rest, sep), [sep]);
      assert s == s[..i] + [sep] + rest;
    }
  }

  lemma {:induction false} SplitOnCount(s: string, sep: char)
    ensures |SplitOn(s, sep)| == CountChar(s, sep) + 1
    decreases |s|
  {
    if sep !in s {
      CountCharAbsent(s, sep);
    } else {
      var i := IndexOf(s, sep);
      var rest := s[i + 1..];
      SplitOnCount(rest, sep);
      assert s == s[..i] + [sep] + rest;
      CountCharAppend(s[..i] + [sep], rest, sep);
      CountCharAppend(s[..i], [sep], sep);
      CountCharAbsent(s[..i], sep);
    }
  }

  // ---------------------------------------------------------------------------
  // Paragraph breaks after sentence ends

  /** `re.sub(r'([.!?])\s+', r'\1\n\n', s)`, JavaScript `s.replace(/([.!?])\s+/g, '$1\n\n')`:
      the whitespace run after each sentence end becomes a blank line. */
  function Reflow(s: string): (r: string)
    ensures s != [] ==> r != [] && r[0] == s[0]
    decreases |s|
  {
    if s == [] then []
    else if IsPunct(s[0]) && |s| > 1 && IsSpace(s[1]) then [s[0]] + "\n\n" + Reflow(StripLeft(s[1..]))
    else [s[0]] + Reflow(s[1..])
  }

  /** Every sentence end followed by whitespace is followed by exactly two newlines. */
  predicate ParagraphBreaks(r: string)
  {
    forall i :: 0 <= i < |r| ==> BreakAt(r, i)
  }

  predicate BreakAt(r: string, i: nat)
    requires i < |r|
  {
    i + 1 < |r| && IsPunct(r[i]) && IsSpace(r[i + 1]) ==>
      i + 2 < |r| && r[i + 1] == '\n' && r[i + 2] == '\n' && (i + 3 == |r| || !IsSpace(r[i + 3]))
  }

  lemma {:induction false} ReflowBreaks(s: string)
    ensures ParagraphBreaks(Reflow(s))
    decreases |s|
  {
    if s == [] {
    } else if IsPunct(s[0]) && |s| > 1 && IsSpace(s[1]) {
      var t := StripLeft(s[1..]);
      ReflowBreaks(t);
      var tail := Reflow(t);
      var r := [s[0]] + "\n\n" + tail;
      assert Reflow(s) == r;
      forall i | 0 <= i < |r|
        ensures BreakAt(r, i)
      {
        if i >= 3 {
          assert BreakAt(tail, i - 3);
          assert r[i] == tail[i - 3];
          assert i + 1 < |r| ==> r[i + 1] == tail[i - 2];
          assert i + 2 < |r| ==> r[i + 2] == tail[i - 1];
          assert i + 3 < |r| ==> r[i + 3] == tail[i];
        } else if i == 0 {
          assert |r| > 3 ==> r[3] == t[0];
        }
      }
    } else {
      ReflowBreaks(s[1..]);
      var tail := Reflow(s[1..]);
      var r := [s[0]] + tail;
      assert Reflow(s) == r;
      forall i | 0 <= i < |r|
        ensures BreakAt(r, i)
      {
        if i == 0 {
          assert |r| > 1 ==> r[1] == s[1];
        } else {
          assert BreakAt(tail, i - 1);
          assert r[i] == tail[i - 1];
          assert i + 1 < |r| ==> r[i + 1] == tail[i];
          assert i + 2 < |r| ==> r[i + 2] == tail[i + 1];
          assert i + 3 < |r| ==> r[i + 3] == tail[i + 2];
        }
      }
    }
  }

  /** Reflowing changes whitespace only. */
  lemma {:induction false} ReflowContent(s: string)
    ensures NonSpace(Reflow(s)) == NonSpace(s)
    decreases |s|
  {
    if s == [] {
    } else if IsPunct(s[0]) && |s| > 1 && IsSpace(s[1]) {
      var t := StripLeft(s[1..]);
      ReflowContent(t);
      StripLeftSpec(s[1..]);
      var tail := Reflow(t);
      var head := [s[0]] + "\n\n";
      assert Reflow(s) == head + tail;
      NonSpaceAppend(head, tail);
      NonSpaceOfBlank(head[1..]);
      assert NonSpace(head) == [s[0]];
      assert NonSpace(s) == [s[0]] + NonSpace(s[1..]);
    } else {
      ReflowContent(s[1..]);
      assert NonSpace(Reflow(s)) == (if IsSpace(s[0]) then [] else [s[0]]) + NonSpace(Reflow(s[1..]));
    }
  }

  /** Stripping the ends keeps the paragraph breaks in the middle intact. */
  lemma {:induction false} StripKeepsBreaks(r: string)
    requires ParagraphBreaks(r)
    ensures ParagraphBreaks(Strip(r))
  {
    var t := StripLeft(r);
    var k := |r| - |t|;
    var u := StripRight(t);
    StripLeftShape(r);
    StripRightShape(t);
    forall i | 0 <= i < |u|
      ensures BreakAt(u, i)
    {
      if i + 1 < |u| && IsPunct(u[i]) && IsSpace(u[i + 1]) {
        assert u[i] == r[k + i] && u[i + 1] == r[k + i + 1];
        assert BreakAt(r, k + i);
        assert u[i + 1] == '\n';
        assert i + 1 != |u| - 1;
        assert k + i + 2 < |r|;
        assert u[i + 2] == r[k + i + 2];
        assert i + 2 != |u| - 1;
        assert u[i + 3] == r[k + i + 3];
      }
    }
  }

  // ---------------------------------------------------------------------------
  // JavaScript regular-expression rewrites used by the frontend

  /** `s.replace(/\s+/g, ' ')`: every whitespace run becomes one space. */
  function SquashSpaceRuns(s: string): (r: string)
    ensures s != [] ==> r != [] && (IsSpace(r[0]) <==> IsSpace(s[0]))
    decreases |s|
  {
    if s == [] then []
    else if IsSpace(s[0]) then " " + SquashSpaceRuns(StripLeft(s[1..]))
    else [s[0]] + SquashSpaceRuns(s[1..])
  }

  /** Every whitespace character is a space not followed by another whitespace character. */
  predicate Squashed(r: string)
  {
    forall i :: 0 <= i < |r| ==> SquashedAt(r, i)
  }

  predicate SquashedAt(r: string, i: nat)
    requires i < |r|
  {
    IsSpace(r[i]) ==> r[i] == ' ' && (i + 1 == |r| || !IsSpace(r[i + 1]))
  }

  lemma {:induction false} SquashSpec(s: string)
    ensures Squashed(SquashSpaceRuns(s))
    decreases |s|
  {
    if s == [] {
    } else if IsSpace(s[0]) {
      var t := StripLeft(s[1..]);
      SquashSpec(t);
      var tail := SquashSpaceRuns(t);
      var r := " " + tail;
      assert SquashSpaceRuns(s) == r;
      forall i | 0 <= i < |r|
        ensures SquashedAt(r, i)
      {
        if i > 0 {
          assert SquashedAt(tail, i - 1);
          assert r[i] == tail[i - 1];
          assert i + 1 < |r| ==> r[i + 1] == tail[i];
        } else {
          assert |r| > 1 ==> r[1] == tail[0];
        }
      }
    } else {
      SquashSpec(s[1..]);
      var tail := SquashSpaceRuns(s[1..]);
      var r := [s[0]] + tail;
      assert SquashSpaceRuns(s) == r;
      forall i | 0 <= i < |r|
        ensures SquashedAt(r, i)
      {
        if i > 0 {
          assert SquashedAt(tail, i - 1);
          assert r[i] == tail[i - 1];
          assert i + 1 < |r| ==> r[i + 1] == tail[i];
        }
      }
    }
  }

  /** Squashing whitespace runs changes whitespace only. */
  lemma {:induction false} SquashContent(s: string)
    ensures NonSpace(SquashSpaceRuns(s)) == NonSpace(s)
    decreases |s|
  {
    if s == [] {
    } else if IsSpace(s[0]) {
      var t := StripLeft(s[1..]);
      SquashContent(t);
      StripLeftSpec(s[1..]);
      NonSpaceAppend(" ", SquashSpaceRuns(t));
    } else {
      SquashContent(s[1..]);
      NonSpaceAppend([s[0]], SquashSpaceRuns(s[1..]));
    }
  }

  lemma {:induction false} SquashOfSquashed(r: string)
    requires Squashed(r)
    ensures SquashSpaceRuns(r) == r
  {
    if r != [] {
      assert Squashed(r[1..]) by {
        forall i | 0 <= i < |r[1..]|
          ensures SquashedAt(r[1..], i)
        {
          assert SquashedAt(r, i + 1);
          assert r[1..][i] == r[i + 1];
          assert i + 1 < |r[1..]| ==> r[1..][i + 1] == r[i + 2];
        }
      }
      SquashOfSquashed(r[1..]);
      if IsSpace(r[0]) {
        assert SquashedAt(r, 0);
        assert StripLeft(r[1..]) == r[1..];
      }
    }
  }

  lemma {:induction false} SquashedStripCollapsed(r: string)
    requires Squashed(r)
    ensures Collapsed(Strip(r))
  {
    var t := StripLeft(r);
    var k := |r| - |t|;
    var u := StripRight(t);
    StripLeftShape(r);
    StripRightShape(t);
    forall i | 0 <= i < |u|
      ensures LoneSpaceAt(u, i)
    {
      if IsSpace(u[i]) {
        assert u[i] == r[k + i];
        assert SquashedAt(r, k + i);
        assert i != 0 && i != |u| - 1;
        assert u[i + 1] == r[k + i + 1];
      }
    }
  }

  lemma {:induction false} SquashedOfCollapsed(r: string)
    requires Collapsed(r)
    ensures Squashed(r)
  {
    forall i | 0 <= i < |r|
      ensures SquashedAt(r, i)
    {
      assert LoneSpaceAt(r, i);
    }
  }

  /** Drops leading newlines. */
  function DropNewlines(s: string): (r: string)
    ensures |r| <= |s|
  {
    if s != [] && s[0] == '\n' then DropNewlines(s[1..]) else s
  }

  /** `s.replace(/\n+/g, '\n\n')`. */
  function DoubleNewlines(s: string): string
    decreases |s|
  {
    if s == [] then []
    else if s[0] == '\n' then "\n\n" + DoubleNewlines(DropNewlines(s[1..]))
    else [s[0]] + DoubleNewlines(s[1..])
  }

  lemma {:induction false} DoubleNewlinesWithoutNewline(s: string)
    requires '\n' !in s
    ensures DoubleNewlines(s) == s
  {
    if s != [] {
      DoubleNewlinesWithoutNewline(s[1..]);
    }
  }

  /** `s.replace(/- /g, '')`: removes every dash-space pair, scanning left to right. */
  function RemoveDashSpace(s: string): (r: string)
    ensures |r| <= |s|
  {
    if |s| >= 2 && s[0] == '-' && s[1] == ' ' then RemoveDashSpace(s[2..])
    else if s == [] then []
    else [s[0]] + RemoveDashSpace(s[1..])
  }

  /** `s.replace(/\n/g, ' ')`. */
  function NewlinesToSpaces(s: string): (r: string)
    ensures |r| == |s| && '\n' !in r
    ensures forall i :: 0 <= i < |s| ==> r[i] == (if s[i] == '\n' then ' ' else s[i])
  {
    if s == [] then [] else [if s[0] == '\n' then ' ' else s[0]] + NewlinesToSpaces(s[1..])
  }

  /** Turning newlines into spaces changes whitespace only. */
  lemma {:induction false} NewlinesToSpacesContent(s: string)
    ensures NonSpace(NewlinesToSpaces(s)) == NonSpace(s)
  {
    if s != [] {
      NewlinesToSpacesContent(s[1..]);
      assert NewlinesToSpaces(s)[1..] == NewlinesToSpaces(s[1..]);
    }
  }

  // ---------------------------------------------------------------------------
  // Python regular-expression rewrites used by the backend

  /** Drops the leading copies of `c`. */
  function DropLeading(s: string, c: char): (r: string)
    ensures |r| <= |s| && r == s[|s| - |r|..]
    ensures r == [] || r[0] != c
    ensures forall i :: 0 <= i < |s| - |r| ==> s[i] == c
  {
    if s != [] && s[0] == c then DropLeading(s[1..], c) else s
  }

  /** `re.sub(r'ii+', '', s)`: deletes every run of two or more `i`. */
  function DeleteIRuns(s: string): (r: string)
    ensures s != [] && s[0] != 'i' ==> r != [] && r[0] == s[0]
    decreases |s|
  {
    if |s| >= 2 && s[0] == 'i' && s[1] == 'i' then DeleteIRuns(DropLeading(s, 'i'))
    else if s == [] then []
    else [s[0]] + DeleteIRuns(s[1..])
  }

  /** `s` with every copy of `c` removed. */
  function Without(s: string, c: char): string
  {
    if s == [] then [] else (if s[0] == c then [] else [s[0]]) + Without(s[1..], c)
  }

  lemma {:induction false} WithoutAppend(a: string, b: string, c: char)
    ensures Without(a + b, c) == Without(a, c) + Without(b, c)
  {
    if a == [] {
      assert a + b == b;
    } else {
      assert (a + b)[1..] == a[1..] + b;
      WithoutAppend(a[1..], b, c);
    }
  }

  lemma {:induction false} WithoutAll(s: string, c: char)
    requires forall i :: 0 <= i < |s| ==> s[i] == c
    ensures Without(s, c) == []
  {
    if s != [] {
      WithoutAll(s[1..], c);
    }
  }

  /** The deletion one character at a time: an `i` goes exactly when the character
      before it or the one after it is also an `i`, and every other character
      stays. `afterI` says whether the character before `s` was an `i`. */
  function KeepLoneI(s: string, afterI: bool): string
  {
    if s == [] then []
    else if s[0] == 'i' && (afterI || (|s| > 1 && s[1] == 'i')) then KeepLoneI(s[1..], true)
    else [s[0]] + KeepLoneI(s[1..], s[0] == 'i')
  }

  /** After an `i`, the rest of its run goes. */
  lemma {:induction false} KeepLoneAfterI(s: string)
    ensures KeepLoneI(s, true) == KeepLoneI(DropLeading(s, 'i'), false)
  {
    if s != [] && s[0] == 'i' {
      KeepLoneAfterI(s[1..]);
    }
  }

  /** `re.sub(r'ii+', '', s)` deletes exactly the `i` that have an `i` beside them. */
  lemma {:induction false} DeleteIRunsLocal(s: string)
    ensures DeleteIRuns(s) == KeepLoneI(s, false)
    decreases |s|
  {
    if |s| >= 2 && s[0] == 'i' && s[1] == 'i' {
      var t := DropLeading(s, 'i');
      DeleteIRunsLocal(t);
      KeepLoneAfterI(s[1..]);
      assert DropLeading(s[1..], 'i') == t;
    } else if s != [] {
      DeleteIRunsLocal(s[1..]);
      if s[0] == 'i' {
        KeepLoneAfterI(s[1..]);
      }
    }
  }

  /** No two `i` stand side by side. */
  predicate NoIRuns(s: string)
  {
    forall k :: 0 <= k < |s| - 1 ==> !(s[k] == 'i' && s[k + 1] == 'i')
  }

  /** A text with no two `i` side by side is left as it is. */
  lemma {:induction false} DeleteIRunsNoRuns(s: string)
    ensures NoIRuns(s) ==> DeleteIRuns(s) == s
  {
    if s != [] && NoIRuns(s) {
      assert NoIRuns(s[1..]) by {
        forall k | 0 <= k < |s| - 2
          ensures !(s[1..][k] == 'i' && s[1..][k + 1] == 'i')
        {
          assert s[1..][k] == s[k + 1] && s[1..][k + 1] == s[k + 2];
        }
      }
      DeleteIRunsNoRuns(s[1..]);
      if |s| >= 2 {
        assert !(s[0] == 'i' && s[1] == 'i');
      }
      assert s == [s[0]] + s[1..];
    }
  }

  /** Deleting the runs of `i` leaves no two `i` side by side, removes nothing but
      `i`, and keeps every `i` that has no `i` beside it: the deleted characters are
      exactly the `i` in runs of two or more. */
  lemma DeleteIRunsSpec(s: string)
    ensures NoIRuns(DeleteIRuns(s))
    ensures Without(DeleteIRuns(s), 'i') == Without(s, 'i')
    ensures DeleteIRuns(s) == KeepLoneI(s, false)
    ensures NoIRuns(s) ==> DeleteIRuns(s) == s
  {
    DeleteIRunsShape(s);
    DeleteIRunsLocal(s);
    DeleteIRunsNoRuns(s);
  }

  lemma {:induction false} DeleteIRunsShape(s: string)
    ensures forall k :: 0 <= k < |DeleteIRuns(s)| - 1 ==> !(DeleteIRuns(s)[k] == 'i' && DeleteIRuns(s)[k + 1] == 'i')
    ensures Without(DeleteIRuns(s), 'i') == Without(s, 'i')
    decreases |s|
  {
    if |s| >= 2 && s[0] == 'i' && s[1] == 'i' {
      var t := DropLeading(s, 'i');
      DeleteIRunsShape(t);
      assert s == s[..|s| - |t|] + t;
      WithoutAppend(s[..|s| - |t|], t, 'i');
      WithoutAll(s[..|s| - |t|], 'i');
    } else if s != [] {
      DeleteIRunsShape(s[1..]);
      var tail := DeleteIRuns(s[1..]);
      var r := [s[0]] + tail;
      assert DeleteIRuns(s) == r;
      forall k | 0 <= k < |r| - 1
        ensures !(r[k] == 'i' && r[k + 1] == 'i')
      {
        if k == 0 {
          if s[0] == 'i' {
            assert s[1] != 'i';
            assert r[1] == s[1];
          }
        } else {
          assert r[k] == tail[k - 1] && r[k + 1] == tail[k];
        }
      }
      assert s == [s[0]] + s[1..];
      WithoutAppend([s[0]], s[1..], 'i');
      WithoutAppend([s[0]], tail, 'i');
    }
  }

  /** The characters of `r` are exactly those of `s` in the class. */
  predicate SameKept(r: string, s: string, keep: char -> bool)
  {
    forall c :: c in r <==> c in s && keep(c)
  }

  /** Every character of `s` is in the class. */
  predicate AllKept(s: string, keep: char -> bool)
  {
    forall i :: 0 <= i < |s| ==> keep(s[i])
  }

  /** `re.sub('[^<class>]', '', s)`: keeps the characters of `s` in the class, in order. */
  function KeepIf(s: string, keep: char -> bool): (r: string)
    ensures SameKept(r, s, keep)
    ensures |r| <= |s|
    ensures AllKept(s, keep) ==> r == s
  {
    if s == [] then []
    else
      var tail := KeepIf(s[1..], keep);
      assert forall c :: c in s <==> c == s[0] || c in s[1..];
      (if keep(s[0]) then [s[0]] else []) + tail
  }

  /** The filter works character by character: it distributes over concatenation,
      and with `KeepIfOne` this fixes the result as the class characters of `s` in
      their order and multiplicity. */
  lemma {:induction false} KeepIfAppend(a: string, b: string, keep: char -> bool)
    ensures KeepIf(a + b, keep) == KeepIf(a, keep) + KeepIf(b, keep)
  {
    if a == [] {
      assert a + b == b;
    } else {
      KeepIfAppend(a[1..], b, keep);
      KeepIfAppendStep(a, b, keep);
    }
  }

  /** The step of `KeepIfAppend`: the head of `a` is handled before the rest. */
  lemma KeepIfAppendStep(a: string, b: string, keep: char -> bool)
    requires a != []
    requires KeepIf(a[1..] + b, keep) == KeepIf(a[1..], keep) + KeepIf(b, keep)
    ensures KeepIf(a + b, keep) == KeepIf(a, keep) + KeepIf(b, keep)
  {
    var h := if keep(a[0]) then [a[0]] else [];
    assert (a + b)[0] == a[0] && (a + b)[1..] == a[1..] + b;
    KeepIfCons(a + b, keep);
    KeepIfCons(a, keep);
    calc {
      KeepIf(a + b, keep);
      h + KeepIf(a[1..] + b, keep);
      h + (KeepIf(a[1..], keep) + KeepIf(b, keep));
      { AppendAssoc(h, KeepIf(a[1..], keep), KeepIf(b, keep)); }
      (h + KeepIf(a[1..], keep)) + KeepIf(b, keep);
      KeepIf(a, keep) + KeepIf(b, keep);
    }
  }

  lemma AppendAssoc(x: string, y: string, z: string)
    ensures x + (y + z) == (x + y) + z
  {
  }

  /** One step of the filter: the head is kept exactly when it is in the class. */
  lemma KeepIfCons(s: string, keep: char -> bool)
    requires s != []
    ensures KeepIf(s, keep) == (if keep(s[0]) then [s[0]] else []) + KeepIf(s[1..], keep)
  {
  }

  /** A single character is kept exactly when it is in the class. */
  lemma KeepIfOne(c: char, keep: char -> bool)
    ensures KeepIf([c], keep) == if keep(c) then [c] else []
  {
    assert [c][1..] == [];
  }
}
