/**
 * The string normalisations of the draft bot: Python's str.split() with no
 * separator, str.strip(), " ".join(...) and str.lower(), and the two
 * normalisations built from them (team names and conference names).
 */
module Names {

  /** Python's str.isspace(): the characters str.split() and str.strip() break on. */
  predicate IsSpace(c: char) {
    || ('\t' <= c <= '\r')
    || ('\U{1C}' <= c <= '\U{1F}')
    || c == ' ' || c == '\U{85}' || c == '\U{A0}' || c == '\U{1680}'
    || ('\U{2000}' <= c <= '\U{200A}')
    || c == '\U{2028}' || c == '\U{2029}' || c == '\U{202F}' || c == '\U{205F}' || c == '\U{3000}'
  }

  /** A non-empty run of non-space characters: what str.split() yields. */
  predicate IsWord(w: string) {
    w != [] && forall i :: 0 <= i < |w| ==> !IsSpace(w[i])
  }

  predicate AllWords(ws: seq<string>) {
    forall k :: 0 <= k < |ws| ==> IsWord(ws[k])
  }

  /** The shape of " ".join(words): single ' ' separators, no other whitespace, none at either end. */
  predicate IsCollapsed(s: string) {
    && (s != [] ==> s[0] != ' ' && s[|s| - 1] != ' ')
    && (forall i :: 0 <= i < |s| && IsSpace(s[i]) ==> s[i] == ' ')
    && (forall i :: 0 <= i < |s| - 1 && s[i] == ' ' ==> s[i + 1] != ' ')
  }

  /** A string of whitespace only (possibly empty): what str.strip() removes and what separates words. */
  predicate AllSpace(s: string) {
    forall i :: 0 <= i < |s| ==> IsSpace(s[i])
  }

  predicate IsLowerCase(s: string) {
    forall i :: 0 <= i < |s| ==> !('A' <= s[i] <= 'Z')
  }

  /** Length of the leading word of s. */
  function WordLength(s: string): (n: nat)
    requires s != [] && !IsSpace(s[0])
    ensures 1 <= n <= |s|
    ensures forall i :: 0 <= i < n ==> !IsSpace(s[i])
    ensures n < |s| ==> IsSpace(s[n])
  {
    if |s| == 1 || IsSpace(s[1]) then 1 else 1 + WordLength(s[1..])
  }

  /** str.split(): the maximal runs of non-space characters, in order. */
  function Words(s: string): (ws: seq<string>)
    ensures AllWords(ws)
    decreases |s|
  {
    if s == [] then []
    else if IsSpace(s[0]) then Words(s[1..])
    else
      var n := WordLength(s);
      [s[..n]] + Words(s[n..])
  }

  /** " ".join(ws) */
  function Join(ws: seq<string>): string
  {
    if ws == [] then ""
    else if |ws| == 1 then ws[0]
    else ws[0] + " " + Join(ws[1..])
  }

  lemma AllWordsTail(ws: seq<string>)
    requires AllWords(ws) && ws != []
    ensures AllWords(ws[1..])
  {
    forall k | 0 <= k < |ws[1..]| ensures IsWord(ws[1..][k]) { assert ws[1..][k] == ws[k + 1]; }
  }

  /** " ".join of words has single spaces between them, no other whitespace and none at either end. */
  lemma {:induction false} JoinCollapsed(ws: seq<string>)
    requires AllWords(ws)
    ensures IsCollapsed(Join(ws))
    ensures Join(ws) == [] <==> ws == []
    ensures ws != [] ==> !IsSpace(Join(ws)[0]) && !IsSpace(Join(ws)[|Join(ws)| - 1])
  {
    if |ws| > 1 {
      AllWordsTail(ws);
      JoinCollapsed(ws[1..]);
      var rest := Join(ws[1..]);
      var r := ws[0] + " " + rest;
      assert IsWord(ws[0]);
      var n := |ws[0]|;
      forall i | 0 <= i < |r| && IsSpace(r[i]) ensures r[i] == ' ' {
        if i > n { assert r[i] == rest[i - n - 1]; }
      }
      forall i | 0 <= i < |r| - 1 && r[i] == ' ' ensures r[i + 1] != ' ' {
        if i > n { assert r[i] == rest[i - n - 1] && r[i + 1] == rest[i - n]; }
        else { assert i == n && r[i + 1] == rest[0]; }
      }
      assert r[|r| - 1] == rest[|rest| - 1];
    } else if |ws| == 1 {
      assert IsWord(ws[0]);
    }
  }

  /** The leading whitespace of s removed (the first half of str.strip()). */
  function TrimStart(s: string): (r: string)
    ensures r == [] || !IsSpace(r[0])
    ensures |r| <= |s| && r == s[|s| - |r|..]
    ensures forall i :: 0 <= i < |s| - |r| ==> IsSpace(s[i])
  {
    if s != [] && IsSpace(s[0]) then
      var r := TrimStart(s[1..]);
      assert forall i :: 1 <= i < |s| ==> s[i] == s[1..][i - 1];
      r
    else s
  }

  /** The trailing whitespace of s removed (the second half of str.strip()). */
  function TrimEnd(s: string): (r: string)
    ensures r == [] || !IsSpace(r[|r| - 1])
    ensures |r| <= |s| && r == s[..|r|]
    ensures forall i :: |r| <= i < |s| ==> IsSpace(s[i])
  {
    if s != [] && IsSpace(s[|s| - 1]) then
      var r := TrimEnd(s[..|s| - 1]);
      assert forall i :: 0 <= i < |s| - 1 ==> s[i] == s[..|s| - 1][i];
      r
    else s
  }

  /** str.strip() with no argument; StripRemovesSpace says what it removes. */
  function Strip(s: string): (r: string)
    ensures r == [] || (!IsSpace(r[0]) && !IsSpace(r[|r| - 1]))
  {
    var t := TrimStart(s);
    var r := TrimEnd(t);
    assert r != [] ==> r[0] == t[0];
    r
  }

  /** How many leading characters str.strip() removes. */
  function StripStart(s: string): nat {
    |s| - |TrimStart(s)|
  }

  /**
   * str.strip() removes whitespace only: the result is s less a whitespace
   * prefix (its first StripStart(s) characters) and a whitespace suffix.
   */
  lemma StripRemovesSpace(s: string)
    ensures StripStart(s) + |Strip(s)| <= |s|
    ensures Strip(s) == s[StripStart(s)..StripStart(s) + |Strip(s)|]
    ensures forall i :: 0 <= i < StripStart(s) ==> IsSpace(s[i])
    ensures forall i :: StripStart(s) + |Strip(s)| <= i < |s| ==> IsSpace(s[i])
  {
    var t := TrimStart(s);
    var r := TrimEnd(t);
    assert Strip(s) == r && StripStart(s) == |s| - |t|;
    StripParts(s, t, r);
  }

  lemma StripParts(s: string, t: string, r: string)
    requires |t| <= |s| && t == s[|s| - |t|..] && forall i :: 0 <= i < |s| - |t| ==> IsSpace(s[i])
    requires |r| <= |t| && r == t[..|r|] && forall i :: |r| <= i < |t| ==> IsSpace(t[i])
    ensures var a := |s| - |t|;
            && a + |r| <= |s| && r == s[a..a + |r|]
            && (forall i :: 0 <= i < a ==> IsSpace(s[i]))
            && (forall i :: a + |r| <= i < |s| ==> IsSpace(s[i]))
  {
    var a := |s| - |t|;
    assert forall i :: a <= i < |s| ==> s[i] == t[i - a];
    assert r == s[a..a + |r|] by {
      var u := s[a..a + |r|];
      assert |u| == |r|;
      forall i | 0 <= i < |r| ensures u[i] == r[i] {
        assert r[i] == t[i] && u[i] == s[a + i];
      }
    }
  }

  /** str.lower() on one character; only A to Z are mapped. */
  function LowerChar(c: char): (r: char)
    ensures !('A' <= r <= 'Z')
    ensures !IsSpace(c) ==> !IsSpace(r)
  {
    if 'A' <= c <= 'Z' then (c as int + 32) as char else c
  }

  /** str.lower() */
  function Lower(s: string): (r: string)
    ensures |r| == |s|
    ensures forall i :: 0 <= i < |s| ==> r[i] == LowerChar(s[i])
  {
    if s == [] then [] else [LowerChar(s[0])] + Lower(s[1..])
  }

  function LowerAll(ws: seq<string>): (ls: seq<string>)
    ensures |ls| == |ws|
  {
    seq(|ws|, k requires 0 <= k < |ws| => Lower(ws[k]))
  }

  /**
   * normalize_name: " ".join(n.strip().split()).lower(), a lower-case name
   * with single spaces between words and none at either end.
   */
  function NormalizeName(n: string): (r: string)
    ensures IsCollapsed(r) && IsLowerCase(r)
  {
    var ws := Words(Strip(n));
    LowerJoin(ws);
    LowerWords(ws);
    JoinCollapsed(LowerAll(ws));
    Lower(Join(ws))
  }

  /**
   * The conference-name normalisation: " ".join(conference.strip().split()).
   * The result is collapsed and has exactly the words of c, case kept.
   */
  function NormalizeConference(c: string): (r: string)
    ensures IsCollapsed(r)
    ensures Words(r) == Words(c)
  {
    var ws := Words(Strip(c));
    JoinCollapsed(ws);
    WordsOfJoin(ws);
    WordsOfStrip(c);
    Join(ws)
  }

  // ---------------------------------------------------------------------------
  // Lemmas

  lemma {:induction false} WordLengthOfWord(w: string, t: string)
    requires IsWord(w) && (t == [] || IsSpace(t[0]))
    ensures WordLength(w + t) == |w|
    decreases |w|
  {
    if |w| > 1 {
      assert (w + t)[1..] == w[1..] + t;
      WordLengthOfWord(w[1..], t);
    }
  }

  /** A word followed by whitespace (or nothing) splits off as the first word. */
  lemma WordsOfWordThen(w: string, t: string)
    requires IsWord(w) && (t == [] || IsSpace(t[0]))
    ensures Words(w + t) == [w] + Words(t)
  {
    WordLengthOfWord(w, t);
    var s := w + t;
    assert s[..|w|] == w;
    assert s[|w|..] == t;
  }

  /** str.split() undoes " ".join() on words: the round trip of the two. */
  lemma {:induction false} WordsOfJoin(ws: seq<string>)
    requires AllWords(ws)
    ensures Words(Join(ws)) == ws
  {
    if ws == [] {
    } else if |ws| == 1 {
      WordsOfWordThen(ws[0], []);
      assert ws[0] + [] == ws[0];
    } else {
      var w, rest := ws[0], Join(ws[1..]);
      assert AllWords(ws[1..]) by {
        forall k | 0 <= k < |ws[1..]| ensures IsWord(ws[1..][k]) { assert ws[1..][k] == ws[k + 1]; }
      }
      assert Join(ws) == w + (" " + rest);
      WordsOfWordThen(w, " " + rest);
      assert (" " + rest)[1..] == rest;
      assert Words(" " + rest) == Words(rest);
      WordsOfJoin(ws[1..]);
      assert ws == [w] + ws[1..];
    }
  }

  lemma {:induction false} WordLengthAppendSpace(s: string, c: char)
    requires s != [] && !IsSpace(s[0]) && IsSpace(c)
    ensures WordLength(s + [c]) == WordLength(s)
    decreases |s|
  {
    if |s| > 1 && !IsSpace(s[1]) {
      assert (s + [c])[1..] == s[1..] + [c];
      WordLengthAppendSpace(s[1..], c);
    }
  }

  lemma {:induction false} WordsAppendSpace(s: string, c: char)
    requires IsSpace(c)
    ensures Words(s + [c]) == Words(s)
    decreases |s|
  {
    if s == [] {
      assert [c][1..] == [];
    } else if IsSpace(s[0]) {
      assert (s + [c])[1..] == s[1..] + [c];
      WordsAppendSpace(s[1..], c);
    } else {
      var n := WordLength(s);
      WordLengthAppendSpace(s, c);
      assert (s + [c])[..n] == s[..n];
      assert (s + [c])[n..] == s[n..] + [c];
      WordsAppendSpace(s[n..], c);
    }
  }

  lemma {:induction false} WordsTrimStart(s: string)
    ensures Words(TrimStart(s)) == Words(s)
    decreases |s|
  {
    if s != [] && IsSpace(s[0]) {
      WordsTrimStart(s[1..]);
    }
  }

  lemma {:induction false} WordsTrimEnd(s: string)
    ensures Words(TrimEnd(s)) == Words(s)
    decreases |s|
  {
    if s != [] && IsSpace(s[|s| - 1]) {
      var p := s[..|s| - 1];
      WordsTrimEnd(p);
      assert s == p + [s[|s| - 1]];
      WordsAppendSpace(p, s[|s| - 1]);
    }
  }

  /** str.strip() before str.split() changes nothing. */
  lemma WordsOfStrip(s: string)
    ensures Words(Strip(s)) == Words(s)
  {
    WordsTrimEnd(TrimStart(s));
    WordsTrimStart(s);
  }

  /** Leading whitespace, however much, does not change str.split(). */
  lemma {:induction false} WordsOfSpaces(g: string, s: string)
    requires AllSpace(g)
    ensures Words(g + s) == Words(s)
    decreases |g|
  {
    if g != [] {
      assert (g + s)[0] == g[0];
      assert (g + s)[1..] == g[1..] + s;
      WordsOfSpaces(g[1..], s);
    } else {
      assert g + s == s;
    }
  }

  /** ws[0] + gaps[0] + ws[1] + gaps[1] + ...: each word followed by its own gap. */
  function Spaced(ws: seq<string>, gaps: seq<string>): string
    requires |gaps| == |ws|
  {
    if ws == [] then "" else ws[0] + gaps[0] + Spaced(ws[1..], gaps[1..])
  }

  /** A word, a gap of whitespace, then the rest: the word splits off and the gap vanishes. */
  lemma WordThenGap(w: string, g: string, rest: string)
    requires IsWord(w) && AllSpace(g) && (g != [] || rest == [])
    ensures Words(w + g + rest) == [w] + Words(rest)
  {
    var t := g + rest;
    assert w + g + rest == w + t;
    if g != [] { assert t[0] == g[0]; } else { assert t == []; }
    WordsOfWordThen(w, t);
    WordsOfSpaces(g, rest);
  }

  lemma {:induction false} WordsOfSpacedWords(ws: seq<string>, gaps: seq<string>)
    requires AllWords(ws) && |gaps| == |ws|
    requires forall k :: 0 <= k < |gaps| ==> AllSpace(gaps[k])
    requires forall k :: 0 <= k < |gaps| - 1 ==> gaps[k] != []
    ensures Words(Spaced(ws, gaps)) == ws
    decreases |ws|
  {
    if ws != [] {
      var ws', gaps' := ws[1..], gaps[1..];
      assert forall k :: 0 <= k < |gaps'| ==> gaps'[k] == gaps[k + 1];
      assert AllWords(ws') by { AllWordsTail(ws); }
      WordsOfSpacedWords(ws', gaps');
      var rest := Spaced(ws', gaps');
      assert |ws| == 1 ==> rest == [];
      assert IsWord(ws[0]) && AllSpace(gaps[0]);
      WordThenGap(ws[0], gaps[0], rest);
      assert ws == [ws[0]] + ws';
    }
  }

  /**
   * str.split() returns exactly the words of a string made of words and
   * whitespace gaps of any length and kind (tabs, runs of spaces, ...), as
   * long as the gaps between two words are not empty.
   */
  lemma WordsOfSpaced(lead: string, ws: seq<string>, gaps: seq<string>)
    requires AllSpace(lead) && AllWords(ws) && |gaps| == |ws|
    requires forall k :: 0 <= k < |gaps| ==> AllSpace(gaps[k])
    requires forall k :: 0 <= k < |gaps| - 1 ==> gaps[k] != []
    ensures Words(lead + Spaced(ws, gaps)) == ws
  {
    WordsOfSpaces(lead, Spaced(ws, gaps));
    WordsOfSpacedWords(ws, gaps);
  }

  lemma CollapsedTail(c: string, n: int)
    requires IsCollapsed(c) && 0 <= n < |c| - 1 && c[n] == ' '
    ensures IsCollapsed(c[n + 1..])
  {
    var t := c[n + 1..];
    assert forall i :: 0 <= i < |t| ==> t[i] == c[n + 1 + i];
  }

  /** A collapsed string past its first word: one ' ', then a non-empty collapsed rest. */
  lemma CollapsedSplit(c: string, n: int)
    requires IsCollapsed(c) && 0 <= n < |c| && IsSpace(c[n])
    ensures n + 1 < |c| && c[n] == ' ' && IsCollapsed(c[n + 1..]) && !IsSpace(c[n + 1])
    ensures c == c[..n] + " " + c[n + 1..]
  {
    assert c[n] == ' ';
    assert n + 1 < |c|;
    CollapsedTail(c, n);
    assert c[n + 1..][0] == c[n + 1];
    assert c[..n] + " " + c[n + 1..] == c[..n] + c[n..] by {
      assert c[n..] == [c[n]] + c[n + 1..];
    }
  }

  lemma WordsOfFirstWord(c: string)
    requires c != [] && !IsSpace(c[0])
    ensures Words(c) == [c[..WordLength(c)]] + Words(c[WordLength(c)..])
  {
  }

  lemma WordsPastSpace(c: string, n: int)
    requires 0 <= n < |c| && IsSpace(c[n])
    ensures Words(c[n..]) == Words(c[n + 1..])
  {
    assert c[n..][0] == c[n];
    assert c[n..][1..] == c[n + 1..];
  }

  /** The words of a collapsed string: its first word, then the words after the separating space. */
  lemma WordsOfCollapsed(c: string)
    requires IsCollapsed(c) && c != []
    ensures !IsSpace(c[0])
    ensures WordLength(c) == |c| ==> Words(c) == [c]
    ensures WordLength(c) < |c| ==> Words(c) == [c[..WordLength(c)]] + Words(c[WordLength(c) + 1..])
  {
    assert !IsSpace(c[0]);
    var n := WordLength(c);
    WordsOfFirstWord(c);
    if n == |c| {
      assert c[n..] == [] && c[..n] == c;
    } else {
      WordsPastSpace(c, n);
    }
  }

  lemma JoinCons(w: string, ws: seq<string>)
    requires ws != []
    ensures Join([w] + ws) == w + " " + Join(ws)
  {
    assert ([w] + ws)[1..] == ws;
  }

  /** A collapsed string is the " ".join of its own words. */
  lemma {:induction false} JoinOfWords(c: string)
    requires IsCollapsed(c)
    ensures Join(Words(c)) == c
    decreases |c|
  {
    if c != [] {
      WordsOfCollapsed(c);
      var n := WordLength(c);
      if n < |c| {
        CollapsedSplit(c, n);
        var rest := c[n + 1..];
        JoinOfWords(rest);
        assert Words(rest) != [] by { WordsOfCollapsed(rest); }
        JoinCons(c[..n], Words(rest));
      }
    }
  }

  /** A collapsed name is left as it is by the conference normalisation. */
  lemma NormalizeConferenceOfCollapsed(c: string)
    requires IsCollapsed(c)
    ensures NormalizeConference(c) == c
  {
    assert c != [] ==> !IsSpace(c[0]) && !IsSpace(c[|c| - 1]);
    assert TrimStart(c) == c;
    assert Strip(c) == c;
    JoinOfWords(c);
  }

  lemma {:induction false} LowerConcat(a: string, b: string)
    ensures Lower(a + b) == Lower(a) + Lower(b)
  {
    if a != [] {
      assert (a + b)[1..] == a[1..] + b;
      LowerConcat(a[1..], b);
    } else {
      assert a + b == b;
    }
  }

  lemma {:induction false} LowerJoin(ws: seq<string>)
    ensures Lower(Join(ws)) == Join(LowerAll(ws))
  {
    if |ws| > 1 {
      var ls := LowerAll(ws);
      assert LowerAll(ws[1..]) == ls[1..];
      var a, b := ws[0], Join(ws[1..]);
      calc {
        Lower(Join(ws));
        Lower((a + " ") + b);
        { LowerConcat(a + " ", b); }
        Lower(a + " ") + Lower(b);
        { LowerConcat(a, " "); }
        Lower(a) + Lower(" ") + Lower(b);
        { LowerJoin(ws[1..]); }
        ls[0] + " " + Join(ls[1..]);
        Join(ls);
      }
    }
  }

  lemma LowerWords(ws: seq<string>)
    requires AllWords(ws)
    ensures AllWords(LowerAll(ws))
  {
    forall k | 0 <= k < |ws| ensures IsWord(LowerAll(ws)[k]) {
      assert IsWord(ws[k]);
    }
  }

  lemma LowerOfLowerCase(s: string)
    requires IsLowerCase(s)
    ensures Lower(s) == s
  {
  }

  /** normalize_name is idempotent: a normalised name normalises to itself. */
  lemma NormalizeNameIdempotent(n: string)
    ensures NormalizeName(NormalizeName(n)) == NormalizeName(n)
  {
    var ws := Words(Strip(n));
    var ls := LowerAll(ws);
    LowerJoin(ws);
    LowerWords(ws);
    var m := NormalizeName(n);
    assert m == Join(ls);
    WordsOfStrip(m);
    WordsOfJoin(ls);
    assert Words(Strip(m)) == ls;
    LowerOfLowerCase(m);
  }

  /** The conference normalisation is idempotent too. */
  lemma NormalizeConferenceIdempotent(c: string)
    ensures NormalizeConference(NormalizeConference(c)) == NormalizeConference(c)
  {
    var ws := Words(Strip(c));
    var m := Join(ws);
    WordsOfStrip(m);
    WordsOfJoin(ws);
  }

  /**
   * The team-name normalisation is the conference normalisation followed by
   * lower-casing, so two conference names that differ only in case stay
   * distinct while the same two team names meet.
   */
  lemma NormalizeNameIsLoweredConference(s: string)
    ensures NormalizeName(s) == Lower(NormalizeConference(s))
    ensures NormalizeConference(s) == NormalizeConference(Strip(s))
  {
    WordsOfStrip(s);
    WordsOfStrip(Strip(s));
    assert Words(Strip(Strip(s))) == Words(Strip(s));
  }
}
