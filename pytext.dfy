/** The fragment of Python's `str` behaviour the pipeline relies on:
    `strip()`, `split()`, `" ".join(...)`, `lower()`, `in`, `startswith`,
    `endswith` and `isupper()`. Strings are sequences of code points. */
module PyText {

  /** `str.isspace()` on one code point; `strip()`, `split()` and the regular
      expression class `\s` all use this same set. */
  predicate IsSpace(c: char) {
    || c == ' '
    || '\t' <= c <= '\r'
    || '\U{1C}' <= c <= '\U{1F}'
    || c == '\U{85}' || c == '\U{A0}' || c == '\U{1680}'
    || '\U{2000}' <= c <= '\U{200A}'
    || c == '\U{2028}' || c == '\U{2029}' || c == '\U{202F}' || c == '\U{205F}'
    || c == '\U{3000}'
  }

  /** The regular expression class `\d`, restricted to ASCII digits. */
  predicate IsDigit(c: char) { '0' <= c <= '9' }

  predicate IsUpperChar(c: char) { 'A' <= c <= 'Z' }
  predicate IsLowerChar(c: char) { 'a' <= c <= 'z' }

  predicate NoSpace(s: string) { forall i :: 0 <= i < |s| ==> !IsSpace(s[i]) }

  /** `s.lstrip()`: the longest suffix of `s` that does not start with whitespace. */
  function StripLeft(s: string): (r: string)
    ensures |r| <= |s|
    ensures r != [] ==> !IsSpace(r[0])
  {
    if s != [] && IsSpace(s[0]) then StripLeft(s[1..]) else s
  }

  /** `lstrip()` removes exactly the leading whitespace. */
  lemma {:induction false} StripLeftSpec(s: string)
    ensures StripLeft(s) == s[|s| - |StripLeft(s)|..]
    ensures forall i :: 0 <= i < |s| - |StripLeft(s)| ==> IsSpace(s[i])
  {
    if s != [] && IsSpace(s[0]) {
      StripLeftSpec(s[1..]);
    }
  }

  /** `s.rstrip()`: the longest prefix of `s` that does not end with whitespace. */
  function StripRight(s: string): (r: string)
    ensures |r| <= |s| && r == s[..|r|]
    ensures forall i :: |r| <= i < |s| ==> IsSpace(s[i])
    ensures r != [] ==> !IsSpace(r[|r| - 1])
  {
    if s != [] && IsSpace(s[|s| - 1]) then StripRight(s[..|s| - 1]) else s
  }

  /** `s.strip()`. */
  function Strip(s: string): string {
    StripRight(StripLeft(s))
  }

  /** `strip()` returns a piece of `s` that neither starts nor ends with
      whitespace, and is empty exactly when `s` is all whitespace. */
  lemma StripSpec(s: string)
    ensures exists i :: OccursAt(s, Strip(s), i)
    ensures Strip(s) == [] <==> forall i :: 0 <= i < |s| ==> IsSpace(s[i])
    ensures Strip(s) != [] ==> !IsSpace(Strip(s)[0]) && !IsSpace(Strip(s)[|Strip(s)| - 1])
  {
    var l := StripLeft(s);
    var r := StripRight(l);
    StripLeftSpec(s);
    assert r == l[..|r|] && l == s[|s| - |l|..];
    assert r == s[|s| - |l|..|s| - |l| + |r|];
    assert r == Strip(s);
    assert OccursAt(s, Strip(s), |s| - |l|);
  }

  /** The maximal whitespace-free prefix of `s`. */
  function TakeWord(s: string): (w: string)
    ensures |w| <= |s| && NoSpace(w)
    ensures s != [] && !IsSpace(s[0]) ==> w != []
  {
    if s == [] || IsSpace(s[0]) then [] else [s[0]] + TakeWord(s[1..])
  }

  /** `s.split()` with no separator: the maximal runs of non-whitespace. */
  function Split(s: string): seq<string>
    decreases |s|
  {
    var t := StripLeft(s);
    if t == [] then [] else
    var w := TakeWord(t);
    [w] + Split(t[|w|..])
  }

  /** Every piece `split()` returns is a non-empty run without whitespace. */
  lemma {:induction false} SplitWordAt(s: string, k: nat)
    requires k < |Split(s)|
    ensures Split(s)[k] != [] && NoSpace(Split(s)[k])
    decreases |s|
  {
    var t := StripLeft(s);
    var w := TakeWord(t);
    if k > 0 {
      SplitWordAt(t[|w|..], k - 1);
    }
  }

  /** `sep.join(parts)`. */
  function JoinWith(sep: string, parts: seq<string>): (r: string)
    ensures parts == [] ==> r == []
  {
    if parts == [] then []
    else if |parts| == 1 then parts[0]
    else JoinWith(sep, parts[..|parts| - 1]) + sep + parts[|parts| - 1]
  }

  /** `" ".join(...)` peeled from the front, the shape `Split` consumes. */
  lemma {:induction false} JoinFront(sep: string, parts: seq<string>)
    requires |parts| >= 2
    ensures JoinWith(sep, parts) == parts[0] + sep + JoinWith(sep, parts[1..])
  {
    if |parts| > 2 {
      var init := parts[..|parts| - 1];
      JoinFront(sep, init);
      assert init[1..] == parts[1..][..|parts| - 2];
    }
  }

  lemma {:induction false} TakeWordOfWord(w: string, rest: string)
    requires NoSpace(w) && (rest == [] || IsSpace(rest[0]))
    ensures TakeWord(w + rest) == w
    decreases |w|
  {
    if w != [] {
      assert (w + rest)[1..] == w[1..] + rest;
      TakeWordOfWord(w[1..], rest);
    } else {
      assert w + rest == rest;
    }
  }

  /** Leading whitespace of any kind adds no piece. With `Split([]) == []` and
      `SplitWordFront`, this determines `split()` on every text. */
  lemma SplitWhitespaceFront(c: char, rest: string)
    requires IsSpace(c)
    ensures Split([c] + rest) == Split(rest)
  {
    assert ([c] + rest)[1..] == rest;
    assert StripLeft([c] + rest) == StripLeft(rest);
  }

  /** A leading word up to whitespace or the end is the first piece. */
  lemma SplitWordFront(w: string, rest: string)
    requires w != [] && NoSpace(w) && (rest == [] || IsSpace(rest[0]))
    ensures Split(w + rest) == [w] + Split(rest)
  {
    var s := w + rest;
    assert StripLeft(s) == s;
    TakeWordOfWord(w, rest);
    assert s[|w|..] == rest;
  }

  lemma SplitWordSpace(w: string, rest: string)
    requires w != [] && NoSpace(w)
    ensures Split(w + " " + rest) == [w] + Split(rest)
  {
    var tail := " " + rest;
    assert w + " " + rest == w + tail;
    SplitWordFront(w, tail);
    SplitWhitespaceFront(' ', rest);
  }

  lemma SplitOneWord(w: string)
    requires w != [] && NoSpace(w)
    ensures Split(w) == [w]
  {
    SplitWordFront(w, []);
    assert w + [] == w;
  }

  /** Splitting words joined by single spaces gives the words back. */
  lemma {:induction false} SplitJoin(ws: seq<string>)
    requires forall k :: 0 <= k < |ws| ==> ws[k] != [] && NoSpace(ws[k])
    ensures Split(JoinWith(" ", ws)) == ws
  {
    if |ws| == 1 {
      SplitOneWord(ws[0]);
    } else if |ws| >= 2 {
      var tail := ws[1..];
      assert ws == [ws[0]] + tail;
      forall k | 0 <= k < |tail| ensures tail[k] != [] && NoSpace(tail[k]) {
        assert tail[k] == ws[k + 1];
      }
      JoinFront(" ", ws);
      SplitWordSpace(ws[0], JoinWith(" ", tail));
      SplitJoin(tail);
    } else {
      assert Split([]) == [];
    }
  }

  /** `len(s.split())`. */
  function WordCount(s: string): nat { |Split(s)| }

  /** The number of word starts in `s`: non-whitespace characters that begin
      the text (when `afterSpace`) or follow whitespace. */
  function WordStarts(s: string, afterSpace: bool): nat
    decreases |s|
  {
    if s == [] then 0
    else (if afterSpace && !IsSpace(s[0]) then 1 else 0) + WordStarts(s[1..], IsSpace(s[0]))
  }

  /** `TakeWord` stops at whitespace or at the end of the text. */
  lemma {:induction false} TakeWordEnds(s: string)
    ensures s[..|TakeWord(s)|] == TakeWord(s)
    ensures |TakeWord(s)| == |s| || IsSpace(s[|TakeWord(s)|])
    decreases |s|
  {
    if s != [] && !IsSpace(s[0]) {
      TakeWordEnds(s[1..]);
    }
  }

  /** Inside a word no new word starts. */
  lemma {:induction false} WordStartsInWord(w: string, rest: string)
    requires NoSpace(w) && (rest == [] || IsSpace(rest[0]))
    ensures WordStarts(w + rest, false) == WordStarts(rest, true)
    decreases |w|
  {
    if w != [] {
      assert (w + rest)[0] == w[0];
      assert (w + rest)[1..] == w[1..] + rest;
      WordStartsInWord(w[1..], rest);
    } else {
      assert w + rest == rest;
    }
  }

  /** `len(s.split())` counts the word starts of any text: runs of spaces,
      tabs and newlines and whitespace at either end add no word. */
  lemma {:induction false} WordCountStarts(s: string)
    ensures WordCount(s) == WordStarts(s, true)
    decreases |s|
  {
    if s == [] {
    } else if IsSpace(s[0]) {
      assert [s[0]] + s[1..] == s;
      SplitWhitespaceFront(s[0], s[1..]);
      WordCountStarts(s[1..]);
    } else {
      var w := TakeWord(s);
      TakeWordEnds(s);
      var rest := s[|w|..];
      assert s == w + rest;
      SplitWordFront(w, rest);
      assert s[1..] == w[1..] + rest;
      WordStartsInWord(w[1..], rest);
      WordCountStarts(rest);
    }
  }

  /** Repeated spaces, a tab, and whitespace at both ends: two words. */
  lemma WordCountRunsExample()
    ensures WordCount(" a  \tb\n") == 2
  {
    WordCountStarts(" a  \tb\n");
  }

  function LowerChar(c: char): char {
    if IsUpperChar(c) then (c as int + 32) as char else c
  }

  /** `s.lower()` on ASCII letters; every other code point is kept. */
  function Lower(s: string): string {
    if s == [] then [] else Lower(s[..|s| - 1]) + [LowerChar(s[|s| - 1])]
  }

  /** `lower()` maps each code point on its own and keeps the length. */
  lemma {:induction false} LowerAt(s: string)
    ensures |Lower(s)| == |s|
    ensures forall i :: 0 <= i < |s| ==> Lower(s)[i] == LowerChar(s[i])
  {
    if s != [] {
      LowerAt(s[..|s| - 1]);
    }
  }

  predicate StartsWith(s: string, prefix: string) {
    |prefix| <= |s| && s[..|prefix|] == prefix
  }

  predicate EndsWithChar(s: string, c: char) {
    s != [] && s[|s| - 1] == c
  }

  predicate OccursAt(s: string, sub: string, i: int) {
    0 <= i <= |s| - |sub| && s[i..i + |sub|] == sub
  }

  /** Python's `sub in s`, scanning left to right. */
  function Contains(s: string, sub: string): bool
    decreases |s|
  {
    StartsWith(s, sub) || (s != [] && Contains(s[1..], sub))
  }

  /** The scan finds `sub` exactly when it occurs somewhere in `s`. */
  lemma {:induction false} ContainsIff(s: string, sub: string)
    ensures Contains(s, sub) <==> exists i :: OccursAt(s, sub, i)
    decreases |s|
  {
    if StartsWith(s, sub) {
      assert OccursAt(s, sub, 0);
    } else if s != [] {
      ContainsIff(s[1..], sub);
      if Contains(s[1..], sub) {
        var i :| OccursAt(s[1..], sub, i);
        assert s[1..][i..i + |sub|] == s[i + 1..i + 1 + |sub|];
        assert OccursAt(s, sub, i + 1);
      }
      if exists i :: OccursAt(s, sub, i) {
        var i :| OccursAt(s, sub, i);
        assert i != 0;
        assert s[1..][i - 1..i - 1 + |sub|] == s[i..i + |sub|];
        assert OccursAt(s[1..], sub, i - 1);
      }
    }
  }

  /** `s.isupper()`: at least one cased character and no lower-case one. */
  function IsUpper(s: string): (r: bool)
    ensures r ==> s != [] && Lower(s) != s
  {
    LowerAt(s);
    && (exists i :: 0 <= i < |s| && IsUpperChar(s[i]))
    && (forall i :: 0 <= i < |s| ==> !IsLowerChar(s[i]))
  }

  /** An equivalent reading of `isupper()` in terms of `lower()`: lowering the
      text changes it, and it has no lower-case letter. */
  lemma IsUpperIff(s: string)
    ensures IsUpper(s) <==> Lower(s) != s && forall i :: 0 <= i < |s| ==> !IsLowerChar(s[i])
  {
    LowerAt(s);
  }
}
