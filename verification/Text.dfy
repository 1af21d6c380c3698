/** The Go string operations the authorization and simulator code uses. A string is
    the sequence of its code points; all the operations below treat it that way. */
module Text {

  /** unicode.IsSpace */
  predicate IsSpace(c: char) {
    || c == ' ' || '\t' <= c <= '\r' || c == '\U{85}' || c == '\U{A0}' || c == '\U{1680}'
    || '\U{2000}' <= c <= '\U{200A}' || c == '\U{2028}' || c == '\U{2029}'
    || c == '\U{202F}' || c == '\U{205F}' || c == '\U{3000}'
  }

  function TrimLeft(s: string): string {
    if s != [] && IsSpace(s[0]) then TrimLeft(s[1..]) else s
  }

  function TrimRight(s: string): string {
    if s != [] && IsSpace(s[|s| - 1]) then TrimRight(s[..|s| - 1]) else s
  }

  /** strings.TrimSpace */
  function TrimSpace(s: string): string {
    TrimRight(TrimLeft(s))
  }

  ghost predicate Trimmed(s: string) {
    s == [] || (!IsSpace(s[0]) && !IsSpace(s[|s| - 1]))
  }

  lemma {:induction false} TrimLeftEnds(s: string)
    ensures TrimLeft(s) == [] || !IsSpace(TrimLeft(s)[0])
  {
    if s != [] && IsSpace(s[0]) {
      TrimLeftEnds(s[1..]);
    }
  }

  lemma {:induction false} TrimRightEnds(s: string)
    ensures TrimRight(s) <= s
    ensures TrimRight(s) == [] || !IsSpace(TrimRight(s)[|TrimRight(s)| - 1])
  {
    if s != [] && IsSpace(s[|s| - 1]) {
      TrimRightEnds(s[..|s| - 1]);
    }
  }

  /** What comes back has no space at either end, and a second trim finds nothing to do. */
  lemma TrimSpaceTrims(s: string)
    ensures Trimmed(TrimSpace(s))
    ensures TrimSpace(TrimSpace(s)) == TrimSpace(s)
  {
    TrimLeftEnds(s);
    TrimRightEnds(TrimLeft(s));
  }

  lemma TrimmedUnchanged(s: string)
    requires Trimmed(s)
    ensures TrimSpace(s) == s
  {
  }

  /** unicode.ToLower, where its result can be an ASCII letter: A-Z, the dotted
      capital I and the Kelvin sign. Other letters never become ASCII. */
  function LowerChar(c: char): char {
    if 'A' <= c <= 'Z' then (c as int + 32) as char
    else if c == '\U{130}' then 'i'
    else if c == '\U{212A}' then 'k'
    else c
  }

  /** strings.ToLower, exact for comparison with ASCII text. */
  function ToLower(s: string): string {
    seq(|s|, i requires 0 <= i < |s| => LowerChar(s[i]))
  }

  function FoldChar(c: char): char {
    if 'A' <= c <= 'Z' then (c as int + 32) as char else c
  }

  /** strings.EqualFold against an ASCII word without 'k' or 's', the only ASCII
      letters that also fold to a letter outside ASCII. */
  predicate EqualFold(s: string, word: string) {
    |s| == |word| && forall i | 0 <= i < |s| :: FoldChar(s[i]) == FoldChar(word[i])
  }

  /** The text is the word, each letter in lower or in upper case. */
  ghost predicate InAnyCase(s: string, lower: string, upper: string)
    requires |lower| == |upper|
  {
    |s| == |lower| && forall i | 0 <= i < |s| :: s[i] == lower[i] || s[i] == upper[i]
  }

  lemma FoldsExactly(s: string, word: string, lower: string, upper: string)
    requires |word| == |lower| == |upper|
    requires forall i | 0 <= i < |word| :: 'a' <= lower[i] <= 'z' && upper[i] as int == lower[i] as int - 32
    requires forall i | 0 <= i < |word| :: word[i] == lower[i] || word[i] == upper[i]
    ensures EqualFold(s, word) <==> InAnyCase(s, lower, upper)
  {
    if |s| == |word| {
      forall i | 0 <= i < |s| ensures FoldChar(s[i]) == FoldChar(word[i]) <==> s[i] == lower[i] || s[i] == upper[i] {
        assert FoldChar(word[i]) == lower[i];
      }
    }
  }

  ghost predicate AllSpaces(s: string) {
    forall c | c in s :: IsSpace(c)
  }

  lemma SpacesJoin(a: string, b: string)
    requires AllSpaces(a) && AllSpaces(b)
    ensures AllSpaces(a + b)
  {
    forall c | c in a + b ensures IsSpace(c) {
      assert c in a || c in b;
    }
  }

  lemma {:induction false} TrimLeftCuts(s: string) returns (cut: string)
    ensures AllSpaces(cut) && s == cut + TrimLeft(s)
  {
    if s != [] && IsSpace(s[0]) {
      var first := [s[0]];
      var rest := TrimLeftCuts(s[1..]);
      SpacesJoin(first, rest);
      cut := first + rest;
      calc {
        s;
        first + s[1..];
        first + (rest + TrimLeft(s[1..]));
        cut + TrimLeft(s);
      }
    } else {
      cut := "";
    }
  }

  lemma {:induction false} TrimRightCuts(s: string) returns (cut: string)
    ensures AllSpaces(cut) && s == TrimRight(s) + cut
  {
    if s != [] && IsSpace(s[|s| - 1]) {
      var init, last := s[..|s| - 1], [s[|s| - 1]];
      var rest := TrimRightCuts(init);
      SpacesJoin(rest, last);
      cut := rest + last;
      calc {
        s;
        init + last;
        (TrimRight(init) + rest) + last;
        TrimRight(s) + cut;
      }
    } else {
      cut := "";
    }
  }

  /** A trim cuts spaces off both ends, all of them, and nothing else. */
  lemma TrimSpaceCuts(s: string) returns (left: string, right: string)
    ensures s == left + TrimSpace(s) + right && AllSpaces(left) && AllSpaces(right) && Trimmed(TrimSpace(s))
  {
    left := TrimLeftCuts(s);
    right := TrimRightCuts(TrimLeft(s));
    TrimSpaceTrims(s);
  }

  /** strings.ReplaceAll(s, ":", "-") */
  function ColonsToDashes(s: string): string {
    seq(|s|, i requires 0 <= i < |s| => if s[i] == ':' then '-' else s[i])
  }

  /** strings.LastIndex(s, "/"), or -1. */
  function LastSlash(s: string): (i: int)
    ensures -1 <= i < |s|
    ensures i >= 0 ==> s[i] == '/'
    ensures forall j | i < j < |s| :: s[j] != '/'
  {
    if s == [] then -1
    else if s[|s| - 1] == '/' then |s| - 1
    else LastSlash(s[..|s| - 1])
  }

  /** Lower case changes the capital letters of ASCII text, and nothing else. */
  lemma ToLowerExactly(s: string, i: nat)
    requires i < |s| && s[i] < '\U{80}'
    ensures |ToLower(s)| == |s|
    ensures ToLower(s)[i] as int == if 65 <= s[i] as int <= 90 then s[i] as int + 32 else s[i] as int
  {
  }
}
