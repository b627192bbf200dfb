/** The few operations on Python `str` that the heuristics rely on, restricted
    to ASCII: whitespace, lower-casing, `strip`, `split()` and `in`. */
module Text {

  /** The ASCII characters for which Python's `str.isspace()` holds: the
      controls \t \n \v \f \r, the four separators \x1c-\x1f, and the space. */
  const Whitespace: set<char> :=
    {' ', '\t', '\n', '\U{B}', '\U{C}', '\r', '\U{1C}', '\U{1D}', '\U{1E}', '\U{1F}'}

  predicate IsSpace(c: char) {
    c in Whitespace
  }

  predicate IsUpper(c: char) {
    'A' <= c <= 'Z'
  }

  /** ASCII `lower()` of one character. */
  function LowerChar(c: char): (d: char)
    ensures !IsUpper(d)
    ensures !IsUpper(c) ==> d == c
  {
    if IsUpper(c) then (c as int + 32) as char else c
  }

  /** ASCII `str.lower()`. */
  function Lower(s: string): (r: string)
    ensures |r| == |s|
    ensures forall i :: 0 <= i < |s| ==> r[i] == LowerChar(s[i])
  {
    seq(|s|, i requires 0 <= i < |s| => LowerChar(s[i]))
  }

  lemma LowerIdempotent(s: string)
    ensures Lower(Lower(s)) == Lower(s)
  {
  }

  /** Number of leading characters of `s` that belong to `chars`. */
  function LeadingIn(s: string, chars: set<char>): (n: nat)
    ensures n <= |s|
    ensures forall k :: 0 <= k < n ==> s[k] in chars
    ensures n < |s| ==> s[n] !in chars
    decreases |s|
  {
    if s == [] || s[0] !in chars then 0 else 1 + LeadingIn(s[1..], chars)
  }

  /** Number of trailing characters of `s` that belong to `chars`. */
  function TrailingIn(s: string, chars: set<char>): (n: nat)
    ensures n <= |s|
    ensures forall k :: |s| - n <= k < |s| ==> s[k] in chars
    ensures n < |s| ==> s[|s| - 1 - n] !in chars
    decreases |s|
  {
    if s == [] || s[|s| - 1] !in chars then 0 else 1 + TrailingIn(s[..|s| - 1], chars)
  }

  /** Python's `s.strip(chars)`: the longest infix of `s` obtained by removing
      characters of `chars` from both ends. */
  function Strip(s: string, chars: set<char>): (r: string)
    ensures |r| <= |s|
    ensures r != [] ==> r[0] !in chars && r[|r| - 1] !in chars
    ensures exists i :: OccursAt(s, r, i)
                        && (forall k :: 0 <= k < i ==> s[k] in chars)
                        && (forall k :: i + |r| <= k < |s| ==> s[k] in chars)
  {
    var i := LeadingIn(s, chars);
    var n := TrailingIn(s[i..], chars);
    StripInfix(s, chars, i, n);
    s[i..|s| - n]
  }

  /** The infix left once the leading and trailing runs are removed. */
  lemma StripInfix(s: string, chars: set<char>, i: nat, n: nat)
    requires i == LeadingIn(s, chars) && n == TrailingIn(s[i..], chars)
    ensures i <= |s| - n
    ensures var r := s[i..|s| - n];
            && (r != [] ==> r[0] !in chars && r[|r| - 1] !in chars)
            && OccursAt(s, r, i)
            && (forall k :: 0 <= k < i ==> s[k] in chars)
            && (forall k :: i + |r| <= k < |s| ==> s[k] in chars)
  {
    var t := s[i..];
    forall k | |s| - n <= k < |s|
      ensures s[k] in chars
    {
      assert s[k] == t[k - i];
    }
    if i < |s| - n {
      assert s[|s| - n - 1] == t[|t| - 1 - n];
    }
  }

  /** Length of the run of non-whitespace characters at the start of `s`. */
  function TokenLength(s: string): (n: nat)
    ensures n <= |s|
    ensures forall k :: 0 <= k < n ==> !IsSpace(s[k])
    ensures n < |s| ==> IsSpace(s[n])
    decreases |s|
  {
    if s == [] || IsSpace(s[0]) then 0 else 1 + TokenLength(s[1..])
  }

  /** A word as `split()` returns it: non-empty and free of whitespace. */
  predicate IsWord(w: string) {
    w != [] && forall k :: 0 <= k < |w| ==> !IsSpace(w[k])
  }

  /** Python's `s.split()` with no separator: the maximal runs of
      non-whitespace characters of `s`, in order. */
  function Split(s: string): (words: seq<string>)
    ensures forall i :: 0 <= i < |words| ==> IsWord(words[i])
    decreases |s|
  {
    if s == [] then []
    else if IsSpace(s[0]) then Split(s[1..])
    else
      var n := TokenLength(s);
      [s[..n]] + Split(s[n..])
  }

  /** `pattern` occurs in `text` starting at index `i`. */
  predicate OccursAt(text: string, pattern: string, i: int) {
    0 <= i <= |text| - |pattern| && text[i..i + |pattern|] == pattern
  }

  /** Python's `pattern in text` on strings. */
  predicate Contains(text: string, pattern: string) {
    exists i | 0 <= i <= |text| - |pattern| :: OccursAt(text, pattern, i)
  }

  /** `" ".join(words)`. */
  function JoinWords(words: seq<string>): string
    decreases |words|
  {
    if words == [] then ""
    else if |words| == 1 then words[0]
    else words[0] + " " + JoinWords(words[1..])
  }

  lemma {:induction false} TokenLengthOfWord(w: string, rest: string)
    requires IsWord(w)
    requires rest == [] || IsSpace(rest[0])
    ensures TokenLength(w + rest) == |w|
    decreases |w|
  {
    var s := w + rest;
    assert s[0] == w[0];
    if |w| > 1 {
      assert s[1..] == w[1..] + rest;
      TokenLengthOfWord(w[1..], rest);
    } else {
      assert s[1..] == rest;
    }
  }

  lemma {:induction false} SplitWordThen(w: string, rest: string)
    requires IsWord(w)
    requires rest == [] || IsSpace(rest[0])
    ensures Split(w + rest) == [w] + Split(rest)
  {
    TokenLengthOfWord(w, rest);
    var s := w + rest;
    assert s[..|w|] == w;
    assert s[|w|..] == rest;
  }

  /** Splitting a space-joined list of words gives the words back. */
  lemma {:induction false} SplitJoinWords(words: seq<string>)
    requires forall i :: 0 <= i < |words| ==> IsWord(words[i])
    ensures Split(JoinWords(words)) == words
    decreases |words|
  {
    if words == [] {
    } else if |words| == 1 {
      SplitWordThen(words[0], "");
      assert words[0] + "" == words[0];
    } else {
      var rest := JoinWords(words[1..]);
      SplitWordThen(words[0], " " + rest);
      assert words[0] + " " + rest == words[0] + (" " + rest);
      assert (" " + rest)[1..] == rest;
      SplitJoinWords(words[1..]);
    }
  }

  /** A text made only of whitespace splits into no words. */
  lemma {:induction false} SplitBlank(s: string)
    requires forall k :: 0 <= k < |s| ==> IsSpace(s[k])
    ensures Split(s) == []
    decreases |s|
  {
    if s != [] {
      SplitBlank(s[1..]);
    }
  }

  lemma ContainsAt(text: string, pattern: string, i: int)
    requires OccursAt(text, pattern, i)
    ensures Contains(text, pattern)
  {
  }

  lemma ContainsTransitive(text: string, middle: string, pattern: string)
    requires Contains(text, middle) && Contains(middle, pattern)
    ensures Contains(text, pattern)
  {
    var i :| 0 <= i <= |text| - |middle| && OccursAt(text, middle, i);
    var j :| 0 <= j <= |middle| - |pattern| && OccursAt(middle, pattern, j);
    forall k | 0 <= k < |pattern|
      ensures text[i + j + k] == pattern[k]
    {
      assert text[i..i + |middle|][j + k] == middle[j + k];
      assert middle[j..j + |pattern|][k] == pattern[k];
    }
    assert text[i + j..i + j + |pattern|] == pattern;
    ContainsAt(text, pattern, i + j);
  }

  /** Every word `split()` returns occurs in the text it came from. */
  lemma {:induction false} SplitWordsOccur(s: string)
    ensures forall i :: 0 <= i < |Split(s)| ==> Contains(s, Split(s)[i])
    decreases |s|
  {
    if s == [] {
    } else if IsSpace(s[0]) {
      SplitWordsOccur(s[1..]);
      assert Split(s) == Split(s[1..]);
      forall i | 0 <= i < |Split(s)|
        ensures Contains(s, Split(s)[i])
      {
        ContainsAt(s, s[1..], 1);
        ContainsTransitive(s, s[1..], Split(s)[i]);
      }
    } else {
      var n := TokenLength(s);
      SplitWordsOccur(s[n..]);
      forall i | 0 <= i < |Split(s)|
        ensures Contains(s, Split(s)[i])
      {
        if i == 0 {
          ContainsAt(s, s[..n], 0);
        } else {
          assert Split(s)[i] == Split(s[n..])[i - 1];
          ContainsAt(s, s[n..], n);
          ContainsTransitive(s, s[n..], Split(s)[i]);
        }
      }
    }
  }

  /** Splitting two texts joined by any whitespace character splits each of them. */
  lemma {:induction false} SplitConcatSpace(a: string, c: char, b: string)
    requires IsSpace(c)
    ensures Split(a + [c] + b) == Split(a) + Split(b)
    decreases |a|
  {
    var s := a + [c] + b;
    if a == [] {
      assert s == [c] + b;
      assert s[1..] == b;
    } else if IsSpace(a[0]) {
      assert s[1..] == a[1..] + [c] + b;
      SplitConcatSpace(a[1..], c, b);
    } else {
      var n := TokenLength(a);
      TokenLengthPrefix(a, [c] + b);
      assert s == a + ([c] + b);
      assert s[..n] == a[..n];
      assert s[n..] == a[n..] + [c] + b;
      SplitConcatSpace(a[n..], c, b);
    }
  }

  /** The first token of `a + rest` is the first token of `a` when `rest`
      starts with whitespace. */
  lemma {:induction false} TokenLengthPrefix(a: string, rest: string)
    requires rest != [] && IsSpace(rest[0])
    ensures TokenLength(a + rest) == TokenLength(a)
    decreases |a|
  {
    var s := a + rest;
    if a == [] {
      assert s == rest;
    } else {
      assert s[0] == a[0];
      if !IsSpace(a[0]) {
        assert s[1..] == a[1..] + rest;
        TokenLengthPrefix(a[1..], rest);
      }
    }
  }

  // ---------------------------------------------------------------------------
  // Lower-casing commutes with the other operations

  lemma LowerSlice(s: string, i: nat, j: nat)
    requires i <= j <= |s|
    ensures Lower(s)[i..j] == Lower(s[i..j])
  {
  }

  /** Lower-casing neither adds nor removes members of `chars`. */
  predicate CaseBlind(chars: set<char>) {
    forall c :: LowerChar(c) in chars <==> c in chars
  }

  lemma {:induction false} LeadingInLower(s: string, chars: set<char>)
    requires CaseBlind(chars)
    ensures LeadingIn(Lower(s), chars) == LeadingIn(s, chars)
    decreases |s|
  {
    if s != [] {
      LowerSlice(s, 1, |s|);
      LeadingInLower(s[1..], chars);
    }
  }

  lemma {:induction false} TrailingInLower(s: string, chars: set<char>)
    requires CaseBlind(chars)
    ensures TrailingIn(Lower(s), chars) == TrailingIn(s, chars)
    decreases |s|
  {
    if s != [] {
      LowerSlice(s, 0, |s| - 1);
      TrailingInLower(s[..|s| - 1], chars);
    }
  }

  /** Stripping a case-blind set of characters commutes with lower-casing. */
  lemma StripLower(s: string, chars: set<char>)
    requires CaseBlind(chars)
    ensures Strip(Lower(s), chars) == Lower(Strip(s, chars))
  {
    var t := Lower(s);
    var i := LeadingIn(s, chars);
    var n := TrailingIn(s[i..], chars);
    LeadingInLower(s, chars);
    LowerSlice(s, i, |s|);
    TrailingInLower(s[i..], chars);
    StripInfix(s, chars, i, n);
    StripIsInfix(t, chars, i, n);
    StripIsInfix(s, chars, i, n);
    LowerSlice(s, i, |s| - n);
  }

  /** `Strip` in terms of the two runs it removes. */
  lemma StripIsInfix(s: string, chars: set<char>, i: nat, n: nat)
    requires i == LeadingIn(s, chars) && n == TrailingIn(s[i..], chars)
    ensures i <= |s| - n && Strip(s, chars) == s[i..|s| - n]
  {
  }

  lemma LowerKeepsSpace(c: char)
    ensures IsSpace(LowerChar(c)) <==> IsSpace(c)
  {
  }

  lemma {:induction false} TokenLengthLower(s: string)
    ensures TokenLength(Lower(s)) == TokenLength(s)
    decreases |s|
  {
    if s != [] {
      LowerSlice(s, 1, |s|);
      TokenLengthLower(s[1..]);
    }
  }

  /** Lower-casing a text lower-cases each of its words and changes nothing
      else about `split()`. */
  lemma {:induction false} SplitLower(s: string)
    ensures |Split(Lower(s))| == |Split(s)|
    ensures forall i :: 0 <= i < |Split(s)| ==> Split(Lower(s))[i] == Lower(Split(s)[i])
    decreases |s|
  {
    if s != [] {
      var t := Lower(s);
      LowerKeepsSpace(s[0]);
      if IsSpace(s[0]) {
        LowerSlice(s, 1, |s|);
        SplitLower(s[1..]);
        assert t[0] == LowerChar(s[0]) && t[1..] == Lower(s[1..]);
        assert Split(t) == Split(t[1..]);
        assert Split(s) == Split(s[1..]);
      } else {
        var n := TokenLength(s);
        TokenLengthLower(s);
        LowerSlice(s, 0, n);
        LowerSlice(s, n, |s|);
        SplitLower(s[n..]);
        assert t[0] == LowerChar(s[0]);
        assert Split(t) == [t[..n]] + Split(t[n..]);
        assert Split(s) == [s[..n]] + Split(s[n..]);
        assert t[n..] == Lower(s[n..]) && t[..n] == Lower(s[..n]);
        forall i | 0 <= i < |Split(s)|
          ensures Split(t)[i] == Lower(Split(s)[i])
        {
          if i > 0 {
            assert Split(t)[i] == Split(t[n..])[i - 1];
            assert Split(s)[i] == Split(s[n..])[i - 1];
          }
        }
      }
    }
  }
}
