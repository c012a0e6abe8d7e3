/** `Calculator.tokenize`: splitting the input on the regular expression
    [\s,\(\)]+ with Java's String.split, after two blank-input checks. */
module Tokenizer {
  import opened Wrappers

  /** A character of the class [\s,\(\)]: Java's \s is space, tab, newline,
      vertical tab, form feed and carriage return. */
  predicate IsDelimiter(c: char) {
    c == ' ' || c == '\t' || c == '\n' || c == '\U{B}' || c == '\U{C}' || c == '\r'
    || c == ',' || c == '(' || c == ')'
  }

  predicate DelimiterFree(s: string) {
    forall i :: 0 <= i < |s| ==> !IsDelimiter(s[i])
  }

  predicate AllDelimiters(s: string) {
    forall i :: 0 <= i < |s| ==> IsDelimiter(s[i])
  }

  /** String.trim() removes every leading and trailing character up to
      U+0020, so the trimmed string is empty exactly when all are. */
  predicate IsBlank(s: string) {
    forall i :: 0 <= i < |s| ==> s[i] <= ' '
  }

  /** Length of the longest delimiter-free prefix. */
  function TokenEnd(s: string): (k: nat)
    ensures k <= |s|
    ensures DelimiterFree(s[..k])
    ensures k < |s| ==> IsDelimiter(s[k])
  {
    if |s| == 0 || IsDelimiter(s[0]) then 0
    else
      var k := 1 + TokenEnd(s[1..]);
      assert s[..k] == [s[0]] + s[1..][..k - 1];
      k
  }

  /** Length of the longest prefix made of delimiters only. */
  function GapEnd(s: string): (k: nat)
    ensures k <= |s|
    ensures AllDelimiters(s[..k])
    ensures k < |s| ==> !IsDelimiter(s[k])
  {
    if |s| == 0 || !IsDelimiter(s[0]) then 0
    else
      var k := 1 + GapEnd(s[1..]);
      assert s[..k] == [s[0]] + s[1..][..k - 1];
      k
  }

  /** The substrings between the matches of [\s,\(\)]+, as String.split
      collects them before dropping trailing empty strings: the first piece
      is empty when the input starts with a delimiter, the last when it ends
      with one, and every piece in between is non-empty. */
  function Pieces(s: string): (ps: seq<string>)
    ensures |ps| > 0
    decreases |s|
  {
    var k := TokenEnd(s);
    if k == |s| then [s]
    else
      var g := GapEnd(s[k..]);
      [s[..k]] + Pieces(s[k..][g..])
  }

  /** String.split with limit 0 removes all trailing empty strings. */
  function StripTrailingEmpty(ps: seq<string>): (r: seq<string>)
    ensures |r| <= |ps| && r == ps[..|r|]
    ensures |r| > 0 ==> r[|r| - 1] != ""
    ensures forall i :: |r| <= i < |ps| ==> ps[i] == ""
  {
    if |ps| > 0 && ps[|ps| - 1] == "" then
      var r := StripTrailingEmpty(ps[..|ps| - 1]);
      r
    else ps
  }

  /** String.split(regex) with limit 0. When the pattern never matches,
      Java returns the input itself, untouched even when it is empty;
      otherwise the pieces, trailing empty ones removed. The result is
      [""] for the empty input, and for any other input the maximal
      delimiter-free runs, after one empty piece exactly when the input
      starts with a delimiter and is not all delimiters. */
  function Split(s: string): (ps: seq<string>)
    ensures s == "" ==> ps == [""]
    ensures s != "" ==> ps == LeadingEmpty(s) + Words(s)
  {
    if DelimiterFree(s) then
      SplitIsLeadingEmptyAndWords(s);
      [s]
    else
      SplitIsLeadingEmptyAndWords(s);
      StripTrailingEmpty(Pieces(s))
  }

  /** The one empty token String.split keeps: the piece before a delimiter
      run at the very start of an input that is not all delimiters. */
  function LeadingEmpty(s: string): seq<string> {
    if |s| > 0 && IsDelimiter(s[0]) && !AllDelimiters(s) then [""] else []
  }

  /** `tokenize`: no tokens for null or trim()-blank input; otherwise the
      maximal delimiter-free runs of the input, preceded by one empty token
      when the input starts with a delimiter. */
  function Tokenize(input: Option<string>): (tokens: seq<string>)
    ensures input.None? ==> tokens == []
    ensures input.Some? && IsBlank(input.value) ==> tokens == []
    ensures input.Some? && !IsBlank(input.value) ==>
      tokens == LeadingEmpty(input.value) + Words(input.value)
    ensures input.Some? && AllDelimiters(input.value) ==> tokens == []
    ensures forall i :: 0 <= i < |tokens| ==> DelimiterFree(tokens[i])
    ensures forall i :: 0 < i < |tokens| ==> tokens[i] != ""
  {
    match input
    case None => []
    case Some(s) =>
      if IsBlank(s) then []
      else
        WordsEmptyIff(s);
        Split(s)
  }

  /** Reference definition of the words of a string: its maximal
      delimiter-free runs, from left to right. */
  function Words(s: string): (ws: seq<string>)
    ensures forall i :: 0 <= i < |ws| ==> ws[i] != "" && DelimiterFree(ws[i])
    decreases |s|
  {
    if |s| == 0 then []
    else if IsDelimiter(s[0]) then Words(s[1..])
    else
      var k := TokenEnd(s);
      [s[..k]] + Words(s[k..])
  }

  /** The tokens joined with one space between each two. */
  function Join(ts: seq<string>): string {
    if |ts| == 0 then ""
    else if |ts| == 1 then ts[0]
    else ts[0] + " " + Join(ts[1..])
  }

  /** The concatenation of a sequence of strings. */
  function Concat(ts: seq<string>): string {
    if |ts| == 0 then "" else ts[0] + Concat(ts[1..])
  }

  /** The characters of a string that are not delimiters, in order. */
  function WithoutDelimiters(s: string): string {
    if |s| == 0 then ""
    else if IsDelimiter(s[0]) then WithoutDelimiters(s[1..])
    else [s[0]] + WithoutDelimiters(s[1..])
  }

  /** Skipping leading delimiters does not change the words. */
  lemma {:induction false} WordsSkipGap(s: string)
    ensures Words(s) == Words(s[GapEnd(s)..])
    decreases |s|
  {
    if |s| > 0 && IsDelimiter(s[0]) {
      WordsSkipGap(s[1..]);
      assert s[GapEnd(s)..] == s[1..][GapEnd(s[1..])..];
    }
  }

  /** Stripping trailing empties from a sequence with one more piece in front. */
  lemma {:induction false} StripTrailingEmptyCons(w: string, ps: seq<string>)
    ensures StripTrailingEmpty([w] + ps) ==
      if w == "" && StripTrailingEmpty(ps) == [] then [] else [w] + StripTrailingEmpty(ps)
    decreases |ps|
  {
    if |ps| > 0 && ps[|ps| - 1] == "" {
      assert ([w] + ps)[..|ps|] == [w] + ps[..|ps| - 1];
      StripTrailingEmptyCons(w, ps[..|ps| - 1]);
    } else if |ps| == 0 {
      assert [w] + ps == [w];
      assert [w][..0] == [];
    }
  }

  /** On an input that does not start with a delimiter, String.split yields
      exactly the words. */
  lemma {:induction false} SplitFromWordStart(s: string)
    requires |s| == 0 || !IsDelimiter(s[0])
    ensures StripTrailingEmpty(Pieces(s)) == Words(s)
    decreases |s|
  {
    var k := TokenEnd(s);
    if k == |s| {
      assert s[..k] == s && s[k..] == "";
      assert [s][..0] == [];
    } else {
      var g := GapEnd(s[k..]);
      var t := s[k..][g..];
      SplitFromWordStart(t);
      StripTrailingEmptyCons(s[..k], Pieces(t));
      WordsSkipGap(s[k..]);
    }
  }

  /** A string has no words exactly when it is all delimiters. */
  lemma {:induction false} WordsEmptyIff(s: string)
    ensures Words(s) == [] <==> AllDelimiters(s)
    decreases |s|
  {
    if |s| > 0 && IsDelimiter(s[0]) {
      WordsEmptyIff(s[1..]);
      if AllDelimiters(s[1..]) {
        assert forall i :: 1 <= i < |s| ==> s[i] == s[1..][i - 1];
      }
    }
  }

  /** The pieces of any input with trailing empty ones removed: the words,
      after one empty piece when the input starts with a delimiter and has
      a word. */
  lemma SplitIsLeadingEmptyAndWords(s: string)
    ensures StripTrailingEmpty(Pieces(s)) == LeadingEmpty(s) + Words(s)
  {
    WordsEmptyIff(s);
    if |s| > 0 && IsDelimiter(s[0]) {
      var g := GapEnd(s);
      assert TokenEnd(s) == 0 && s[0..] == s && s[..0] == "";
      SplitFromWordStart(s[g..]);
      WordsSkipGap(s);
      StripTrailingEmptyCons("", Pieces(s[g..]));
    } else {
      SplitFromWordStart(s);
    }
  }

  /** The token of a string that starts with a word ends where the word does. */
  lemma {:induction false} TokenEndOfWord(w: string, rest: string)
    requires DelimiterFree(w)
    requires |rest| == 0 || IsDelimiter(rest[0])
    ensures TokenEnd(w + rest) == |w|
    decreases |w|
  {
    if |w| > 0 {
      assert (w + rest)[1..] == w[1..] + rest;
      TokenEndOfWord(w[1..], rest);
    } else {
      assert w + rest == rest;
    }
  }

  /** Words separated by single spaces split back into the same words. */
  lemma {:induction false} WordsOfJoin(ts: seq<string>)
    requires forall i :: 0 <= i < |ts| ==> ts[i] != "" && DelimiterFree(ts[i])
    ensures Words(Join(ts)) == ts
    decreases |ts|
  {
    if |ts| == 1 {
      TokenEndOfWord(ts[0], "");
      assert ts[0] + "" == ts[0];
      assert ts[0][|ts[0]|..] == "";
    } else if |ts| > 1 {
      var rest := " " + Join(ts[1..]);
      var s := ts[0] + rest;
      assert Join(ts) == s;
      TokenEndOfWord(ts[0], rest);
      assert s[..|ts[0]|] == ts[0] && s[|ts[0]|..] == rest;
      assert rest[1..] == Join(ts[1..]);
      WordsOfJoin(ts[1..]);
    }
  }

  /** Printing tokens with single spaces and tokenizing the text gives the
      tokens back, unless the text is blank (all its characters are control
      characters), which tokenizes to nothing. */
  lemma TokenizeJoin(ts: seq<string>)
    requires forall i :: 0 <= i < |ts| ==> ts[i] != "" && DelimiterFree(ts[i])
    ensures Tokenize(Some(Join(ts))) == if IsBlank(Join(ts)) then [] else ts
  {
    WordsOfJoin(ts);
    if |ts| > 0 {
      JoinStartsWithFirst(ts);
    }
  }

  lemma {:induction false} JoinStartsWithFirst(ts: seq<string>)
    requires |ts| > 0 && ts[0] != ""
    ensures |Join(ts)| > 0 && Join(ts)[0] == ts[0][0]
  {
  }

  lemma {:induction false} WithoutDelimitersAppend(a: string, b: string)
    ensures WithoutDelimiters(a + b) == WithoutDelimiters(a) + WithoutDelimiters(b)
    decreases |a|
  {
    if |a| == 0 {
      assert a + b == b;
    } else {
      assert (a + b)[1..] == a[1..] + b;
      WithoutDelimitersAppend(a[1..], b);
    }
  }

  lemma {:induction false} WithoutDelimitersOfWord(w: string)
    requires DelimiterFree(w)
    ensures WithoutDelimiters(w) == w
    decreases |w|
  {
    if |w| > 0 {
      WithoutDelimitersOfWord(w[1..]);
      assert w == [w[0]] + w[1..];
    }
  }

  /** The words hold every non-delimiter character of the input, in order,
      and nothing else. */
  lemma {:induction false} WordsKeepAllOtherCharacters(s: string)
    ensures Concat(Words(s)) == WithoutDelimiters(s)
    decreases |s|
  {
    if |s| > 0 {
      if IsDelimiter(s[0]) {
        WordsKeepAllOtherCharacters(s[1..]);
      } else {
        var k := TokenEnd(s);
        WordsKeepAllOtherCharacters(s[k..]);
        assert s == s[..k] + s[k..];
        WithoutDelimitersAppend(s[..k], s[k..]);
        WithoutDelimitersOfWord(s[..k]);
        var ws := Words(s);
        assert ws[0] == s[..k] && ws[1..] == Words(s[k..]);
      }
    }
  }

  /** Input that starts with a delimiter, is not blank and is not all
      delimiters yields an empty first token, contrary to "Empty strings are
      not tokens". */
  lemma LeadingDelimiterGivesEmptyToken(s: string)
    requires |s| > 0 && IsDelimiter(s[0]) && !IsBlank(s) && !AllDelimiters(s)
    ensures |Tokenize(Some(s))| > 0 && Tokenize(Some(s))[0] == ""
  {
    WordsEmptyIff(s);
  }

  /** Every token except possibly the first is a maximal word, and the first
      is empty exactly when the input starts with a delimiter. */
  lemma FirstTokenEmptyIff(s: string)
    requires !IsBlank(s)
    ensures |Tokenize(Some(s))| > 0 ==> (Tokenize(Some(s))[0] == "" <==> IsDelimiter(s[0]))
  {
    WordsEmptyIff(s);
  }

  /** Delimiters in front of a string do not change its words. */
  lemma {:induction false} WordsAfterDelimiters(d: string, rest: string)
    requires AllDelimiters(d)
    ensures Words(d + rest) == Words(rest)
    decreases |d|
  {
    if |d| > 0 {
      assert (d + rest)[1..] == d[1..] + rest;
      WordsAfterDelimiters(d[1..], rest);
    } else {
      assert d + rest == rest;
    }
  }

  /** A word followed by delimiters is the first word of the text. */
  lemma WordsCons(w: string, d: string, rest: string)
    requires w != "" && DelimiterFree(w) && AllDelimiters(d)
    requires |d| > 0 || rest == ""
    ensures Words(w + d + rest) == [w] + Words(rest)
  {
    TokenEndOfWord(w, d + rest);
    assert w + d + rest == w + (d + rest);
    var s := w + (d + rest);
    assert s[..|w|] == w && s[|w|..] == d + rest;
    WordsAfterDelimiters(d, rest);
  }

  /** Text that starts with a visible word character tokenizes to its words. */
  lemma TokenizeFromWord(s: string)
    requires |s| > 0 && !IsDelimiter(s[0]) && s[0] > ' '
    ensures Tokenize(Some(s)) == Words(s)
  {
  }
}
