/** The tokenizer: `expression.split()`, Python's split on runs of whitespace
    with no separator argument. Leading and trailing whitespace is dropped and
    no empty token is produced. */
module Tokenizer {

  /** Python's `str.isspace()`, the characters `str.split()` separates on:
      U+0009..U+000D, U+001C..U+0020, U+0085, U+00A0, U+1680, U+2000..U+200A,
      U+2028, U+2029, U+202F, U+205F and U+3000. */
  predicate IsSpace(c: char) {
    || ('\t' <= c <= '\r')
    || ('\U{1C}' <= c <= ' ')
    || c == '\U{85}' || c == '\U{A0}' || c == '\U{1680}'
    || ('\U{2000}' <= c <= '\U{200A}')
    || c == '\U{2028}' || c == '\U{2029}' || c == '\U{202F}' || c == '\U{205F}'
    || c == '\U{3000}'
  }

  /** A token: non-empty and free of whitespace. */
  predicate IsWord(t: string) {
    |t| > 0 && forall i :: 0 <= i < |t| ==> !IsSpace(t[i])
  }

  predicate AllSpace(g: string) {
    forall i :: 0 <= i < |g| ==> IsSpace(g[i])
  }

  /** Length of the longest whitespace-free prefix of `s`. */
  function WordLength(s: string): (n: nat)
    ensures n <= |s|
    ensures forall i :: 0 <= i < n ==> !IsSpace(s[i])
    ensures n < |s| ==> IsSpace(s[n])
  {
    if s == [] || IsSpace(s[0]) then 0 else 1 + WordLength(s[1..])
  }

  /** `tokenize(expression)`, that is `expression.split()`. */
  function Tokenize(s: string): seq<string>
    decreases |s|
  {
    if s == [] then []
    else if IsSpace(s[0]) then Tokenize(s[1..])
    else
      var n := WordLength(s);
      [s[..n]] + Tokenize(s[n..])
  }

  /** Every token is a word: non-empty and free of whitespace. */
  lemma {:induction false} TokenizeWords(s: string)
    ensures forall i :: 0 <= i < |Tokenize(s)| ==> IsWord(Tokenize(s)[i])
    decreases |s|
  {
    if s != [] {
      if IsSpace(s[0]) {
        TokenizeWords(s[1..]);
      } else {
        var n := WordLength(s);
        TokenizeWords(s[n..]);
        var ts := Tokenize(s);
        assert ts[0] == s[..n];
        assert forall i :: 0 < i < |ts| ==> ts[i] == Tokenize(s[n..])[i - 1];
      }
    }
  }

  function Concat(ts: seq<string>): string {
    if ts == [] then [] else ts[0] + Concat(ts[1..])
  }

  function RemoveSpaces(s: string): string {
    if s == [] then [] else (if IsSpace(s[0]) then [] else [s[0]]) + RemoveSpaces(s[1..])
  }

  /** The tokens, joined in order, are the input with all whitespace removed. */
  lemma {:induction false} ConcatTokens(s: string)
    ensures Concat(Tokenize(s)) == RemoveSpaces(s)
  {
    if s != [] {
      if IsSpace(s[0]) {
        ConcatTokens(s[1..]);
      } else {
        var n := WordLength(s);
        ConcatTokens(s[n..]);
        RemoveSpacesOfWord(s, n);
      }
    }
  }

  lemma {:induction false} RemoveSpacesOfWord(s: string, n: nat)
    requires n <= |s| && forall i :: 0 <= i < n ==> !IsSpace(s[i])
    ensures RemoveSpaces(s) == s[..n] + RemoveSpaces(s[n..])
  {
    if n > 0 {
      RemoveSpacesOfWord(s[1..], n - 1);
      assert s[1..][n - 1..] == s[n..];
      assert s[..n] == [s[0]] + s[1..][..n - 1];
    }
  }

  /** The text made of `words` with `gaps[i]` before `words[i]` and the last
      gap after the last word. */
  function Interleave(gaps: seq<string>, words: seq<string>): string
    requires |gaps| == |words| + 1
  {
    if words == [] then gaps[0] else gaps[0] + words[0] + Interleave(gaps[1..], words[1..])
  }

  /** The gaps are whitespace, and the ones between two words are not empty. */
  predicate Separates(gaps: seq<string>, words: seq<string>) {
    && |gaps| == |words| + 1
    && (forall i :: 0 <= i < |gaps| ==> AllSpace(gaps[i]))
    && (forall i :: 0 < i < |words| ==> gaps[i] != [])
  }

  /** The whitespace runs of `s`, one more than there are tokens. */
  function Gaps(s: string): (gaps: seq<string>)
    ensures |gaps| == |Tokenize(s)| + 1
    ensures s != [] && IsSpace(s[0]) ==> gaps[0] != []
    decreases |s|
  {
    if s == [] then [[]]
    else if IsSpace(s[0]) then
      var g := Gaps(s[1..]);
      [[s[0]] + g[0]] + g[1..]
    else
      [[]] + Gaps(s[WordLength(s)..])
  }

  /** Every input is its tokens separated by whitespace runs. */
  lemma {:induction false} TokensAndGaps(s: string)
    ensures Separates(Gaps(s), Tokenize(s))
    ensures Interleave(Gaps(s), Tokenize(s)) == s
    decreases |s|
  {
    if s == [] {
    } else if IsSpace(s[0]) {
      TokensAndGaps(s[1..]);
      GapsAfterSpace(s);
    } else {
      TokensAndGaps(s[WordLength(s)..]);
      GapsAfterWord(s);
    }
  }

  lemma GapsAfterSpace(s: string)
    requires s != [] && IsSpace(s[0])
    requires Separates(Gaps(s[1..]), Tokenize(s[1..]))
    requires Interleave(Gaps(s[1..]), Tokenize(s[1..])) == s[1..]
    ensures Separates(Gaps(s), Tokenize(s))
    ensures Interleave(Gaps(s), Tokenize(s)) == s
  {
    var g, ts := Gaps(s[1..]), Tokenize(s[1..]);
    SeparatesWiderGap(s[0], g, ts);
    InterleaveWiderGap([s[0]], g, ts);
    SplitAt(s, 1);
    assert s[..1] == [s[0]];
  }

  lemma GapsAfterWord(s: string)
    requires s != [] && !IsSpace(s[0])
    requires Separates(Gaps(s[WordLength(s)..]), Tokenize(s[WordLength(s)..]))
    requires Interleave(Gaps(s[WordLength(s)..]), Tokenize(s[WordLength(s)..])) == s[WordLength(s)..]
    ensures Separates(Gaps(s), Tokenize(s))
    ensures Interleave(Gaps(s), Tokenize(s)) == s
  {
    var n := WordLength(s);
    WordUnfold(s);
    var g, ts := Gaps(s[n..]), Tokenize(s[n..]);
    NextGap(s[n..]);
    SeparatesAfterWord(s[..n], g, ts);
    InterleaveAfterWord(s[..n], g, ts);
    SplitAt(s, n);
  }

  lemma SplitAt(s: string, n: nat)
    requires n <= |s|
    ensures s[..n] + s[n..] == s
  {
  }

  lemma WordUnfold(s: string)
    requires s != [] && !IsSpace(s[0])
    ensures Gaps(s) == [[]] + Gaps(s[WordLength(s)..])
    ensures Tokenize(s) == [s[..WordLength(s)]] + Tokenize(s[WordLength(s)..])
    ensures WordLength(s) < |s| ==> IsSpace(s[WordLength(s)..][0])
  {
  }

  lemma NextGap(rest: string)
    requires rest != [] ==> IsSpace(rest[0])
    ensures Tokenize(rest) != [] ==> Gaps(rest)[0] != []
  {
  }

  lemma SeparatesWiderGap(c: char, g: seq<string>, ts: seq<string>)
    requires IsSpace(c) && Separates(g, ts)
    ensures Separates([[c] + g[0]] + g[1..], ts)
  {
    var gs := [[c] + g[0]] + g[1..];
    assert AllSpace(gs[0]) by {
      assert forall j :: 0 < j < |gs[0]| ==> gs[0][j] == g[0][j - 1];
    }
    assert forall i :: 0 < i < |gs| ==> gs[i] == g[i];
  }

  lemma SeparatesAfterWord(w: string, g: seq<string>, ts: seq<string>)
    requires Separates(g, ts) && (ts != [] ==> g[0] != [])
    ensures Separates([[]] + g, [w] + ts)
  {
    var gs := [[]] + g;
    assert forall i :: 0 < i < |gs| ==> gs[i] == g[i - 1];
  }

  lemma InterleaveAfterWord(w: string, g: seq<string>, ts: seq<string>)
    requires |g| == |ts| + 1
    ensures Interleave([[]] + g, [w] + ts) == w + Interleave(g, ts)
  {
    var gs, ws := [[]] + g, [w] + ts;
    assert gs[1..] == g && ws[1..] == ts;
    assert Interleave(gs, ws) == gs[0] + ws[0] + Interleave(g, ts);
    assert gs[0] + ws[0] == w;
  }

  lemma InterleaveWiderGap(c: string, g: seq<string>, ws: seq<string>)
    requires |g| == |ws| + 1
    ensures Interleave([c + g[0]] + g[1..], ws) == c + Interleave(g, ws)
  {
    var g' := [c + g[0]] + g[1..];
    assert g'[1..] == g[1..];
    if ws != [] {
      assert c + g[0] + ws[0] + Interleave(g[1..], ws[1..])
          == c + (g[0] + ws[0] + Interleave(g[1..], ws[1..]));
    }
  }

  /** Conversely, the tokens of words separated by whitespace runs are those
      words: `split()` recovers what whitespace around words hides. */
  lemma {:induction false} TokenizeInterleave(gaps: seq<string>, words: seq<string>)
    requires Separates(gaps, words)
    requires forall i :: 0 <= i < |words| ==> IsWord(words[i])
    ensures Tokenize(Interleave(gaps, words)) == words
  {
    if words == [] {
      SkipSpaces(gaps[0], []);
      assert gaps[0] + [] == gaps[0];
    } else {
      var rest := Interleave(gaps[1..], words[1..]);
      assert Interleave(gaps, words) == gaps[0] + (words[0] + rest);
      SkipSpaces(gaps[0], words[0] + rest);
      TailSeparates(gaps, words);
      LeadingGap(gaps[1..], words[1..]);
      TokenizeWord(words[0], rest);
      TokenizeInterleave(gaps[1..], words[1..]);
    }
  }

  lemma TailSeparates(gaps: seq<string>, words: seq<string>)
    requires Separates(gaps, words) && words != []
    ensures Separates(gaps[1..], words[1..])
    ensures words[1..] != [] ==> gaps[1] != []
  {
    assert forall i :: 0 < i < |words[1..]| ==> gaps[1..][i] == gaps[i + 1];
  }

  lemma LeadingGap(gaps: seq<string>, words: seq<string>)
    requires |gaps| == |words| + 1 && AllSpace(gaps[0])
    requires words != [] ==> gaps[0] != []
    ensures Interleave(gaps, words) != [] ==> IsSpace(Interleave(gaps, words)[0])
  {
    if words != [] {
      assert Interleave(gaps, words)[0] == gaps[0][0];
    }
  }

  lemma {:induction false} SkipSpaces(g: string, t: string)
    requires AllSpace(g)
    ensures Tokenize(g + t) == Tokenize(t)
  {
    if g == [] {
      assert g + t == t;
    } else {
      assert (g + t)[0] == g[0];
      assert (g + t)[1..] == g[1..] + t;
      SkipSpaces(g[1..], t);
    }
  }

  lemma TokenizeWord(w: string, t: string)
    requires IsWord(w)
    requires t != [] ==> IsSpace(t[0])
    ensures Tokenize(w + t) == [w] + Tokenize(t)
  {
    WordLengthOf(w, t);
    assert (w + t)[..|w|] == w;
    assert (w + t)[|w|..] == t;
  }

  lemma {:induction false} WordLengthOf(w: string, t: string)
    requires forall i :: 0 <= i < |w| ==> !IsSpace(w[i])
    requires t != [] ==> IsSpace(t[0])
    ensures WordLength(w + t) == |w|
  {
    if w != [] {
      assert (w + t)[1..] == w[1..] + t;
      WordLengthOf(w[1..], t);
    }
  }

  /** `"3 4 add".split() == ["3", "4", "add"]`. */
  lemma SplitExample()
    ensures Tokenize("3 4 add") == ["3", "4", "add"]
  {
    var gaps := ["", " ", " ", ""];
    assert Interleave(gaps, ["3", "4", "add"]) == "3 4 add";
    TokenizeInterleave(gaps, ["3", "4", "add"]);
  }
}
