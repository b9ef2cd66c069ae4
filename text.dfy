/** Text primitives the pipelines rely on: Rust's `split_ascii_whitespace`
    and `join`, over text as a sequence of characters. */
module Text {

  /** The five ASCII whitespace characters: space, tab, line feed, form feed
      and carriage return (not the vertical tab). */
  predicate IsAsciiWhitespace(c: char)
  {
    c == ' ' || c == '\t' || c == '\n' || c == '\U{000C}' || c == '\r'
  }

  /** A word as splitting yields it: non-empty and free of whitespace. */
  predicate IsWord(w: string)
  {
    |w| > 0 && forall i :: 0 <= i < |w| ==> !IsAsciiWhitespace(w[i])
  }

  /** Every character of `g` is whitespace; `g` may be empty. */
  predicate AllWhitespace(g: string)
  {
    forall i :: 0 <= i < |g| ==> IsAsciiWhitespace(g[i])
  }

  /** `seps[0] + words[0] + seps[1] + ... + words[n - 1] + seps[n]`. */
  function Interleave(seps: seq<string>, words: seq<string>): string
    requires |seps| == |words| + 1
  {
    if words == [] then seps[0] else seps[0] + words[0] + Interleave(seps[1..], words[1..])
  }

  /** `s` is `words` laid out between runs of whitespace: the leading and
      trailing runs may be empty, a run between two words may not. */
  predicate SeparatedBy(s: string, words: seq<string>, seps: seq<string>)
  {
    && |seps| == |words| + 1
    && (forall i :: 0 <= i < |seps| ==> AllWhitespace(seps[i]))
    && (forall i :: 0 < i < |words| ==> seps[i] != [])
    && s == Interleave(seps, words)
  }

  /** Extending the first run of a layout extends the text at the front. */
  lemma InterleavePrepend(c: string, seps: seq<string>, words: seq<string>)
    requires |seps| == |words| + 1
    ensures Interleave([c + seps[0]] + seps[1..], words) == c + Interleave(seps, words)
  {
    var seps' := [c + seps[0]] + seps[1..];
    assert seps'[1..] == seps[1..];
  }

  /** A laid-out text starts with its first run, or with its first word
      when that run is empty. */
  lemma InterleaveHead(seps: seq<string>, words: seq<string>)
    requires |seps| == |words| + 1 && words != [] && IsWord(words[0])
    ensures |Interleave(seps, words)| > 0
    ensures Interleave(seps, words)[0] == if seps[0] == [] then words[0][0] else seps[0][0]
  {
  }

  /** The characters of `s` that are not whitespace, in order. */
  function RemoveWhitespace(s: string): string
  {
    if s == [] then []
    else (if IsAsciiWhitespace(s[0]) then [] else [s[0]]) + RemoveWhitespace(s[1..])
  }

  /** The words one after another, with nothing in between. */
  function Concat(words: seq<string>): string
  {
    if words == [] then [] else words[0] + Concat(words[1..])
  }

  /** The longest whitespace-free prefix of `s`. It ends at the end of `s`
      or just before a whitespace character, and it holds every non-space
      character up to there. */
  function LeadingWord(s: string): (w: string)
    ensures w <= s
    ensures forall i :: 0 <= i < |w| ==> !IsAsciiWhitespace(w[i])
    ensures |w| == |s| || IsAsciiWhitespace(s[|w|])
    ensures RemoveWhitespace(s) == w + RemoveWhitespace(s[|w|..])
  {
    if s == [] || IsAsciiWhitespace(s[0]) then []
    else
      var w' := LeadingWord(s[1..]);
      assert s[1..][|w'|..] == s[|w'| + 1..];
      [s[0]] + w'
  }

  /** `split_ascii_whitespace`: the maximal whitespace-free runs of `s`, in
      order. Every piece is a word, and together they hold exactly the
      non-whitespace characters of `s`, in order; `SplitSeparated` shows
      that no piece could be longer or cut shorter. */
  function SplitAsciiWhitespace(s: string): (words: seq<string>)
    ensures forall i :: 0 <= i < |words| ==> IsWord(words[i])
    ensures Concat(words) == RemoveWhitespace(s)
    decreases |s|
  {
    if s == [] then []
    else if IsAsciiWhitespace(s[0]) then SplitAsciiWhitespace(s[1..])
    else
      var w := LeadingWord(s);
      var rest := SplitAsciiWhitespace(s[|w|..]);
      assert ([w] + rest)[1..] == rest;
      [w] + rest
  }

  /** The runs of a join of `n` words: nothing before the first word, `sep`
      between consecutive words, nothing after the last. */
  function JoinSeparators(n: nat, sep: string): (seps: seq<string>)
    requires n > 0
    ensures |seps| == n + 1
  {
    [[]] + Repeat(sep, n - 1) + [[]]
  }

  /** `n` copies of `sep`. */
  function Repeat(sep: string, n: nat): (r: seq<string>)
    ensures |r| == n
  {
    if n == 0 then [] else [sep] + Repeat(sep, n - 1)
  }

  /** `join`: the words with `sep` between consecutive ones and nothing
      around them; empty for no words. It starts with the first word and
      ends with the last; `JoinLayout` states the whole layout. */
  function Join(words: seq<string>, sep: string): string
  {
    if |words| == 0 then []
    else if |words| == 1 then words[0]
    else words[0] + sep + Join(words[1..], sep)
  }

  /** A join is its words laid out with nothing before the first, `sep`
      between consecutive ones and nothing after the last. */
  lemma {:induction false} JoinLayout(words: seq<string>, sep: string)
    requires |words| > 0
    ensures Join(words, sep) == Interleave(JoinSeparators(|words|, sep), words)
  {
    var seps := JoinSeparators(|words|, sep);
    if |words| == 1 {
      assert seps == [[], []];
      assert Interleave(seps, words) == [] + words[0] + Interleave([[]], []);
    } else {
      var rest := JoinSeparators(|words| - 1, sep);
      assert seps[1..] == Repeat(sep, |words| - 1) + [[]];
      assert Repeat(sep, |words| - 1) == [sep] + Repeat(sep, |words| - 2);
      assert rest[0] == [] && sep + rest[0] == sep;
      assert rest[1..] == Repeat(sep, |words| - 2) + [[]];
      assert seps[1..] == [sep + rest[0]] + rest[1..];
      JoinLayout(words[1..], sep);
      InterleavePrepend(sep, rest, words[1..]);
    }
  }

  /** A word followed by nothing or by whitespace is read off as the first
      piece. */
  lemma {:induction false} LeadingWordOfWord(w: string, tail: string)
    requires forall i :: 0 <= i < |w| ==> !IsAsciiWhitespace(w[i])
    requires tail == [] || IsAsciiWhitespace(tail[0])
    ensures LeadingWord(w + tail) == w
  {
    if w != [] {
      assert (w + tail)[1..] == w[1..] + tail;
      LeadingWordOfWord(w[1..], tail);
    }
  }

  lemma SplitAfterWord(w: string, tail: string)
    requires IsWord(w)
    requires tail == [] || IsAsciiWhitespace(tail[0])
    ensures SplitAsciiWhitespace(w + tail) == [w] + SplitAsciiWhitespace(tail)
  {
    LeadingWordOfWord(w, tail);
    assert (w + tail)[|w|..] == tail;
  }

  /** Every element of `Repeat(sep, n)` is `sep`. */
  lemma {:induction false} RepeatAt(sep: string, n: nat, i: nat)
    requires i < n
    ensures |Repeat(sep, n)| == n && Repeat(sep, n)[i] == sep
  {
    if i > 0 {
      RepeatAt(sep, n - 1, i - 1);
    } else if n > 1 {
      RepeatAt(sep, n - 1, 0);
    }
  }

  /** Splitting undoes joining with a single space, provided every piece is
      a word. */
  lemma {:induction false} SplitJoin(words: seq<string>)
    requires forall i :: 0 <= i < |words| ==> IsWord(words[i])
    ensures SplitAsciiWhitespace(Join(words, " ")) == words
  {
    if words != [] {
      var seps := JoinSeparators(|words|, " ");
      var middle := Repeat(" ", |words| - 1);
      assert seps == [[]] + middle + [[]];
      forall i | 0 <= i < |seps| ensures AllWhitespace(seps[i]) && (0 < i < |words| ==> seps[i] != []) {
        if i == 0 || i == |words| {
          assert seps[i] == [];
        } else {
          RepeatAt(" ", |words| - 1, i - 1);
          assert seps[i] == middle[i - 1] == " ";
        }
      }
      JoinLayout(words, " ");
      assert SeparatedBy(Join(words, " "), words, seps);
      SplitSeparated(Join(words, " "), words, seps);
    }
  }

  /** Appending a separator and one more word to a non-empty join is joining
      one more word. */
  lemma {:induction false} JoinAppend(words: seq<string>, sep: string, w: string)
    requires |words| > 0
    ensures Join(words, sep) + sep + w == Join(words + [w], sep)
  {
    if |words| > 1 {
      assert (words + [w])[1..] == words[1..] + [w];
      JoinAppend(words[1..], sep, w);
    }
  }

  /** Leading whitespace does not change the split. */
  lemma {:induction false} SplitSkipsWhitespace(g: string, t: string)
    requires AllWhitespace(g)
    ensures SplitAsciiWhitespace(g + t) == SplitAsciiWhitespace(t)
  {
    if g != [] {
      assert (g + t)[0] == g[0] && IsAsciiWhitespace(g[0]);
      assert (g + t)[1..] == g[1..] + t;
      SplitSkipsWhitespace(g[1..], t);
    } else {
      assert g + t == t;
    }
  }

  /** Any text laid out as words between whitespace runs (empty or not at
      the ends, non-empty between words) splits into exactly those words:
      the pieces are the maximal whitespace-free runs. */
  lemma {:induction false} SplitSeparated(s: string, words: seq<string>, seps: seq<string>)
    requires forall i :: 0 <= i < |words| ==> IsWord(words[i])
    requires SeparatedBy(s, words, seps)
    ensures SplitAsciiWhitespace(s) == words
    decreases |words|
  {
    if words == [] {
      SplitSkipsWhitespace(seps[0], []);
      assert seps[0] + [] == seps[0];
    } else {
      var tail := Interleave(seps[1..], words[1..]);
      assert s == seps[0] + (words[0] + tail);
      SplitSkipsWhitespace(seps[0], words[0] + tail);
      if |words| > 1 {
        InterleaveHead(seps[1..], words[1..]);
      }
      SplitAfterWord(words[0], tail);
      assert forall i :: 0 < i < |words| - 1 ==> seps[1..][i] == seps[i + 1];
      SplitSeparated(tail, words[1..], seps[1..]);
    }
  }

  /** A whitespace character in front of a laid-out text joins its first
      run. */
  lemma LayoutAfterWhitespace(c: char, t: string, words: seq<string>, seps: seq<string>)
    requires IsAsciiWhitespace(c) && SeparatedBy(t, words, seps)
    ensures SeparatedBy([c] + t, words, [[c] + seps[0]] + seps[1..])
  {
    InterleavePrepend([c], seps, words);
    var seps' := [[c] + seps[0]] + seps[1..];
    assert forall i :: 0 < i < |seps'| ==> seps'[i] == seps[i];
  }

  /** A word in front of a laid-out text that is empty or starts with
      whitespace becomes its first word, after an empty run. */
  lemma LayoutAfterWord(w: string, t: string, words: seq<string>, seps: seq<string>)
    requires IsWord(w) && (t == [] || IsAsciiWhitespace(t[0]))
    requires forall i :: 0 <= i < |words| ==> IsWord(words[i])
    requires SeparatedBy(t, words, seps)
    ensures SeparatedBy(w + t, [w] + words, [[]] + seps)
  {
    if words != [] {
      InterleaveHead(seps, words);
    }
    var seps' := [[]] + seps;
    var words' := [w] + words;
    assert seps'[1..] == seps && words'[1..] == words;
    assert Interleave(seps', words') == [] + w + Interleave(seps, words);
    assert forall i :: 0 < i < |seps'| ==> seps'[i] == seps[i - 1];
  }

  /** Every text is its pieces laid out between whitespace runs, with a
      non-empty run between any two pieces. */
  lemma {:induction false} SplitHasLayout(s: string)
    ensures exists seps :: SeparatedBy(s, SplitAsciiWhitespace(s), seps)
    decreases |s|
  {
    var words := SplitAsciiWhitespace(s);
    if s == [] {
      assert SeparatedBy(s, words, [[]]);
    } else if IsAsciiWhitespace(s[0]) {
      SplitHasLayout(s[1..]);
      var seps :| SeparatedBy(s[1..], words, seps);
      LayoutAfterWhitespace(s[0], s[1..], words, seps);
      assert [s[0]] + s[1..] == s;
    } else {
      var w := LeadingWord(s);
      var rest := SplitAsciiWhitespace(s[|w|..]);
      assert words == [w] + rest;
      SplitHasLayout(s[|w|..]);
      var seps :| SeparatedBy(s[|w|..], rest, seps);
      LayoutAfterWord(w, s[|w|..], rest, seps);
      assert w + s[|w|..] == s;
    }
  }
}
