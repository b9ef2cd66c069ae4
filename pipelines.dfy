/** The two text-level translations: "transpile" (glyph text to cat-word
    text) and "compile" (cat-word text to glyph text). */
module Pipelines {
  import opened Instructions
  import opened Wrappers
  import opened Text
  import opened CatWords
  import opened Glyphs

  /** `string_to_transpiletokens`: one instruction per character, in order. */
  function StringToTranspileTokens(s: string): (tokens: seq<TranspileToken>)
    ensures |tokens| == |s|
    ensures forall i :: 0 <= i < |s| ==> tokens[i] == CharToTranspileToken(s[i])
  {
    if s == [] then [] else [CharToTranspileToken(s[0])] + StringToTranspileTokens(s[1..])
  }

  /** One instruction rendered as its two cat words and the space between. */
  function PairString(p: TokenPair): string
  {
    TokenToString(p.0) + " " + TokenToString(p.1)
  }

  /** Splitting a rendered pair gives back exactly its two cat words. */
  lemma PairStringWords(p: TokenPair)
    ensures SplitAsciiWhitespace(PairString(p)) == [TokenToString(p.0), TokenToString(p.1)]
  {
    var words := [TokenToString(p.0), TokenToString(p.1)];
    SplitJoin(words);
    assert Join(words, " ") == words[0] + " " + Join(words[1..], " ");
  }

  /** The rendered pair of every instruction: one string per instruction,
      in order. */
  function PairStrings(tokens: seq<TranspileToken>): (r: seq<string>)
    ensures |r| == |tokens|
    ensures forall i :: 0 <= i < |tokens| ==> r[i] == PairString(Transpile(tokens[i]))
  {
    if tokens == [] then [] else [PairString(Transpile(tokens[0]))] + PairStrings(tokens[1..])
  }

  /** The cat words of a program, two per instruction, in order. */
  function CatWordsOf(tokens: seq<TranspileToken>): (words: seq<string>)
    ensures |words| == 2 * |tokens|
    ensures forall k :: 0 <= k < |words| ==> IsCatWord(words[k]) && IsWord(words[k])
    ensures forall i :: 0 <= i < |tokens| ==>
      words[2 * i] == TokenToString(Transpile(tokens[i]).0) &&
      words[2 * i + 1] == TokenToString(Transpile(tokens[i]).1)
  {
    if tokens == [] then []
    else
      var p := Transpile(tokens[0]);
      var rest := CatWordsOf(tokens[1..]);
      var words := [TokenToString(p.0), TokenToString(p.1)] + rest;
      assert forall k :: 2 <= k < |words| ==> words[k] == rest[k - 2];
      assert forall i :: 1 <= i < |tokens| ==> tokens[i] == tokens[1..][i - 1];
      words
  }

  /** Joining the rendered pairs with spaces gives the same text as joining
      all the cat words with spaces. */
  lemma {:induction false} JoinPairStrings(tokens: seq<TranspileToken>)
    ensures Join(PairStrings(tokens), " ") == Join(CatWordsOf(tokens), " ")
  {
    if |tokens| == 1 {
      var p := Transpile(tokens[0]);
      assert CatWordsOf(tokens) == [TokenToString(p.0), TokenToString(p.1)];
      assert Join(CatWordsOf(tokens), " ")
          == TokenToString(p.0) + " " + Join([TokenToString(p.1)], " ");
    } else if |tokens| > 1 {
      var p := Transpile(tokens[0]);
      var rest := CatWordsOf(tokens[1..]);
      assert CatWordsOf(tokens) == [TokenToString(p.0), TokenToString(p.1)] + rest;
      assert PairStrings(tokens) == [PairString(p)] + PairStrings(tokens[1..]);
      JoinPairStrings(tokens[1..]);
      JoinLeadingPair(TokenToString(p.0), TokenToString(p.1), rest, " ");
    }
  }

  /** Two leading words joined by the separator form one piece of the join. */
  lemma JoinLeadingPair(a: string, b: string, rest: seq<string>, sep: string)
    requires |rest| > 0
    ensures Join([a, b] + rest, sep) == (a + sep + b) + sep + Join(rest, sep)
  {
    var words := [a, b] + rest;
    assert words[1..] == [b] + rest;
    assert words[1..][1..] == rest;
    calc {
      Join(words, sep);
      a + sep + Join(words[1..], sep);
      a + sep + (b + sep + Join(rest, sep));
      (a + sep + b) + sep + Join(rest, sep);
    }
  }

  /** `transpiletokens_to_string`: the cat words of the program joined by
      single spaces, so that splitting the text on whitespace yields exactly
      two cat words per instruction, the i-th pair spelling the i-th
      instruction. */
  function TranspileTokensToString(tokens: seq<TranspileToken>): (text: string)
    ensures text == Join(CatWordsOf(tokens), " ")
    ensures SplitAsciiWhitespace(text) == CatWordsOf(tokens)
  {
    JoinPairStrings(tokens);
    SplitJoin(CatWordsOf(tokens));
    Join(PairStrings(tokens), " ")
  }

  /** The "transpile" mode: glyph text to cat-word text. Each character of
      the input becomes two cat words, the decoding of that character, and
      all the words are joined by single spaces. */
  function TranspileText(text: string): (out: string)
    ensures out == Join(CatWordsOf(StringToTranspileTokens(text)), " ")
    ensures var words := SplitAsciiWhitespace(out);
      && |words| == 2 * |text|
      && (forall k :: 0 <= k < |words| ==> IsCatWord(words[k]))
      && forall i :: 0 <= i < |text| ==>
           (StringToToken(words[2 * i]).value, StringToToken(words[2 * i + 1]).value)
             == Transpile(CharToTranspileToken(text[i]))
  {
    var tokens := StringToTranspileTokens(text);
    var out := TranspileTokensToString(tokens);
    var words := CatWordsOf(tokens);
    forall i | 0 <= i < |text|
      ensures (StringToToken(words[2 * i]).value, StringToToken(words[2 * i + 1]).value)
             == Transpile(CharToTranspileToken(text[i]))
    {
      StringToTokenRoundTrip(Transpile(tokens[i]).0);
      StringToTokenRoundTrip(Transpile(tokens[i]).1);
    }
    out
  }

  /** `chunks_exact(2)`: consecutive pairs of words, in order; an odd last
      word is not part of any pair. */
  function ChunksExact2(words: seq<string>): (chunks: seq<(string, string)>)
    ensures |chunks| == |words| / 2
    ensures forall i :: 0 <= i < |chunks| ==> chunks[i] == (words[2 * i], words[2 * i + 1])
  {
    if |words| < 2 then []
    else
      var rest := ChunksExact2(words[2..]);
      assert forall i :: 1 <= i <= |rest| ==> words[2 * i] == words[2..][2 * (i - 1)];
      [(words[0], words[1])] + rest
  }

  /** Word `k` of a full pair is the first or second half of chunk `k / 2`. */
  lemma WordInChunk(words: seq<string>, k: nat)
    requires k < 2 * (|words| / 2)
    ensures k / 2 < |ChunksExact2(words)|
    ensures k == 2 * (k / 2) || k == 2 * (k / 2) + 1
    ensures words[k] == if k % 2 == 0 then ChunksExact2(words)[k / 2].0 else ChunksExact2(words)[k / 2].1
  {
    var i := k / 2;
    assert k == 2 * i || k == 2 * i + 1;
  }

  /** Chunk `i` holds the first unknown word: every earlier chunk is made of
      cat words and the error names the first bad word of chunk `i`. */
  predicate FirstUnknownInChunk(chunks: seq<(string, string)>, i: nat, e: CompileError)
    requires i < |chunks|
  {
    && (forall j :: 0 <= j < i ==> IsCatWord(chunks[j].0) && IsCatWord(chunks[j].1))
    && if !IsCatWord(chunks[i].0) then e == UnknownToken(chunks[i].0)
       else !IsCatWord(chunks[i].1) && e == UnknownToken(chunks[i].1)
  }

  /** Reads each chunk as a pair of cat words, left to right, first word
      before second; the first unknown word stops the reading. */
  function ParsePairs(chunks: seq<(string, string)>): (r: Result<seq<TokenPair>, CompileError>)
    ensures r.Ok? <==> forall i :: 0 <= i < |chunks| ==> IsCatWord(chunks[i].0) && IsCatWord(chunks[i].1)
    ensures r.Ok? ==> |r.value| == |chunks| && forall i :: 0 <= i < |chunks| ==>
      TokenToString(r.value[i].0) == chunks[i].0 && TokenToString(r.value[i].1) == chunks[i].1
    ensures r.Err? ==> exists i :: 0 <= i < |chunks| && FirstUnknownInChunk(chunks, i, r.error)
  {
    if chunks == [] then Ok([])
    else
      match StringToToken(chunks[0].0)
      case Err(e) =>
        assert FirstUnknownInChunk(chunks, 0, e);
        Err(e)
      case Ok(a) =>
        match StringToToken(chunks[0].1)
        case Err(e) =>
          assert FirstUnknownInChunk(chunks, 0, e);
          Err(e)
        case Ok(b) =>
          match ParsePairs(chunks[1..])
          case Err(e) =>
            var i :| 0 <= i < |chunks[1..]| && FirstUnknownInChunk(chunks[1..], i, e);
            assert FirstUnknownInChunk(chunks, i + 1, e);
            Err(e)
          case Ok(rest) =>
            Ok([(a, b)] + rest)
  }

  /** `k` is the position of the first word that is not a cat word. */
  predicate FirstUnknownWord(words: seq<string>, k: nat)
  {
    && k < |words|
    && !IsCatWord(words[k])
    && forall j :: 0 <= j < k ==> IsCatWord(words[j])
  }

  /** All chunks consist of cat words exactly when every word of a full
      pair is a cat word. */
  lemma ChunksAllCatWords(words: seq<string>)
    ensures (forall i :: 0 <= i < |ChunksExact2(words)| ==>
               IsCatWord(ChunksExact2(words)[i].0) && IsCatWord(ChunksExact2(words)[i].1))
        <==> (forall k :: 0 <= k < 2 * (|words| / 2) ==> IsCatWord(words[k]))
  {
    var chunks := ChunksExact2(words);
    if forall i :: 0 <= i < |chunks| ==> IsCatWord(chunks[i].0) && IsCatWord(chunks[i].1) {
      forall k | 0 <= k < 2 * (|words| / 2) ensures IsCatWord(words[k]) {
        WordInChunk(words, k);
      }
    }
    if forall k :: 0 <= k < 2 * (|words| / 2) ==> IsCatWord(words[k]) {
      forall i | 0 <= i < |chunks| ensures IsCatWord(chunks[i].0) && IsCatWord(chunks[i].1) {
        assert chunks[i] == (words[2 * i], words[2 * i + 1]);
      }
    }
  }

  /** The first unknown word found chunk by chunk is the first unknown word
      among the words of full pairs. */
  lemma FirstUnknownChunkIsFirstUnknownWord(words: seq<string>, i: nat, e: CompileError)
    requires i < |ChunksExact2(words)|
    requires FirstUnknownInChunk(ChunksExact2(words), i, e)
    ensures exists k: nat :: FirstUnknownWord(words[..2 * (|words| / 2)], k) && e == UnknownToken(words[k])
  {
    var chunks := ChunksExact2(words);
    var k := if !IsCatWord(chunks[i].0) then 2 * i else 2 * i + 1;
    forall j | 0 <= j < k ensures IsCatWord(words[j]) {
      WordInChunk(words, j);
      var c := j / 2;
      if c == i {
        assert j == 2 * i && IsCatWord(chunks[i].0);
      } else {
        assert c < i && IsCatWord(chunks[c].0) && IsCatWord(chunks[c].1);
      }
    }
    assert FirstUnknownWord(words[..2 * |chunks|], k);
  }

  /** The glyph of every decoded pair. Each output character is canonical or
      a newline, and decoding it gives back the instruction the pair spells. */
  function PairsToGlyphs(pairs: seq<TokenPair>): (out: string)
    ensures |out| == |pairs|
    ensures forall i :: 0 <= i < |pairs| ==>
      && (IsCanonicalGlyph(out[i]) || out[i] == '\n')
      && Transpile(CharToTranspileToken(out[i])) == pairs[i]
  {
    var out := seq(|pairs|, i requires 0 <= i < |pairs| => TranspileTokenToChar(Compile(pairs[i])));
    forall i | 0 <= i < |pairs|
      ensures Transpile(CharToTranspileToken(out[i])) == pairs[i]
    {
      DecodeEncodeGlyph(Compile(pairs[i]));
      TranspileCompile(pairs[i]);
    }
    out
  }

  /** The "compile" mode: cat-word text to glyph text. The text is split on
      whitespace and read two words at a time; a trailing odd word is
      dropped unread. It fails exactly when a word it reads is not a cat
      word, naming the first such word; otherwise it yields one character
      per pair, the glyph whose instruction is spelled by that pair, so the
      output holds only canonical glyphs and newlines. */
  function CompileText(text: string): (r: Result<string, CompileError>)
    ensures var words := SplitAsciiWhitespace(text);
      var n := |words| / 2;
      && (r.Ok? <==> forall k :: 0 <= k < 2 * n ==> IsCatWord(words[k]))
      && (r.Ok? ==> |r.value| == n && forall i :: 0 <= i < n ==>
            && (IsCanonicalGlyph(r.value[i]) || r.value[i] == '\n')
            && TokenToString(Transpile(CharToTranspileToken(r.value[i])).0) == words[2 * i]
            && TokenToString(Transpile(CharToTranspileToken(r.value[i])).1) == words[2 * i + 1])
      && (r.Err? ==> exists k: nat :: FirstUnknownWord(words[..2 * n], k) && r.error == UnknownToken(words[k]))
  {
    var words := SplitAsciiWhitespace(text);
    var chunks := ChunksExact2(words);
    ChunksAllCatWords(words);
    match ParsePairs(chunks)
    case Err(e) =>
      var i :| 0 <= i < |chunks| && FirstUnknownInChunk(chunks, i, e);
      FirstUnknownChunkIsFirstUnknownWord(words, i, e);
      Err(e)
    case Ok(pairs) =>
      Ok(PairsToGlyphs(pairs))
  }

  /** A trailing odd word does not change the pairs that are read. */
  lemma ChunksIgnoreOddWord(words: seq<string>, w: string)
    requires |words| % 2 == 0
    ensures ChunksExact2(words + [w]) == ChunksExact2(words)
  {
  }

  /** End to end: transpiling glyph text and compiling the result gives the
      text back with every non-canonical character replaced by a newline. */
  lemma TranspileThenCompile(text: string)
    ensures CompileText(TranspileText(text)) == Ok(NormalizeGlyphs(text))
  {
    var words := SplitAsciiWhitespace(TranspileText(text));
    var r := CompileText(TranspileText(text));
    assert r.Ok?;
    var out := r.value;
    assert |words| == 2 * |text|;
    assert |out| == |text|;
    forall i | 0 <= i < |text| ensures out[i] == NormalizeGlyphs(text)[i] {
      var got := Transpile(CharToTranspileToken(out[i]));
      var want := Transpile(CharToTranspileToken(text[i]));
      assert words[2 * i] == TokenToString(got.0) && words[2 * i + 1] == TokenToString(got.1);
      StringToTokenRoundTrip(got.0);
      StringToTokenRoundTrip(got.1);
      assert got == want;
      TranspileCompile(got);
      TranspileCompile(want);
      assert CharToTranspileToken(out[i]) == CharToTranspileToken(text[i]);
      assert TranspileTokenToChar(CharToTranspileToken(out[i])) == out[i];
    }
    assert out == NormalizeGlyphs(text);
  }

  /** Text made only of the eight canonical glyphs survives the round trip
      unchanged. */
  lemma CanonicalRoundTrip(text: string)
    requires forall i :: 0 <= i < |text| ==> IsCanonicalGlyph(text[i])
    ensures CompileText(TranspileText(text)) == Ok(text)
  {
    TranspileThenCompile(text);
    NormalizeGlyphsFixedPoints(text);
  }

  /** Compiling does not reject an odd word count: one more word of any
      spelling after transpiled text is dropped without being read. */
  lemma OddTrailingWordIgnored(text: string, w: string)
    requires IsWord(w)
    ensures CompileText(TranspileText(text) + " " + w) == Ok(NormalizeGlyphs(text))
  {
    TranspileThenCompile(text);
    var tokens := StringToTranspileTokens(text);
    var words := CatWordsOf(tokens);
    var extended := TranspileText(text) + " " + w;
    if text == [] {
      assert extended == " " + w;
      assert extended[1..] == w;
      SplitAfterWord(w, []);
      assert w + [] == w;
      assert SplitAsciiWhitespace(extended) == [w];
    } else {
      JoinAppend(words, " ", w);
      SplitJoin(words + [w]);
      ChunksIgnoreOddWord(words, w);
    }
  }

  /** An unknown word inside a pair that is read is an error naming it,
      whatever follows it: after any even number of cat words, a pair whose
      first word is unknown fails on that word. */
  lemma UnknownWordRejected(ws: seq<string>, w: string, x: string)
    requires |ws| % 2 == 0
    requires forall i :: 0 <= i < |ws| ==> IsCatWord(ws[i])
    requires IsWord(w) && !IsCatWord(w) && IsWord(x)
    ensures CompileText(Join(ws + [w, x], " ")) == Err(UnknownToken(w))
  {
    var words := ws + [w, x];
    PairedRunIsWords(ws, w, x);
    SplitJoin(words);
    var text := Join(words, " ");
    assert SplitAsciiWhitespace(text) == words;
    assert FirstUnknownWord(words, |ws|) by {
      assert forall j :: 0 <= j < |ws| ==> words[j] == ws[j];
    }
    CompileFailsAtFirstUnknown(text, |ws|);
  }

  /** Cat words followed by two words are all words. */
  lemma PairedRunIsWords(ws: seq<string>, w: string, x: string)
    requires forall i :: 0 <= i < |ws| ==> IsCatWord(ws[i])
    requires IsWord(w) && IsWord(x)
    ensures forall i :: 0 <= i < |ws + [w, x]| ==> IsWord((ws + [w, x])[i])
  {
    forall i | 0 <= i < |ws + [w, x]| ensures IsWord((ws + [w, x])[i]) {
      if i < |ws| {
        CatWordIsWord(ws[i]);
      }
    }
  }

  /** When the first unknown word of a text lies in a pair that is read,
      compiling fails with the error naming exactly that word. */
  lemma CompileFailsAtFirstUnknown(text: string, k: nat)
    requires k < 2 * (|SplitAsciiWhitespace(text)| / 2)
    requires FirstUnknownWord(SplitAsciiWhitespace(text), k)
    ensures CompileText(text) == Err(UnknownToken(SplitAsciiWhitespace(text)[k]))
  {
    var words := SplitAsciiWhitespace(text);
    var read := words[..2 * (|words| / 2)];
    assert forall j :: 0 <= j < |read| ==> read[j] == words[j];
    assert !IsCatWord(read[k]);
    var r := CompileText(text);
    assert r.Err?;
    var k': nat :| FirstUnknownWord(read, k') && r.error == UnknownToken(words[k']);
    assert FirstUnknownWord(read, k);
  }
}
