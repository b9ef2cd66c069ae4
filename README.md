# cmeow translation core in Dafny

cmeow translates programs for the classic eight-operation tape language
between two notations:

- glyph text: one character per operation (`> < + - . , [ ]`); any other
  character is the catch-all `Other`;
- cat-word text: two words per operation, each word one of `Meow`, `Mrrp`,
  `Mrowp`.

The model covers the instruction type (`TranspileToken`) and the three-word
alphabet (`Token`). It also covers the pair codec (`transpile_token` /
`compile_token`), the word spelling (`token_to_string` / `string_to_token`)
and the glyph codec (`string_to_transpiletokens` / `transpiletoken_to_char`).
On top of these sit the two text pipelines: "transpile" turns glyph text into
cat-word text, and "compile" turns cat-word text into glyph text.
Every part of this core is a pure mapping, so the model is built from
datatypes, functions and lemmas. Compile's `panic!("Unknown token")` becomes
an `Err(UnknownToken(word))` result that names the first unknown word read.

Files and modules:

- `wrappers.dfy` (`Wrappers`): the `Result` datatype.
- `instructions.dfy` (`Instructions`): `Token`, `TranspileToken` and the pair
  codec.
- `catwords.dfy` (`CatWords`): spelling and reading cat words, and the
  `CompileError` datatype.
- `glyphs.dfy` (`Glyphs`): the glyph codec and glyph normalisation, where
  every non-canonical character becomes a newline.
- `text.dfy` (`Text`): `split_ascii_whitespace` and `join` on character
  sequences.
- `pipelines.dfy` (`Pipelines`): the two text pipelines and the end-to-end
  laws.

When an odd number of words reaches "compile", the code uses
`chunks_exact(2)` and silently drops the last word without reading it, even
when that word is not a cat word. The model follows the code here, not a
stricter reading under which an odd word count is an error
(`CompileText`, `OddTrailingWordIgnored`).

## Model

| member | source | states |
|---|---|---|
| `Instructions.Transpile` | src/main.rs:22-34 | An instruction's pair is the two base-3 digits of its declaration position (`Meow`=0, `Mrrp`=1, `Mrowp`=2), and decoding that pair gives back the same instruction, for all nine instructions. |
| `Instructions.Compile` | src/main.rs:36-48 | Every pair decodes to the instruction whose declaration position has the pair as its base-3 digits. Different pairs therefore give different instructions, and all nine instructions are reached. |
| `Instructions.TranspileCompile` | src/main.rs:36-48 | Each of the nine pairs is the encoding of the instruction it decodes to, so decoding is total and exact. |
| `Instructions.PairCodecBijective` | src/main.rs:22-48 | Encoding is injective on instructions and decoding is injective on pairs: the 9↔9 mapping is a bijection. |
| `CatWords.TokenToString` | src/main.rs:50-56 | The spelling of each token is one of the three words the reader accepts, and it is a single non-empty, whitespace-free word. |
| `CatWords.StringToToken` | src/main.rs:58-65 | Reading succeeds exactly on `Meow`, `Mrrp`, `Mrowp` (case-sensitive), and spelling the result gives the word back. Any other word is an error that names it. |
| `CatWords.StringToTokenRoundTrip` | src/main.rs:50-65 | Reading a spelled token gives the token back. |
| `Glyphs.CharToTranspileToken` | src/main.rs:80-91 | A character decodes to `Other` exactly when it is not one of the eight glyphs. Re-encoding the decoded instruction gives the character back if it is canonical, and a newline otherwise. |
| `Glyphs.TranspileTokenToChar` | src/main.rs:96-108 | An instruction encodes to a canonical glyph exactly when it is not `Other`, and to a newline exactly when it is `Other`. |
| `Glyphs.DecodeEncodeGlyph` | src/main.rs:96-108 | Decoding the glyph of an instruction gives that instruction back, `Other` (newline) included. |
| `Glyphs.NormalizeGlyphsIdempotent` | src/main.rs:82-106 | Replacing non-canonical characters by newlines twice gives the same text as doing it once. |
| `Glyphs.NormalizeGlyphsFixedPoints` | src/main.rs:82-106 | Normalisation leaves a text unchanged exactly when every character of it is a canonical glyph or a newline. |
| `Text.SplitAsciiWhitespace` | src/main.rs:121-123 | Each piece is non-empty and free of ASCII whitespace, and the pieces in order hold exactly the non-whitespace characters of the text. |
| `Text.SplitSeparated` | src/main.rs:122 | Suppose a text is written as words between whitespace runs: the runs at either end may be empty, the runs between words may not. Then it splits into exactly those words. So each piece is a maximal run, whatever whitespace surrounds it, leading and trailing included. |
| `Text.SplitHasLayout` | src/main.rs:122 | Every text is its own pieces laid out between whitespace runs, with a non-empty run between any two pieces. With `SplitSeparated` this fixes the split of every text. |
| `Text.JoinLayout` | src/main.rs:74 | `join` puts the words in order with `sep` between consecutive words and nothing before the first or after the last. |
| `Text.JoinAppend` | src/main.rs:74 | Joining one more word equals the old join followed by the separator and that word. |
| `Text.SplitJoin` | src/main.rs:74 | Splitting on whitespace undoes a join with single spaces, whenever every piece is a word. |
| `Pipelines.StringToTranspileTokens` | src/main.rs:77-94 | Exactly one instruction per input character, in order, each one the decoding of its character. |
| `Pipelines.PairStringWords` | src/main.rs:71 | The string built for one instruction splits into exactly its two cat words. |
| `Pipelines.PairStrings` | src/main.rs:68-72 | The mapped and collected list has one string per instruction, in order, and string i is instruction i's pair rendered as "a b". |
| `Pipelines.CatWordsOf` | src/main.rs:68-71 | A program has exactly two cat words per instruction. Words 2i and 2i+1 spell the two halves of instruction i's pair, and every word is a cat word. |
| `Pipelines.JoinPairStrings` | src/main.rs:67-75 | Joining the per-instruction strings "a b" with spaces gives the same text as joining all 2n cat words with single spaces. |
| `Pipelines.TranspileTokensToString` | src/main.rs:67-75 | The output is the 2n cat words joined by single spaces, and splitting it on whitespace yields exactly those words. |
| `Pipelines.TranspileText` | src/main.rs:140-142 | The output is exactly the cat words of the decoded program joined by single spaces. Glyph text of n characters becomes 2n cat words, and words 2i and 2i+1 read back as the pair of the decoding of character i. |
| `Pipelines.ChunksExact2` | src/main.rs:125-126 | There are ⌊words/2⌋ chunks, and chunk i holds words 2i and 2i+1, in order. |
| `Pipelines.ParsePairs` | src/main.rs:125-128 | Succeeds exactly when every chunk holds two cat words. On success it gives one token pair per chunk, spelling that chunk. On failure it reports the first unknown word, in reading order. |
| `Pipelines.PairsToGlyphs` | src/main.rs:130-133 | One character per pair, each a canonical glyph or a newline, and decoding it gives back the instruction that the pair spells. |
| `Pipelines.CompileText` | src/main.rs:121-133 | Fails exactly when some word of a full pair is not a cat word, naming the first one. Otherwise it outputs ⌊words/2⌋ characters, and character i is the glyph whose cat words are words 2i and 2i+1. An odd last word is never read. |
| `Pipelines.ChunksIgnoreOddWord` | src/main.rs:126 | After an even number of words, one more word does not change the chunks. |
| `Pipelines.TranspileThenCompile` | src/main.rs:121-133 | For any text t, compiling the transpilation of t gives t with every non-canonical character replaced by a newline. |
| `Pipelines.CanonicalRoundTrip` | src/main.rs:121-133 | Text made only of the eight canonical glyphs comes back exactly from compiling its transpilation. |
| `Pipelines.OddTrailingWordIgnored` | src/main.rs:125-128 | Any word appended after transpiled text, even an unknown one, is dropped, and compiling still gives the normalised text. |
| `Pipelines.CompileFailsAtFirstUnknown` | src/main.rs:125-128 | Whenever the first non-cat word of a text falls inside a full pair, compiling fails with the error naming exactly that word, whatever comes after it. |
| `Pipelines.UnknownWordRejected` | src/main.rs:125-128 | Take any even number of cat words, then a non-cat word w, then any word x. Compiling the space-joined text fails with the error naming w: the first unknown word of a read pair is reported, whatever follows it. |

## Left out

- Argument handling and mode dispatch (src/main.rs:111-116, 143-144) are
  not modelled. This covers the argument-count assertion, ASCII-lowercasing
  the mode before comparison, and the invalid-mode panic. The two pipelines
  are exposed directly as `TranspileText` and `CompileText`.
- Reading the input file and printing the result are I/O and are left out.
  The pipelines take and return text values, so the newline that `println!`
  appends after the output is not part of them.
- There is no interpreter or "run" mode in the source (`run` falls into the
  invalid-mode panic), so none is modelled.
- Text is a sequence of Unicode scalar values. Splitting recognises the
  five ASCII whitespace characters (space, tab, line feed, form feed and
  carriage return), as `split_ascii_whitespace` does. UTF-8 byte-level
  details of `chars()` are not modelled.
- Text.SplitAsciiWhitespace: its own contract does not say the pieces
  are maximal runs, because that statement made every proof that uses the
  function too costly. `Text.SplitSeparated` and `Text.SplitHasLayout`
  prove it about the function instead.
- The panic becomes an error value: the model cannot observe process abort,
  only which word caused it.
