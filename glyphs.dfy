/** The single-character notation (`string_to_transpiletokens` /
    `transpiletoken_to_char`). */
module Glyphs {
  import opened Instructions

  /** The eight characters that stand for a tape operation. */
  predicate IsCanonicalGlyph(c: char)
  {
    c == '>' || c == '<' || c == '+' || c == '-' || c == '.' || c == ',' || c == '[' || c == ']'
  }

  /** Decodes one character: a canonical glyph to its operation, anything
      else to `Other`. Encoding the result gives the character back when it
      is canonical and a newline otherwise. */
  function CharToTranspileToken(c: char): (t: TranspileToken)
    ensures t == Other <==> !IsCanonicalGlyph(c)
    ensures TranspileTokenToChar(t) == if IsCanonicalGlyph(c) then c else '\n'
  {
    match c
    case '>' => Next
    case '<' => Previous
    case '+' => Increment
    case '-' => Decrement
    case '.' => Output
    case ',' => Input
    case '[' => LoopStart
    case ']' => LoopEnd
    case _ => Other
  }

  /** Encodes one operation as a character; `Other`, and only `Other`,
      becomes the newline, which is not canonical. */
  function TranspileTokenToChar(t: TranspileToken): (c: char)
    ensures IsCanonicalGlyph(c) <==> t != Other
    ensures c == '\n' <==> t == Other
  {
    match t
    case Next => '>'
    case Previous => '<'
    case Increment => '+'
    case Decrement => '-'
    case Output => '.'
    case Input => ','
    case LoopStart => '['
    case LoopEnd => ']'
    case Other => '\n'
  }

  /** Decoding inverts encoding for all nine operations (the newline
      included), so the encoder is injective. */
  lemma DecodeEncodeGlyph(t: TranspileToken)
    ensures CharToTranspileToken(TranspileTokenToChar(t)) == t
  {
  }

  /** Glyph text with every non-canonical character replaced by a newline:
      the reference for what decoding and re-encoding glyph text yields. */
  function NormalizeGlyphs(s: string): (r: string)
  {
    seq(|s|, i requires 0 <= i < |s| => if IsCanonicalGlyph(s[i]) then s[i] else '\n')
  }

  /** Normalizing twice is normalizing once. */
  lemma NormalizeGlyphsIdempotent(s: string)
    ensures NormalizeGlyphs(NormalizeGlyphs(s)) == NormalizeGlyphs(s)
  {
  }

  /** The texts normalization leaves alone are exactly those made of canonical
      glyphs and newlines. */
  lemma NormalizeGlyphsFixedPoints(s: string)
    ensures NormalizeGlyphs(s) == s <==> forall i :: 0 <= i < |s| ==> IsCanonicalGlyph(s[i]) || s[i] == '\n'
  {
    if forall i :: 0 <= i < |s| ==> IsCanonicalGlyph(s[i]) || s[i] == '\n' {
      assert forall i :: 0 <= i < |s| ==> NormalizeGlyphs(s)[i] == s[i];
    }
  }
}
