/** The instruction model and the cat-word pair codec (`transpile_token` /
    `compile_token` in src/main.rs). */
module Instructions {

  /** The three cat words of the surface notation. */
  datatype Token = Meow | Mrrp | Mrowp

  /** The eight tape operations plus the catch-all `Other`. */
  datatype TranspileToken =
    | Next | Previous | Increment | Decrement
    | Output | Input | LoopStart | LoopEnd
    | Other

  /** An ordered pair of cat words; every one of the nine pairs encodes exactly
      one instruction. */
  type TokenPair = (Token, Token)

  /** Position of a cat word in its declaration: 0, 1 or 2. */
  function TokenDigit(k: Token): nat
  {
    match k
    case Meow => 0
    case Mrrp => 1
    case Mrowp => 2
  }

  /** Position of an instruction in its declaration, 0 to 8. */
  function Ordinal(t: TranspileToken): nat
  {
    match t
    case Next => 0
    case Previous => 1
    case Increment => 2
    case Decrement => 3
    case Output => 4
    case Input => 5
    case LoopStart => 6
    case LoopEnd => 7
    case Other => 8
  }

  /** Encodes an instruction as its pair of cat words (`transpile_token`).
      The pair holds the two base-3 digits of the instruction's position,
      and decoding the pair gives the instruction back. */
  function Transpile(t: TranspileToken): (p: TokenPair)
    ensures 3 * TokenDigit(p.0) + TokenDigit(p.1) == Ordinal(t)
    ensures Compile(p) == t
  {
    match t
    case Next => (Meow, Meow)
    case Previous => (Meow, Mrrp)
    case Increment => (Meow, Mrowp)
    case Decrement => (Mrrp, Meow)
    case Output => (Mrrp, Mrrp)
    case Input => (Mrrp, Mrowp)
    case LoopStart => (Mrowp, Meow)
    case LoopEnd => (Mrowp, Mrrp)
    case Other => (Mrowp, Mrowp)
  }

  /** Decodes a pair of cat words into an instruction (`compile_token`).
      The match is exhaustive over all nine pairs: the instruction is the one
      whose position has the pair as its base-3 digits. */
  function Compile(p: TokenPair): (t: TranspileToken)
    ensures Ordinal(t) == 3 * TokenDigit(p.0) + TokenDigit(p.1)
  {
    match p
    case (Meow, Meow) => Next
    case (Meow, Mrrp) => Previous
    case (Meow, Mrowp) => Increment
    case (Mrrp, Meow) => Decrement
    case (Mrrp, Mrrp) => Output
    case (Mrrp, Mrowp) => Input
    case (Mrowp, Meow) => LoopStart
    case (Mrowp, Mrrp) => LoopEnd
    case (Mrowp, Mrowp) => Other
  }

  /** Every pair is the encoding of the instruction it decodes to. */
  lemma TranspileCompile(p: TokenPair)
    ensures Transpile(Compile(p)) == p
  {
    match p
    case (Meow, _) =>
    case (Mrrp, _) =>
    case (Mrowp, _) =>
  }

  /** Together: the pair codec is a bijection between the nine instructions
      and the nine pairs, so both directions are injective. */
  lemma PairCodecBijective(t: TranspileToken, u: TranspileToken, p: TokenPair, q: TokenPair)
    ensures Transpile(t) == Transpile(u) <==> t == u
    ensures Compile(p) == Compile(q) <==> p == q
  {
    TranspileCompile(p);
    TranspileCompile(q);
  }
}
