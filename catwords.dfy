/** Spelling of the three cat words (`token_to_string` / `string_to_token`). */
module CatWords {
  import opened Instructions
  import opened Wrappers
  import opened Text

  /** The failure behind the source's `panic!("Unknown token")`: the first word
      it tried to read that is not a cat word. */
  datatype CompileError = UnknownToken(word: string)

  /** True of exactly the three spellings the decoder accepts. */
  predicate IsCatWord(w: string)
  {
    w == "Meow" || w == "Mrrp" || w == "Mrowp"
  }

  /** Spells a cat word. The result is one of the words the decoder accepts,
      and it survives whitespace splitting as a single word. */
  function TokenToString(k: Token): (w: string)
    ensures IsCatWord(w)
    ensures IsWord(w)
  {
    match k
    case Meow => "Meow"
    case Mrrp => "Mrrp"
    case Mrowp => "Mrowp"
  }

  /** Reads a cat word. It succeeds exactly on the three spellings (case
      sensitive), and then spelling the result gives the word back; every
      other word is an `UnknownToken` error naming it. */
  function StringToToken(w: string): (r: Result<Token, CompileError>)
    ensures r.Ok? <==> IsCatWord(w)
    ensures r.Ok? ==> TokenToString(r.value) == w
    ensures r.Err? ==> r.error == UnknownToken(w)
  {
    if w == "Meow" then Ok(Meow)
    else if w == "Mrrp" then Ok(Mrrp)
    else if w == "Mrowp" then Ok(Mrowp)
    else Err(UnknownToken(w))
  }

  /** Reading a spelled cat word gives the token back. */
  lemma StringToTokenRoundTrip(k: Token)
    ensures StringToToken(TokenToString(k)) == Ok(k)
  {
  }

  /** Every cat word is a single whitespace-free word. */
  lemma CatWordIsWord(w: string)
    requires IsCatWord(w)
    ensures IsWord(w)
  {
    assert TokenToString(StringToToken(w).value) == w;
  }
}
