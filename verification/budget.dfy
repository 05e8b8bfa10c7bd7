/** The character budget of one content block, derived from an assumed model context size. */
module Budget {

  /** One character, the unit of all lengths below. */
  const Character: nat := 1

  /** Roughly four characters make one token. */
  const CharactersPerToken: nat := 4 * Character

  /** Tokens reserved for the query and the prompt text around the content. */
  const AvgPromptTokens: nat := 250

  /** Tokens reserved for the summary the model writes (about 200 words). */
  const AvgSummaryTokens: nat := 250

  /** The assumed context length of the model, in tokens. */
  const ContextTokens: nat := 4000

  /** Tokens left for web content once the prompt and the summary are accounted for. */
  const MaxContentTokens: nat := ContextTokens - AvgPromptTokens - AvgSummaryTokens

  /** The budget `B`: the most characters of web content placed in one prompt. */
  const MaxContentChars: nat := CharactersPerToken * MaxContentTokens

  /** The budget is 4 * (4000 - 250 - 250) = 14000 characters. */
  lemma MaxContentCharsValue()
    ensures MaxContentTokens == 3500
    ensures MaxContentChars == 14000
  {
  }
}
