/** The tokens of a JSON text, as Go's decoder splits it. */
module JsonTokens {
  /** `Atom` is a number, true, false or null. */
  datatype Token = LBrace | RBrace | LBrack | RBrack | Comma | Colon | StringToken(s: string) | Atom(text: string)

  type Tokens = seq<Token>
}
