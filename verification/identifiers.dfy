/** The closed text shapes that both wire contracts accept.

    Every accepted text is ASCII, so counting characters and counting bytes agree. */
module Identifiers {

  predicate Digit(c: char) { '0' <= c <= '9' }

  predicate Alphanumeric(c: char) { Digit(c) || 'a' <= c <= 'z' || 'A' <= c <= 'Z' }

  predicate LowerHex(c: char) { Digit(c) || 'a' <= c <= 'f' }

  predicate IdentifierChar(c: char) { Alphanumeric(c) || c == '.' || c == '_' || c == ':' || c == '-' }

  /** A bounded transport-safe identifier. */
  predicate Identifier(s: string) {
    && 0 < |s| <= 128
    && Alphanumeric(s[0])
    && forall i | 1 <= i < |s| :: IdentifierChar(s[i])
  }

  predicate Dash(i: nat) { i == 8 || i == 13 || i == 18 || i == 23 }

  /** A canonical lower-case UUID. */
  predicate Uuid(s: string) {
    && |s| == 36
    && '1' <= s[14] <= '8'
    && (s[19] == '8' || s[19] == '9' || s[19] == 'a' || s[19] == 'b')
    && forall i | 0 <= i < 36 :: if Dash(i) then s[i] == '-' else LowerHex(s[i])
  }

  /** `sha256:` followed by 64 lower-case hexadecimal digits. */
  predicate DigestText(s: string) {
    && |s| == 71
    && s[..7] == "sha256:"
    && forall i | 7 <= i < 71 :: LowerHex(s[i])
  }
}
