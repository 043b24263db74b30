/** Token kinds and the per-token classification rule of the token loop in
    UATokenizer.main: which scanner kinds are accepted, truncation of the
    image, lower-casing of word tokens and the dictionary filter. */
module Tokens {

  /** The scanner kinds the pipeline tells apart. Every other kind the scanner
      can report is carried as Other with its numeric constant. End of file is
      not a kind here: a file's token stream is a finite sequence, and EOF is
      the end of that sequence. */
  datatype Kind = Letter | Word | Email | Domain | Phone | Price | Other(code: int)

  /** One token as the scanner hands it over: its kind and its image. */
  datatype Token = Token(kind: Kind, image: string)

  /** Longest image the pipeline keeps. */
  const MAX_TOKEN_CHAR_LENGTH: nat := 24

  function Min(a: nat, b: nat): nat { if a < b then a else b }

  /** The six kinds of the accepted-token list. */
  predicate IsAccepted(k: Kind) {
    k.Letter? || k.Word? || k.Email? || k.Domain? || k.Phone? || k.Price?
  }

  /** WORD and LETTER tokens are lower-cased and go to the word buffer. */
  predicate IsWordLike(k: Kind) {
    k.Word? || k.Letter?
  }

  /** Cuts an image down to its first MAX_TOKEN_CHAR_LENGTH characters. */
  function Truncate(s: string): (r: string)
    ensures r <= s
    ensures |r| == Min(|s|, MAX_TOKEN_CHAR_LENGTH)
    ensures |s| <= MAX_TOKEN_CHAR_LENGTH ==> r == s
  {
    if |s| > MAX_TOKEN_CHAR_LENGTH then s[..MAX_TOKEN_CHAR_LENGTH] else s
  }

  predicate IsUpper(c: char) {
    'A' <= c <= 'Z'
  }

  function LowerChar(c: char): char {
    if IsUpper(c) then (c as int + 32) as char else c
  }

  /** Lower-casing, restricted to the ASCII letters. */
  function Lowercase(s: string): (r: string)
    ensures |r| == |s|
    ensures forall i :: 0 <= i < |r| ==> !IsUpper(r[i])
    ensures forall i :: 0 <= i < |s| && !IsUpper(s[i]) ==> r[i] == s[i]
    ensures forall i :: 0 <= i < |s| && IsUpper(s[i]) ==> r[i] as int - 'a' as int == s[i] as int - 'A' as int
  {
    seq(|s|, i requires 0 <= i < |s| => LowerChar(s[i]))
  }

  /** What the token loop does with one token. */
  datatype Action =
    | Reject                          // kind not in the accepted list
    | NotInDictionary(word: string)   // normalised word token that is no dictionary word
    | Buffer(word: string)            // normalised word token bound for the word buffer
    | Count(key: string, kind: Kind)  // any other accepted token: straight to the lexicon

  /** The classification rule: accepted kinds are truncated first; word-like
      images are then lower-cased and kept only if the dictionary has them; the
      other accepted kinds go to the lexicon with their own kind. */
  function Classify(t: Token, dictionary: set<string>): (a: Action)
    ensures a.Reject? <==> !IsAccepted(t.kind)
    ensures (a.Buffer? || a.NotInDictionary?) <==> IsWordLike(t.kind)
    ensures a.Count? <==> IsAccepted(t.kind) && !IsWordLike(t.kind)
    ensures a.Buffer? ==> a.word in dictionary
    ensures a.NotInDictionary? ==> a.word !in dictionary
    ensures (a.Buffer? || a.NotInDictionary?) ==>
              |a.word| == Min(|t.image|, MAX_TOKEN_CHAR_LENGTH) && a.word == Lowercase(t.image[..|a.word|])
    ensures a.Count? ==> a.kind == t.kind && a.key <= t.image && |a.key| == Min(|t.image|, MAX_TOKEN_CHAR_LENGTH)
  {
    if !IsAccepted(t.kind) then
      Reject
    else
      var image := Truncate(t.image);
      if IsWordLike(t.kind) then
        var word := Lowercase(image);
        if word in dictionary then Buffer(word) else NotInDictionary(word)
      else
        Count(image, t.kind)
  }
}
