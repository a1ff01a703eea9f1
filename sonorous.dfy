/** CurpClass.ValidateAndModifySonorousWords: a four-letter code prefix that
    spells one of the words flagged by the registry's rules is altered so that
    it no longer does. */
module Sonorous {

  /** Number of entries of the `sonorousWords` list. */
  const SonorousCount := 81

  /** Entry `i` of the `sonorousWords` list. */
  function SonorousEntry(i: nat): (word: string)
    requires i < SonorousCount
    ensures |word| == 4 && word[1] != 'X' && word[0] != word[1]
  {
    match i
    case 0 => "BACA" case 1 => "BAKA" case 2 => "BUEI" case 3 => "BUEY"
    case 4 => "CACA" case 5 => "CACO" case 6 => "CAGA" case 7 => "CAGO"
    case 8 => "CAKA" case 9 => "CAKO" case 10 => "COGE" case 11 => "COGI"
    case 12 => "COJA" case 13 => "COJE" case 14 => "COJI" case 15 => "COJO"
    case 16 => "COLA" case 17 => "CULO" case 18 => "FALO" case 19 => "FETO"
    case 20 => "GETA" case 21 => "GUEI" case 22 => "GUEY" case 23 => "JETA"
    case 24 => "JOTO" case 25 => "KACA" case 26 => "KACO" case 27 => "KAGA"
    case 28 => "KAGO" case 29 => "KAKA" case 30 => "KAKO" case 31 => "KOGE"
    case 32 => "KOGI" case 33 => "KOJA" case 34 => "KOJE" case 35 => "KOJI"
    case 36 => "KOJO" case 37 => "KOLA" case 38 => "KULO" case 39 => "LILO"
    case 40 => "LOCA" case 41 => "LOCO" case 42 => "LOKA" case 43 => "LOKO"
    case 44 => "MAME" case 45 => "MAMO" case 46 => "MEAR" case 47 => "MEAS"
    case 48 => "MEON" case 49 => "MIAR" case 50 => "MION" case 51 => "MOCO"
    case 52 => "MOKO" case 53 => "MULA" case 54 => "MULO" case 55 => "NACA"
    case 56 => "NACO" case 57 => "PEDA" case 58 => "PEDO" case 59 => "PENE"
    case 60 => "PIPI" case 61 => "PITO" case 62 => "POPO" case 63 => "PUTA"
    case 64 => "PUTO" case 65 => "QULO" case 66 => "RATA" case 67 => "ROBA"
    case 68 => "ROBE" case 69 => "ROBO" case 70 => "RUIN" case 71 => "SENO"
    case 72 => "TETA" case 73 => "VACA" case 74 => "VAGA" case 75 => "VAGO"
    case 76 => "VAKA" case 77 => "VUEI" case 78 => "VUEY" case 79 => "WUEI"
    case 80 => "WUEY"
  }

  /** `sonorousWords.Contains(word)`: every flagged word has four letters, and
      none has an 'X' in second place or the same first and second letter. */
  predicate IsSonorousWord(word: string)
    ensures IsSonorousWord(word) ==> |word| == 4 && word[1] != 'X' && word[0] != word[1]
  {
    exists i :: 0 <= i < SonorousCount && SonorousEntry(i) == word
  }

  /** `String.Replace(char, char)`: every occurrence of `from` becomes `to`. */
  function ReplaceChar(s: string, from: char, to: char): (r: string)
    ensures |r| == |s|
    ensures from != to ==> from !in r
    ensures forall i :: 0 <= i < |s| && s[i] == from ==> r[i] == to
    ensures forall i :: 0 <= i < |s| && s[i] != from ==> r[i] == s[i]
  {
    seq(|s|, i requires 0 <= i < |s| => if s[i] == from then to else s[i])
  }

  /** A prefix that is not flagged is returned as it is; a flagged one has
      EVERY occurrence of its second character replaced by 'X', not only the
      one at index 1. */
  function ValidateAndModifySonorousWords(input: string): (r: string)
    ensures !IsSonorousWord(input) ==> r == input
    ensures IsSonorousWord(input) ==>
      |r| == 4 && r[0] == input[0] && r[1] == 'X' &&
      forall j :: 0 <= j < 4 ==> r[j] == if input[j] == input[1] then 'X' else input[j]
  {
    if IsSonorousWord(input) then
      ReplaceChar(input, input[1], 'X')
    else input
  }

  /** The filter never produces a flagged word, so applying it again changes nothing. */
  lemma SonorousIdempotent(input: string)
    ensures !IsSonorousWord(ValidateAndModifySonorousWords(input))
    ensures ValidateAndModifySonorousWords(ValidateAndModifySonorousWords(input))
            == ValidateAndModifySonorousWords(input)
  {
  }

  /** Both O's of "ROBO" are replaced, giving "RXBX", and both A's of "CACA", giving "CXCX". */
  lemma SonorousExamples()
    ensures ValidateAndModifySonorousWords("ROBO") == "RXBX"
    ensures ValidateAndModifySonorousWords("CACA") == "CXCX"
    ensures ValidateAndModifySonorousWords("GALM") == "GALM"
  {
    assert SonorousEntry(69) == "ROBO" && SonorousEntry(4) == "CACA";
    assert ReplaceChar("ROBO", 'O', 'X') == "RXBX";
  }
}
