# CURP encoder

A Dafny model of `CurpClass`, a C# library that builds the first 16 characters of a
Mexican CURP (Clave Única de Registro de Población). It can also check a given code
against a person's data.

The code is computed in stages:

1. Each name is normalised by `FormatCurpText`. The text is upper-cased. Accents and
   diaereses are stripped from the vowels by `RemoveDierecisAndAccents`. Runs of
   spaces are collapsed, and filler words such as DE, DEL, LA and Y are dropped.
2. `CreateLastNameCurpDigits` scans each surname. The paternal surname gives its first
   letter and its first inner vowel. The maternal surname gives its first letter.
   Each surname also gives an "internal consonant".
3. `CreateNameCurpDigits` scans the given name. A leading MARIA, MA., MA, JOSE, J. or
   J is skipped. The encoded word gives its first letter and its internal consonant.
4. `ValidateAndModifySonorousWords` checks the four letters against a table of
   offensive words. A flagged prefix has its second letter replaced by 'X'.
5. `CreateCURP` assembles 4 letters + yyMMdd + sex + entity code + 3 consonants.
   `ValidateCurp` compares a candidate's first 16 characters with that code.
   `FullNameMatchesCurp` compares only the name-derived positions 1–4 and 14–16.

The model is split into modules:

- `Tokens`: space collapsing, `Split(' ')` and `String.Join(" ", …)`.
- `Normalizer`: `FormatCurpText` and `RemoveDierecisAndAccents`.
- `Extraction`: the vowel test, the character mapping, and the two scanning routines.
- `Sonorous`: the offensive-word filter.
- `Catalog`: `Genres`, `FederalEntities` and the date digits.
- `Curp`: the three public entry points.

Routines that loop in the source are methods proved equal to a specification function:

- `FormatCurpText` has a `while` loop and two `foreach` loops.
- The two scanning routines have flag-driven `for` loops with `break`.

Straight-line routines are functions. The public entry points are methods that call
the loop methods. Their results are tied to `Curp.CurpOf` and `Curp.MatchesName`, and
lemmas state the layout and round-trip properties of those.

The code at `CurpValidator/CurpClass.cs:287` is `input.Replace(input[1], 'X')`, which replaces
every occurrence of the second character, not only the one at index 1. So "ROBO"
gives "RXBX" and "CACA" gives "CXCX".

## Model

| member | source | states |
|---|---|---|
| Tokens.ReplaceDoubleSpaces | CurpValidator/CurpClass.cs:177 | one `Replace("  ", " ")` pass never makes the text longer and keeps its first character |
| Tokens.CollapseSpaces | CurpValidator/CurpClass.cs:175-178 | the text the replace loop converges to is no longer than the input, keeps its first character and has no character the input lacks |
| Tokens.CollapseNoDoubleSpace | CurpValidator/CurpClass.cs:175 | the collapsed text satisfies the loop's exit condition: no two consecutive spaces |
| Tokens.CollapseOfNoDoubleSpace | CurpValidator/CurpClass.cs:175-178 | a text without double spaces is what the loop returns when it does not iterate |
| Tokens.CollapseAfterReplace | CurpValidator/CurpClass.cs:175-178 | each `Replace` pass leaves the collapsed text unchanged (the loop invariant) |
| Tokens.ReplaceShrinks | CurpValidator/CurpClass.cs:175-178 | while a double space remains, a pass makes the text strictly shorter, so the loop ends |
| Tokens.Split | CurpValidator/CurpClass.cs:180 | `Split(' ')` yields at least one piece, no piece has a space, and every character of a piece is in the text |
| Tokens.JoinSplit | CurpValidator/CurpClass.cs:180 | joining the pieces of a split with single spaces gives the text back |
| Tokens.Join | CurpValidator/CurpClass.cs:195 | `String.Join(" ", …)`: the first word is a prefix of the result, and each further word adds at least its separating space |
| Tokens.SplitJoin | CurpValidator/CurpClass.cs:180 | splitting the join of a non-empty list of space-free words gives the words back |
| Tokens.SplitInnerNonEmpty | CurpValidator/CurpClass.cs:180 | in a text without double spaces, empty pieces occur only at the two ends |
| Tokens.JoinNoDoubleSpace | CurpValidator/CurpClass.cs:195 | space-free words whose inner words are non-empty join without double spaces |
| Normalizer.UpperChar | CurpValidator/CurpClass.cs:174 | `ToUpper` maps a–z to A–Z and ñ to Ñ |
| Normalizer.UpperText | CurpValidator/CurpClass.cs:174 | `ToUpper()` sends each character to its upper-case form (UpperChar), keeping the length, so every character of the result is already upper-case |
| Normalizer.NormalUpperFixed | CurpValidator/CurpClass.cs:174 | upper-casing a normalised text changes nothing |
| Normalizer.StripAccent | CurpValidator/CurpClass.cs:238-247 | a character is changed only into one of A, E, I, O, U, and a `|` becomes 'A' |
| Normalizer.ReplaceClass | CurpValidator/CurpClass.cs:243-247 | one `Regex.Replace` keeps the length, turns every character of the class into the replacement, and keeps every character outside the class |
| Normalizer.RemoveDierecisAndAccents | CurpValidator/CurpClass.cs:234-255 | the five regex passes keep the length and act character by character as StripAccent |
| Normalizer.NormalCharIdempotent | CurpValidator/CurpClass.cs:174 | upper-casing then stripping accents twice gives the same as once |
| Normalizer.AccentedNotNormal | CurpValidator/CurpClass.cs:238-242 | every accented or diaeresis vowel, in either case, and `|` is changed by the per-character stage |
| Normalizer.NormalTextFixed | CurpValidator/CurpClass.cs:174 | a text whose characters are all normal is left unchanged by upper-casing and accent stripping |
| Normalizer.Keep | CurpValidator/CurpClass.cs:181-193 | a word is kept exactly when it occurs and is not a filler word |
| Normalizer.IsFiller | CurpValidator/CurpClass.cs:171-172 | membership in the 19-word `prepositionConjunctionContraction` list; every filler word is a non-empty run of capital letters |
| Normalizer.RemoveFirst | CurpValidator/CurpClass.cs:193 | `List.Remove` leaves a list without the word unchanged and otherwise shortens it by one |
| Normalizer.RemoveFirstMultiset | CurpValidator/CurpClass.cs:193 | `List.Remove` takes away exactly one copy of the word, or nothing when it is absent |
| Normalizer.RemoveEach | CurpValidator/CurpClass.cs:191-194 | the second `foreach` never lengthens the list |
| Normalizer.RemoveEachMultiset | CurpValidator/CurpClass.cs:191-194 | the second `foreach` takes away one copy of each word of `wordsToErase` |
| Normalizer.Fillers | CurpValidator/CurpClass.cs:183-190 | every word of the `wordsToErase` list is a filler word taken from the input |
| Normalizer.RemoveFillersKeeps | CurpValidator/CurpClass.cs:183-193 | removing the first occurrence of each collected filler word, in turn, leaves exactly the non-filler words in order |
| Normalizer.KeepIdempotent | CurpValidator/CurpClass.cs:181-193 | dropping filler words a second time changes nothing |
| Normalizer.KeepInnerNonEmpty | CurpValidator/CurpClass.cs:181-193 | dropping filler words does not bring empty pieces into the middle |
| Normalizer.FormatCurpText | CurpValidator/CurpClass.cs:166-207 | the loops compute Formatted: upper-case, strip accents, collapse spaces, split, drop filler words, join |
| Normalizer.FormattedNoDoubleSpace | CurpValidator/CurpClass.cs:175-194 | the formatted text has no two consecutive spaces |
| Normalizer.FormattedNormal | CurpValidator/CurpClass.cs:174-175 | every character of the formatted text is already normal |
| Normalizer.FormattedNoAccents | CurpValidator/CurpClass.cs:238-247 | the formatted text has no accented or diaeresis vowel |
| Normalizer.FormattedWords | CurpValidator/CurpClass.cs:180-194 | the words of the formatted text are the non-filler words of the input in their original order, and none is a filler word |
| Normalizer.FormattedIdempotent | CurpValidator/CurpClass.cs:166-207 | formatting a formatted text changes nothing |
| Normalizer.OnlyFillersFormatEmpty | CurpValidator/CurpClass.cs:171-194 | filler words joined by spaces format to "", upper-cased first or not |
| Extraction.IsLetterVowel | CurpValidator/CurpClass.cs:215-226 | a character is a vowel exactly when it is a, e, i, o or u in either case |
| Extraction.MapChar | CurpValidator/CurpClass.cs:59 | an emitted character is 'X' when the source character is 'Ñ' or one of `/ - . \`, and the source character otherwise |
| Extraction.IsSpecial | CurpValidator/CurpClass.cs:31 | membership in `specialCharacters`; no special character is a vowel or 'X' |
| Extraction.FirstFrom | CurpValidator/CurpClass.cs:60-68 | the first index at or after a start whose character is (or is not) a vowel, or none when there is no such index |
| Extraction.SecondLetter | CurpValidator/CurpClass.cs:60-93 | the second code letter is 'X' when no vowel follows the first character, and 'X' when the second character is special |
| Extraction.InternalConsonant | CurpValidator/CurpClass.cs:68-71 | the differentiator is 'X' when every character after the first is a vowel |
| Extraction.SecondLetterIsFirstVowel | CurpValidator/CurpClass.cs:63-78 | when the second character is not special, the second code letter is the first vowel at index 1 or later |
| Extraction.InternalConsonantIsFirstNonVowel | CurpValidator/CurpClass.cs:68-71 | the differentiator is the mapped first non-vowel at index 1 or later |
| Extraction.ExtractionExamples | CurpValidator/CurpClass.cs:59-97 | GARCIA gives A and R, LOPEZ gives P, MARTIN gives R, and B/A gives X for both |
| Extraction.CreateLastNameCurpDigits | CurpValidator/CurpClass.cs:49-104 | the scan emits 2 letters for a paternal and 1 for a maternal surname: the mapped first character, then SecondLetter, plus the InternalConsonant |
| Extraction.EncodingWord | CurpValidator/CurpClass.cs:121-133 | the encoded word of a given name is non-empty and has no space |
| Extraction.IsHonorific | CurpValidator/CurpClass.cs:125-126 | the first word is MARIA, MA., MA, JOSE, J. or J; each has 1 to 5 characters and starts with M or J |
| Extraction.EncodingWordOfWords | CurpValidator/CurpClass.cs:121-133 | for a name made of words, the encoded word is the second word exactly when the first is MARIA, MA., MA, JOSE, J. or J |
| Extraction.CreateNameCurpDigits | CurpValidator/CurpClass.cs:114-158 | the scan emits the mapped first character and the InternalConsonant of the encoded word |
| Sonorous.SonorousEntry | CurpValidator/CurpClass.cs:267-285 | the 81 entries of `sonorousWords` in their order; each has four letters, no 'X' in second place, and different first and second letters |
| Sonorous.IsSonorousWord | CurpValidator/CurpClass.cs:287 | `sonorousWords.Contains`: a flagged word has four letters, no 'X' in second place, and different first and second letters |
| Sonorous.ReplaceChar | CurpValidator/CurpClass.cs:287 | `Replace(char, char)` keeps the length, turns every occurrence of the replaced character into the new one (so none is left), and keeps every other character |
| Sonorous.ValidateAndModifySonorousWords | CurpValidator/CurpClass.cs:263-294 | a word not in the table is returned unchanged; a table word has every occurrence of its second letter replaced by 'X' and keeps its first letter |
| Sonorous.SonorousIdempotent | CurpValidator/CurpClass.cs:287 | the filter never returns a table word, so applying it twice is applying it once |
| Sonorous.SonorousExamples | CurpValidator/CurpClass.cs:287 | ROBO gives RXBX, CACA gives CXCX and GALM is unchanged |
| Catalog.Genre.Code | CurpValidator/CurpClass.cs:14-18 | Male is 'H' and Female is 'M' |
| Catalog.GenreOfCode | CurpValidator/CurpClass.cs:14-18 | only 'H' and 'M' read back as a sex |
| Catalog.GenreCodeRoundTrip | CurpValidator/CurpClass.cs:14-18 | reading a sex's code back gives the sex |
| Catalog.FederalEntity.Code | CurpValidator/CurpClass.cs:454-493 | each entity's code is two capital letters |
| Catalog.TwoDigits | CurpValidator/CurpClass.cs:342 | a number below 100 is written as two decimal digits |
| Catalog.TwoDigitsRoundTrip | CurpValidator/CurpClass.cs:342 | the two digits read back as the number |
| Catalog.DateDigits | CurpValidator/CurpClass.cs:342 | `yy`, `MM` and `dd` give six decimal digits |
| Catalog.DateDigitsRoundTrip | CurpValidator/CurpClass.cs:342 | the six digits read back as the year modulo 100, the month and the day |
| Curp.MaternalLetter | CurpValidator/CurpClass.cs:327-335 | the third letter is 'X' or the maternal surname's own first letter, and never 'Ñ' or one of `/ - . \` |
| Curp.MaternalConsonant | CurpValidator/CurpClass.cs:327-335 | the second differentiator is 'X' or a non-vowel of the maternal surname, and never 'Ñ' or one of `/ - . \` |
| Curp.Assemble | CurpValidator/CurpClass.cs:341-350 | the code has 16 characters: 4 letters, yyMMdd, the sex character, the entity code, then the 3 differentiators |
| Curp.FormatNames | CurpValidator/CurpClass.cs:317-319 | each name is formatted after upper-casing |
| Curp.DeriveNameParts | CurpValidator/CurpClass.cs:321-341 | the letters are the filtered first letters of the surnames and the given name, and the differentiators are the three internal consonants |
| Curp.CreateCURP | CurpValidator/CurpClass.cs:312-357 | the result is CurpOf of the arguments |
| Curp.FullNameMatchesCurp | CurpValidator/CurpClass.cs:368-414 | the result is true exactly when positions 1–4 and 14–16 equal those the names produce |
| Curp.ValidateCurp | CurpValidator/CurpClass.cs:428-439 | the result is true exactly when the first 16 characters of the candidate equal the generated code |
| Curp.GeneratedCodeAccepted | CurpValidator/CurpClass.cs:401-407 | a code built from formatted names, followed by anything, has that code as its first 16 characters and matches the names |
| Curp.CreatedCodeAccepted | CurpValidator/CurpClass.cs:432 | what CreateCURP returns, followed by any suffix, passes ValidateCurp with the same data and FullNameMatchesCurp with the same names, for any date, sex and entity |
| Curp.MatchesNameIffNamePositions | CurpValidator/CurpClass.cs:372-373 | the name check holds exactly when a code agrees with a generated code on positions 1–4 and 14–16, whatever its date, sex and entity |
| Curp.ValidatedMatchesName | CurpValidator/CurpClass.cs:401-407 | a candidate that validates against a person also matches that person's names |
| Curp.LeadingLetters | CurpValidator/CurpClass.cs:321-341 | the code starts with the mapped first character of the paternal surname, and its second letter is SecondLetter unless the filter made it 'X' |
| Curp.MissingMaternalSurname | CurpValidator/CurpClass.cs:327-335 | an empty formatted maternal surname puts 'X' at positions 3 and 15 |
| Curp.EmptyMaternalSurname | CurpValidator/CurpClass.cs:317-335 | a maternal surname that formats to "" puts 'X' at positions 3 and 15 of CreateCURP's result |
| Curp.CodeShape | CurpValidator/CurpClass.cs:342-344 | positions 5–10 are digits, position 11 is 'H' or 'M', and positions 12–13 are capital letters |
| Curp.NoFlaggedPrefix | CurpValidator/CurpClass.cs:341 | the first four characters of a code are never a table word |

## Left out

- Culture-aware `ToUpper` is modelled only on a–z and the Latin-1 lower-case letters à–þ (except ÷). Every other character, from any other script, is left unchanged.
- Extraction.IsLetterVowel: `IndexOf` with `InvariantCultureIgnoreCase` is modelled as an ASCII case-insensitive lookup. The culture comparison's treatment of ignorable characters, such as the soft hyphen, is not modelled.
- Strings are sequences of Unicode scalar values. UTF-16 surrogate pairs, which the source indexes as two `char`s, are not modelled.
- `DateTime` is reduced to year 1–9999, month 1–12 and day 1–31. Whether the day exists in that month, and calendars other than the Gregorian one, are not modelled.
- The try/catch-rethrow blocks and `CurpGenerationErrorException` are left out, because nothing throws that exception.
- The source's out-of-range crashes become preconditions. They are an empty formatted paternal surname (`lastName[0]`), a given name with no encodable word (`compountName[1]`, `validatedName[0]`), and a candidate shorter than 16 characters (`Substring`).
- `null` arguments are not modelled.
- Positions 17–18 of a CURP are left out, because the source neither computes nor checks them.
- The `FederalEntities` class, with its private constructor and per-entity getters, is modelled as an enumeration with a two-letter `Code`.
- The code is not checked to consist of A–Z and digits, because the source does not check it either. Any character that survives formatting, such as a digit or an accented consonant, is emitted as it is.
- `Regex` and the `RegexOptions.Compiled` engine are modelled only by what their five one-character classes do.
