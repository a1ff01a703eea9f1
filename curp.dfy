/** CurpClass.CreateCURP, CurpClass.FullNameMatchesCurp and
    CurpClass.ValidateCurp: the first 16 characters of a CURP, built from the
    formatted names, the birth date, the sex and the federal entity, and the
    two checks of a given code against a person's data. */
module Curp {
  import opened Tokens
  import opened Normalizer
  import opened Extraction
  import opened Sonorous
  import opened Catalog

  /** A name field as the entry points prepare it: `FormatCurpText(x.ToUpper())`. */
  function FormatField(s: string): string {
    Formatted(UpperText(s))
  }

  /** The formatted names can be encoded: the paternal surname is non-empty
      and the given name has the word that is indexed. */
  predicate Encodable(n: string, p: string) {
    |p| > 0 && HasEncodingWord(n)
  }

  /** The raw names can be encoded once formatted. */
  predicate CanEncode(name: string, paternal: string) {
    Encodable(FormatField(name), FormatField(paternal))
  }

  /** Third letter: from the maternal surname, or 'X' when it formats to "".
      It is 'X' or the surname's own first letter, and never 'Ñ' or a special
      character. */
  function MaternalLetter(m: string): (r: char)
    ensures r == 'X' || (m != [] && r == m[0])
    ensures r != 'Ñ' && !IsSpecial(r)
  {
    if m == [] then 'X' else MapChar(m[0])
  }

  /** Second differentiator: from the maternal surname, or 'X' when it formats
      to "". It is 'X' or a non-vowel of the surname, and never 'Ñ' or a
      special character. */
  function MaternalConsonant(m: string): (r: char)
    ensures r == 'X' || (r in m && !IsLetterVowel(r))
    ensures r != 'Ñ' && !IsSpecial(r)
  {
    if m == [] then 'X' else InternalConsonant(m)
  }

  /** The four letters of the formatted names before the sonorous-word filter. */
  function RawLetters(n: string, p: string, m: string): (r: string)
    requires Encodable(n, p)
    ensures |r| == 4
  {
    [MapChar(p[0]), SecondLetter(p), MaternalLetter(m), MapChar(EncodingWord(n)[0])]
  }

  /** Code positions 1 to 4. */
  function NameLetters(n: string, p: string, m: string): (r: string)
    requires Encodable(n, p)
    ensures |r| == 4
  {
    ValidateAndModifySonorousWords(RawLetters(n, p, m))
  }

  /** Code positions 14 to 16: the internal consonants of the paternal surname,
      the maternal surname and the encoded given name. */
  function Differentiators(n: string, p: string, m: string): (r: string)
    requires Encodable(n, p)
    ensures |r| == 3
  {
    [InternalConsonant(p), MaternalConsonant(m), InternalConsonant(EncodingWord(n))]
  }

  /** Code positions 1 to 16 from their parts. */
  function Assemble(letters: string, birth: Date, sex: Genre, entity: FederalEntity,
                    differentiators: string): (r: string)
    requires |letters| == 4 && |differentiators| == 3
    ensures |r| == 16
    ensures r[..4] == letters
    ensures r[4..10] == DateDigits(birth)
    ensures r[10] == sex.Code()
    ensures r[11..13] == entity.Code()
    ensures r[13..] == differentiators
  {
    var r := letters + DateDigits(birth) + [sex.Code()] + entity.Code() + differentiators;
    assert r[4..10] == DateDigits(birth);
    assert r[11..13] == entity.Code();
    r
  }

  /** The code of formatted names. */
  function CodeOf(n: string, p: string, m: string,
                  birth: Date, sex: Genre, entity: FederalEntity): (r: string)
    requires Encodable(n, p)
  {
    Assemble(NameLetters(n, p, m), birth, sex, entity, Differentiators(n, p, m))
  }

  /** What CreateCURP returns. */
  function CurpOf(name: string, paternal: string, maternal: string,
                  birth: Date, sex: Genre, entity: FederalEntity): string
    requires CanEncode(name, paternal)
  {
    CodeOf(FormatField(name), FormatField(paternal), FormatField(maternal), birth, sex, entity)
  }

  /** What FullNameMatchesCurp accepts: the name positions of `curp` are those
      the formatted names produce. */
  predicate MatchesName(n: string, p: string, m: string, curp: string)
    requires Encodable(n, p) && |curp| >= 16
  {
    curp[0..4] == NameLetters(n, p, m) && curp[13..16] == Differentiators(n, p, m)
  }

  method CreateCURP(name: string, paternal: string, maternal: string,
                    birth: Date, sex: Genre, entity: FederalEntity) returns (curp: string)
    requires CanEncode(name, paternal)
    ensures curp == CurpOf(name, paternal, maternal, birth, sex, entity)
  {
    var n, p, m := FormatNames(name, paternal, maternal);
    var letters, differentiators := DeriveNameParts(n, p, m);
    curp := letters + DateDigits(birth) + [sex.Code()] + entity.Code() + differentiators;
  }

  /** `FormatCurpText(x.ToUpper())` for each of the three names. */
  method FormatNames(name: string, paternal: string, maternal: string)
    returns (n: string, p: string, m: string)
    ensures n == FormatField(name) && p == FormatField(paternal) && m == FormatField(maternal)
  {
    n := FormatCurpText(UpperText(name));
    p := FormatCurpText(UpperText(paternal));
    m := FormatCurpText(UpperText(maternal));
  }

  /** The part CreateCURP and FullNameMatchesCurp share: the letters and
      differentiators of the formatted names. */
  method DeriveNameParts(n: string, p: string, m: string)
    returns (letters: string, differentiators: string)
    requires Encodable(n, p)
    ensures letters == NameLetters(n, p, m)
    ensures differentiators == Differentiators(n, p, m)
  {
    var digits1to2, digit14 := CreateLastNameCurpDigits(p, true);
    var digit3: string;
    var digit15: char;
    if m != [] {
      digit3, digit15 := CreateLastNameCurpDigits(m, false);
    } else {
      digit3 := "X";
      digit15 := 'X';
    }
    var digit4, digit16 := CreateNameCurpDigits(n);
    assert digits1to2 + digit3 + [digit4] == RawLetters(n, p, m);
    letters := ValidateAndModifySonorousWords(digits1to2 + digit3 + [digit4]);
    differentiators := [digit14, digit15, digit16];
  }

  /** Compares code positions 1 to 4 and 14 to 16 with those the names
      produce; the date, sex and entity positions are not looked at. */
  method FullNameMatchesCurp(name: string, paternal: string, maternal: string, curp: string)
    returns (matches: bool)
    requires |curp| >= 16
    requires CanEncode(name, paternal)
    ensures matches <==> MatchesName(FormatField(name), FormatField(paternal), FormatField(maternal), curp)
  {
    var given1to4 := curp[0..4];
    var given14to16 := curp[13..16];
    var n, p, m := FormatNames(name, paternal, maternal);
    var letters, differentiators := DeriveNameParts(n, p, m);
    matches := given1to4 == letters && given14to16 == differentiators;
  }

  /** Compares the first 16 characters of `candidate` with the generated code;
      anything after them is ignored. */
  method ValidateCurp(name: string, paternal: string, maternal: string,
                      birth: Date, sex: Genre, entity: FederalEntity, candidate: string)
    returns (ok: bool)
    requires CanEncode(name, paternal)
    requires |candidate| >= 16
    ensures ok <==> candidate[..16] == CurpOf(name, paternal, maternal, birth, sex, entity)
  {
    var generated := CreateCURP(name, paternal, maternal, birth, sex, entity);
    ok := generated == candidate[0..16];
  }

  /** A generated code, followed by anything, passes both checks. */
  lemma GeneratedCodeAccepted(n: string, p: string, m: string,
                              birth: Date, sex: Genre, entity: FederalEntity, suffix: string)
    requires Encodable(n, p)
    ensures (CodeOf(n, p, m, birth, sex, entity) + suffix)[..16] == CodeOf(n, p, m, birth, sex, entity)
    ensures MatchesName(n, p, m, CodeOf(n, p, m, birth, sex, entity) + suffix)
  {
    var c := CodeOf(n, p, m, birth, sex, entity);
    var cs := c + suffix;
    assert cs[0..4] == c[..4];
    assert cs[13..16] == c[13..];
  }

  /** The round trip through the entry points: the code CreateCURP returns,
      followed by anything, is accepted by ValidateCurp with the same data and
      by FullNameMatchesCurp with the same names. */
  lemma CreatedCodeAccepted(name: string, paternal: string, maternal: string,
                            birth: Date, sex: Genre, entity: FederalEntity, suffix: string)
    requires CanEncode(name, paternal)
    ensures (CurpOf(name, paternal, maternal, birth, sex, entity) + suffix)[..16]
            == CurpOf(name, paternal, maternal, birth, sex, entity)
    ensures MatchesName(FormatField(name), FormatField(paternal), FormatField(maternal),
                        CurpOf(name, paternal, maternal, birth, sex, entity) + suffix)
  {
    GeneratedCodeAccepted(FormatField(name), FormatField(paternal), FormatField(maternal),
                          birth, sex, entity, suffix);
  }

  /** Comparing positions 1 to 4 and 14 to 16 with an assembled code is
      comparing them with its letters and differentiators. */
  lemma AssembledNamePositions(letters: string, birth: Date, sex: Genre, entity: FederalEntity,
                               differentiators: string, curp: string)
    requires |letters| == 4 && |differentiators| == 3 && |curp| >= 16
    ensures var c := Assemble(letters, birth, sex, entity, differentiators);
            (curp[0..4] == letters && curp[13..16] == differentiators)
            <==> (curp[..4] == c[..4] && curp[13..16] == c[13..16])
  {
    var c := Assemble(letters, birth, sex, entity, differentiators);
    assert c[13..16] == c[13..];
  }

  /** The name check accepts exactly the codes that agree with a generated
      code on the name positions, whatever date, sex and entity it was
      generated with. */
  lemma MatchesNameIffNamePositions(n: string, p: string, m: string,
                                    birth: Date, sex: Genre, entity: FederalEntity, curp: string)
    requires Encodable(n, p) && |curp| >= 16
    ensures MatchesName(n, p, m, curp) <==>
      var c := CodeOf(n, p, m, birth, sex, entity);
      curp[..4] == c[..4] && curp[13..16] == c[13..16]
  {
    AssembledNamePositions(NameLetters(n, p, m), birth, sex, entity, Differentiators(n, p, m), curp);
  }

  /** A code that validates also matches the names. */
  lemma ValidatedMatchesName(n: string, p: string, m: string,
                             birth: Date, sex: Genre, entity: FederalEntity, candidate: string)
    requires Encodable(n, p) && |candidate| >= 16
    requires candidate[..16] == CodeOf(n, p, m, birth, sex, entity)
    ensures MatchesName(n, p, m, candidate)
  {
    var c := CodeOf(n, p, m, birth, sex, entity);
    assert candidate[0..4] == c[..4];
    assert candidate[13..16] == c[13..];
  }

  /** The code starts with the first character of the paternal surname (an
      'Ñ' or special character written as 'X'), and its second letter is the
      paternal one unless the filter replaced it with 'X'. */
  lemma LeadingLetters(n: string, p: string, m: string,
                       birth: Date, sex: Genre, entity: FederalEntity)
    requires Encodable(n, p)
    ensures var r := CodeOf(n, p, m, birth, sex, entity);
            r[0] == MapChar(p[0]) && (r[1] == SecondLetter(p) || r[1] == 'X')
  {
    var raw := RawLetters(n, p, m);
    var letters := ValidateAndModifySonorousWords(raw);
    var r := Assemble(letters, birth, sex, entity, Differentiators(n, p, m));
    assert r[0] == letters[0] && r[1] == letters[1];
    assert letters[0] == raw[0];
    assert letters[1] == raw[1] || letters[1] == 'X';
  }

  /** A maternal surname that formats to "" puts 'X' in positions 3 and 15. */
  lemma MissingMaternalSurname(n: string, p: string,
                               birth: Date, sex: Genre, entity: FederalEntity)
    requires Encodable(n, p)
    ensures var r := CodeOf(n, p, [], birth, sex, entity);
            r[2] == 'X' && r[14] == 'X'
  {
    var r := CodeOf(n, p, [], birth, sex, entity);
    assert r[2] == r[..4][2] && r[14] == r[13..][1];
  }

  /** Positions 5 to 13 are digits for the date, 'H' or 'M' for the sex and
      two capital letters for the entity. */
  lemma CodeShape(n: string, p: string, m: string,
                  birth: Date, sex: Genre, entity: FederalEntity)
    requires Encodable(n, p)
    ensures var r := CodeOf(n, p, m, birth, sex, entity);
            (forall i :: 4 <= i < 10 ==> '0' <= r[i] <= '9')
            && (r[10] == 'H' || r[10] == 'M')
            && 'A' <= r[11] <= 'Z' && 'A' <= r[12] <= 'Z'
  {
    var r := CodeOf(n, p, m, birth, sex, entity);
    forall i | 4 <= i < 10 ensures '0' <= r[i] <= '9' {
      assert r[i] == r[4..10][i - 4];
    }
    assert r[11] == r[11..13][0] && r[12] == r[11..13][1];
  }

  /** The name positions of a code are never a flagged word. */
  lemma NoFlaggedPrefix(n: string, p: string, m: string,
                        birth: Date, sex: Genre, entity: FederalEntity)
    requires Encodable(n, p)
    ensures !IsSonorousWord(CodeOf(n, p, m, birth, sex, entity)[..4])
  {
    SonorousIdempotent(RawLetters(n, p, m));
  }

  /** A maternal surname that formats to "" (for instance one made only of
      filler words, see OnlyFillersFormatEmpty) puts 'X' in positions 3 and 15
      of the code CreateCURP returns. */
  lemma EmptyMaternalSurname(name: string, paternal: string, maternal: string,
                             birth: Date, sex: Genre, entity: FederalEntity)
    requires CanEncode(name, paternal) && FormatField(maternal) == []
    ensures var r := CurpOf(name, paternal, maternal, birth, sex, entity);
            r[2] == 'X' && r[14] == 'X'
  {
    MissingMaternalSurname(FormatField(name), FormatField(paternal), birth, sex, entity);
  }
}
