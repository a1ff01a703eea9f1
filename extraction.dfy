/** CurpClass.CreateLastNameCurpDigits, CurpClass.CreateNameCurpDigits and
    CurpClass.IsLetterVowel: the letters a surname or a given name contributes
    to the code, found by a left-to-right scan after the first character. */
module Extraction {
  import opened Tokens
  import opened Wrappers

  /** `"aeiou".IndexOf(letter.ToString(), InvariantCultureIgnoreCase) >= 0`:
      the comparison lower-cases ASCII letters before looking the letter up. */
  function IsLetterVowel(letter: char): (r: bool)
    ensures r <==> letter in {'a', 'e', 'i', 'o', 'u', 'A', 'E', 'I', 'O', 'U'}
  {
    var lower := if 'A' <= letter <= 'Z' then (letter as int + 32) as char else letter;
    lower in "aeiou"
  }

  /** The `specialCharacters` list. */
  predicate IsSpecial(c: char)
    ensures IsSpecial(c) ==> !IsLetterVowel(c) && c != 'X'
  {
    c in {'/', '-', '.', '\\'}
  }

  /** How a selected character is emitted: 'Ñ' and the special characters
      become 'X', everything else is kept. */
  function MapChar(c: char): (r: char)
    ensures r == 'X' || r == c
    ensures r != c <==> c == 'Ñ' || IsSpecial(c)
  {
    if c == 'Ñ' then 'X' else if IsSpecial(c) then 'X' else c
  }

  /** The first index at or after `from` whose character is a vowel (when
      `vowel` holds) or a non-vowel (when it does not). */
  function FirstFrom(s: string, from: nat, vowel: bool): (r: Option<nat>)
    ensures r.Some? ==> from <= r.value < |s| && IsLetterVowel(s[r.value]) == vowel
    ensures r.Some? ==> forall j :: from <= j < r.value ==> IsLetterVowel(s[j]) != vowel
    ensures r.None? ==> forall j :: from <= j < |s| ==> IsLetterVowel(s[j]) != vowel
    decreases |s| - from
  {
    if from >= |s| then None
    else if IsLetterVowel(s[from]) == vowel then Some(from)
    else FirstFrom(s, from + 1, vowel)
  }

  /** Second letter of the code, taken from the paternal surname: the first
      vowel after the first character, or 'X' when there is none or when the
      first non-vowel after the first character is a special character that
      comes before every vowel. */
  function SecondLetter(s: string): (r: char)
    requires |s| > 0
    ensures (forall j :: 1 <= j < |s| ==> !IsLetterVowel(s[j])) ==> r == 'X'
    ensures |s| > 1 && IsSpecial(s[1]) ==> r == 'X'
  {
    var v := FirstFrom(s, 1, true);
    var k := FirstFrom(s, 1, false);
    if k.Some? && IsSpecial(s[k.value]) && (v.None? || k.value < v.value) then 'X'
    else if v.Some? then s[v.value]
    else 'X'
  }

  /** The differentiator a name contributes (code positions 14 to 16): the
      first non-vowel after the first character, as MapChar emits it, or 'X'
      when every later character is a vowel. */
  function InternalConsonant(s: string): (r: char)
    ensures (forall j :: 1 <= j < |s| ==> IsLetterVowel(s[j])) ==> r == 'X'
  {
    match FirstFrom(s, 1, false)
    case Some(k) => MapChar(s[k])
    case None => 'X'
  }

  /** The special-character rule can only fire at index 1: otherwise the
      second letter is simply the first vowel after the first character. */
  lemma SecondLetterIsFirstVowel(s: string, v: nat)
    requires 1 <= v < |s| && IsLetterVowel(s[v])
    requires forall j :: 1 <= j < v ==> !IsLetterVowel(s[j])
    requires !IsSpecial(s[1])
    ensures SecondLetter(s) == s[v]
  {
    var k := FirstFrom(s, 1, false);
    assert v > 1 ==> !IsLetterVowel(s[1]);
    assert k.Some? && k.value < v ==> k.value == 1;
  }

  /** The differentiator is the first non-vowel at index 1 or later. */
  lemma InternalConsonantIsFirstNonVowel(s: string, k: nat)
    requires 1 <= k < |s| && !IsLetterVowel(s[k])
    requires forall j :: 1 <= j < k ==> IsLetterVowel(s[j])
    ensures InternalConsonant(s) == MapChar(s[k])
  {
    var f := FirstFrom(s, 1, false);
    assert f.Some? && f.value == k;
  }

  /** GARCIA gives A and R; LOPEZ gives P; MARTIN gives R; in B/A the
      special character before the vowel gives X. */
  lemma ExtractionExamples()
    ensures SecondLetter("GARCIA") == 'A' && InternalConsonant("GARCIA") == 'R'
    ensures InternalConsonant("LOPEZ") == 'P'
    ensures InternalConsonant("MARTIN") == 'R'
    ensures SecondLetter("B/A") == 'X' && InternalConsonant("B/A") == 'X'
  {
    assert FirstFrom("GARCIA", 1, false) == Some(2);
    assert FirstFrom("LOPEZ", 1, false) == Some(2);
    assert FirstFrom("MARTIN", 1, false) == Some(2);
  }

  /** The paternal surname yields its first character and SecondLetter; the
      maternal one yields its first character only; both yield their
      InternalConsonant. Both flags start false; the maternal scan stops at
      the first non-vowel, the paternal one once both flags are set. */
  method CreateLastNameCurpDigits(lastName: string, isPaternalLastName: bool)
    returns (letters: string, consonant: char)
    requires |lastName| > 0
    ensures |letters| == if isPaternalLastName then 2 else 1
    ensures letters[0] == MapChar(lastName[0])
    ensures isPaternalLastName ==> letters[1] == SecondLetter(lastName)
    ensures consonant == InternalConsonant(lastName)
  {
    var consonantAdded := false;
    var vowelAdded := false;
    letters := [];
    consonant := ' ';
    ghost var v := FirstFrom(lastName, 1, true);
    ghost var k := FirstFrom(lastName, 1, false);
    letters := letters + [MapChar(lastName[0])];
    for i := 1 to |lastName|
      invariant consonantAdded <==> k.Some? && k.value < i
      invariant consonantAdded ==> consonant == MapChar(lastName[k.value])
      invariant !isPaternalLastName ==> !consonantAdded && !vowelAdded
      invariant isPaternalLastName ==>
        (vowelAdded <==> (v.Some? && v.value < i) ||
                         (k.Some? && k.value < i && IsSpecial(lastName[k.value]) && (v.None? || k.value < v.value)))
      invariant |letters| == if vowelAdded then 2 else 1
      invariant letters[0] == MapChar(lastName[0])
      invariant vowelAdded ==> letters[1] == SecondLetter(lastName)
    {
      var isVowel := IsLetterVowel(lastName[i]);
      if isVowel && !vowelAdded && isPaternalLastName {
        letters := letters + [lastName[i]];
        vowelAdded := true;
      }
      if !isVowel && !consonantAdded {
        consonant := MapChar(lastName[i]);
        consonantAdded := true;
        if isPaternalLastName {
          if IsSpecial(lastName[i]) && !vowelAdded {
            letters := letters + ['X'];
            vowelAdded := true;
          }
        } else {
          break;
        }
      }
      if vowelAdded && consonantAdded && isPaternalLastName {
        break;
      }
    }
    if !vowelAdded && isPaternalLastName {
      letters := letters + ['X'];
    }
    if !consonantAdded {
      consonant := 'X';
    }
  }

  /** Leading given names that are skipped when another name follows. */
  predicate IsHonorific(word: string)
    ensures IsHonorific(word) ==> 1 <= |word| <= 5 && (word[0] == 'M' || word[0] == 'J')
  {
    word in {"MARIA", "MA.", "MA", "JOSE", "J.", "J"}
  }

  /** The given name has the word CreateNameCurpDigits indexes into: a second
      word after an honorific first word, and a non-empty encoding word. */
  predicate HasEncodingWord(name: string) {
    var words := Split(name);
    (IsHonorific(words[0]) ==> |words| >= 2) &&
    |if IsHonorific(words[0]) then words[1] else words[0]| > 0
  }

  /** The word of the given name that is encoded. */
  function EncodingWord(name: string): (word: string)
    requires HasEncodingWord(name)
    ensures |word| > 0 && ' ' !in word
  {
    var words := Split(name);
    if IsHonorific(words[0]) then words[1] else words[0]
  }

  /** For a name built from words, the encoded word is the second one exactly
      when the first is an honorific, and the first one otherwise. */
  lemma EncodingWordOfWords(words: seq<string>)
    requires |words| >= 1 && SpaceFree(words)
    requires IsHonorific(words[0]) ==> |words| >= 2 && words[1] != []
    requires !IsHonorific(words[0]) ==> words[0] != []
    ensures HasEncodingWord(Join(words))
    ensures EncodingWord(Join(words)) == if IsHonorific(words[0]) then words[1] else words[0]
  {
    SplitJoin(words);
  }

  /** Given-name letter (code position 4) and differentiator (position 16). */
  method CreateNameCurpDigits(name: string) returns (letter: char, consonant: char)
    requires HasEncodingWord(name)
    ensures letter == MapChar(EncodingWord(name)[0])
    ensures consonant == InternalConsonant(EncodingWord(name))
  {
    var consonantAdded := false;
    consonant := ' ';
    var words := Split(name);
    var validatedName := name;
    // Split never returns an empty list, so the source's `Length > 0` test always holds.
    if IsHonorific(words[0]) {
      validatedName := words[1];
    } else {
      validatedName := words[0];
    }
    letter := MapChar(validatedName[0]);
    ghost var k := FirstFrom(validatedName, 1, false);
    for i := 1 to |validatedName|
      invariant !consonantAdded
      invariant k.None? || i <= k.value
    {
      var isVowel := IsLetterVowel(validatedName[i]);
      if !isVowel && !consonantAdded {
        consonant := MapChar(validatedName[i]);
        consonantAdded := true;
        break;
      }
    }
    if !consonantAdded {
      consonant := 'X';
    }
  }
}
