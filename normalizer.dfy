/** CurpClass.FormatCurpText and CurpClass.RemoveDierecisAndAccents: upper-case
    a name, strip accents and diaereses from its vowels, collapse runs of spaces
    and drop the Spanish filler words (prepositions, conjunctions, contractions). */
module Normalizer {
  import opened Tokens

  /** Culture-aware `ToUpper`, restricted to Basic Latin a-z and the Latin-1
      lower-case letters U+00E0..U+00FE (except the division sign U+00F7),
      which is where every accented vowel and the letter ñ live. */
  function UpperChar(c: char): (r: char)
    ensures 'a' <= c <= 'z' ==> 'A' <= r <= 'Z'
    ensures c == 'ñ' ==> r == 'Ñ'
  {
    if 'a' <= c <= 'z' || ('à' <= c <= 'þ' && c != '÷') then (c as int - 32) as char
    else c
  }

  /** `ToUpper()` on a whole text: the length is kept and every character of
      the result is already upper-case. */
  function UpperText(s: string): (r: string)
    ensures |r| == |s|
    ensures forall i :: 0 <= i < |s| ==> r[i] == UpperChar(s[i])
    ensures forall i :: 0 <= i < |r| ==> UpperChar(r[i]) == r[i]
  {
    seq(|s|, i requires 0 <= i < |s| => UpperChar(s[i]))
  }

  /** The five regex character classes of RemoveDierecisAndAccents. Each class
      is written `[Á|À|Ä|Â]`, so it also contains the literal `|`. */
  const ClassA: set<char> := {'Á', '|', 'À', 'Ä', 'Â'}
  const ClassE: set<char> := {'É', '|', 'È', 'Ë', 'Ê'}
  const ClassI: set<char> := {'Í', '|', 'Ì', 'Ï', 'Î'}
  const ClassO: set<char> := {'Ó', '|', 'Ò', 'Ö', 'Ô'}
  const ClassU: set<char> := {'Ú', '|', 'Ù', 'Ü', 'Û'}

  /** `Regex.Replace(s, "[...]", replacement)` for a one-character class. */
  function ReplaceClass(s: string, chars: set<char>, replacement: char): (r: string)
    ensures |r| == |s|
    ensures forall i :: 0 <= i < |r| ==> r[i] !in chars || r[i] == replacement
    ensures forall i :: 0 <= i < |s| && s[i] in chars ==> r[i] == replacement
    ensures forall i :: 0 <= i < |s| && s[i] !in chars ==> r[i] == s[i]
  {
    seq(|s|, i requires 0 <= i < |s| => if s[i] in chars then replacement else s[i])
  }

  /** Accented and diaeresis forms of the vowels, in both cases. */
  predicate IsAccentedVowel(c: char) {
    c in UpperAccented || c in LowerAccented
  }

  const UpperAccented: set<char> :=
    {'Á', 'À', 'Ä', 'Â', 'É', 'È', 'Ë', 'Ê', 'Í', 'Ì', 'Ï', 'Î', 'Ó', 'Ò', 'Ö', 'Ô', 'Ú', 'Ù', 'Ü', 'Û'}
  const LowerAccented: set<char> :=
    {'á', 'à', 'ä', 'â', 'é', 'è', 'ë', 'ê', 'í', 'ì', 'ï', 'î', 'ó', 'ò', 'ö', 'ô', 'ú', 'ù', 'ü', 'û'}

  /** What RemoveDierecisAndAccents does to one character: an upper-case
      accented vowel loses its accent, and `|` becomes 'A' because the A
      class is applied first. */
  function StripAccent(c: char): (r: char)
    ensures r != c ==> r in "AEIOU"
    ensures c == '|' ==> r == 'A'
  {
    if c in "ÁÀÄÂ|" then 'A'
    else if c in "ÉÈËÊ" then 'E'
    else if c in "ÍÌÏÎ" then 'I'
    else if c in "ÓÒÖÔ" then 'O'
    else if c in "ÚÙÜÛ" then 'U'
    else c
  }

  /** The five regex passes in sequence act as one character map. */
  function RemoveDierecisAndAccents(input: string): (r: string)
    ensures |r| == |input|
    ensures forall i :: 0 <= i < |input| ==> r[i] == StripAccent(input[i])
  {
    var a := ReplaceClass(input, ClassA, 'A');
    var e := ReplaceClass(a, ClassE, 'E');
    var i := ReplaceClass(e, ClassI, 'I');
    var o := ReplaceClass(i, ClassO, 'O');
    ReplaceClass(o, ClassU, 'U')
  }

  /** The per-character part of the formatting: upper-case, then strip accents. */
  function NormalChar(c: char): char {
    StripAccent(UpperChar(c))
  }

  /** Normalising a character twice is normalising it once. */
  lemma NormalCharIdempotent(c: char)
    ensures NormalChar(NormalChar(c)) == NormalChar(c)
  {
    var u := UpperChar(c);
    assert UpperChar(u) == u;
    var n := StripAccent(u);
    if n != u {
      assert n in "AEIOU";
      assert UpperChar(n) == n && StripAccent(n) == n;
    }
  }

  /** Normalisation changes every accented vowel and `|`. */
  lemma AccentedNotNormal(c: char)
    ensures IsAccentedVowel(c) || c == '|' ==> NormalChar(c) != c
  {
    if c in LowerAccented {
      assert UpperChar(c) in UpperAccented;
      assert StripAccent(UpperChar(c)) in {'A', 'E', 'I', 'O', 'U'};
    } else if c in UpperAccented {
      assert UpperChar(c) == c;
      assert StripAccent(c) in {'A', 'E', 'I', 'O', 'U'};
    }
  }

  /** Upper-case ASCII letters and the space are normal. */
  lemma PlainCharNormal(c: char)
    requires 'A' <= c <= 'Z' || c == ' '
    ensures NormalChar(c) == c
  {
  }

  predicate IsNormalText(s: string) {
    forall c :: c in s ==> NormalChar(c) == c
  }

  /** A normal text is already upper-case, so upper-casing it changes nothing. */
  lemma NormalUpperFixed(s: string)
    requires IsNormalText(s)
    ensures UpperText(s) == s
  {
    forall i | 0 <= i < |s| ensures UpperChar(s[i]) == s[i] {
      assert s[i] in s;
    }
  }

  const FillerWords: set<string> :=
    {"DA", "DAS", "DE", "DEL", "DER", "DI", "DIE", "DD",
     "EL", "LA", "LOS", "LAS", "LE", "LES", "MAC", "MC", "VAN", "VON", "Y"}

  /** `prepositionConjunctionContraction.Contains(word)`: every filler word is
      a non-empty run of capital letters. */
  predicate IsFiller(word: string)
    ensures IsFiller(word) ==> word != [] && forall c :: c in word ==> 'A' <= c <= 'Z'
  {
    word in FillerWords
  }

  /** The words that are not filler words, in their original order. */
  function Keep(words: seq<string>): (kept: seq<string>)
    ensures |kept| <= |words|
    ensures forall w :: w in kept <==> w in words && !IsFiller(w)
  {
    if words == [] then []
    else if IsFiller(words[0]) then Keep(words[1..])
    else [words[0]] + Keep(words[1..])
  }

  /** The filler words among `words`, in order and with repetitions: the
      `wordsToErase` list that FormatCurpText builds. */
  function Fillers(words: seq<string>): (erase: seq<string>)
    ensures forall w :: w in erase ==> IsFiller(w) && w in words
  {
    if words == [] then []
    else if IsFiller(words[0]) then [words[0]] + Fillers(words[1..])
    else Fillers(words[1..])
  }

  /** `List<string>.Remove(word)`: drops the first occurrence, if any. */
  function RemoveFirst(words: seq<string>, word: string): (r: seq<string>)
    ensures word !in words ==> r == words
    ensures word in words ==> |r| == |words| - 1
  {
    if words == [] then []
    else if words[0] == word then words[1..]
    else [words[0]] + RemoveFirst(words[1..], word)
  }

  /** `Remove` takes away exactly one copy of the word, or nothing when the
      word is absent. */
  lemma {:induction false} RemoveFirstMultiset(words: seq<string>, word: string)
    ensures multiset(RemoveFirst(words, word)) == multiset(words) - multiset{word}
    decreases |words|
  {
    if words != [] {
      assert words == [words[0]] + words[1..];
      RemoveFirstMultiset(words[1..], word);
    }
  }

  /** `foreach (var word in erase) list.Remove(word);` */
  function RemoveEach(words: seq<string>, erase: seq<string>): (r: seq<string>)
    ensures |r| <= |words|
    decreases |erase|
  {
    if erase == [] then words
    else RemoveEach(RemoveFirst(words, erase[0]), erase[1..])
  }

  /** Removing each word of `erase` in turn takes away one copy of each. */
  lemma {:induction false} RemoveEachMultiset(words: seq<string>, erase: seq<string>)
    ensures multiset(RemoveEach(words, erase)) == multiset(words) - multiset(erase)
    decreases |erase|
  {
    if erase != [] {
      assert erase == [erase[0]] + erase[1..];
      RemoveFirstMultiset(words, erase[0]);
      RemoveEachMultiset(RemoveFirst(words, erase[0]), erase[1..]);
    }
  }

  lemma {:induction false} FillersAppend(a: seq<string>, b: seq<string>)
    ensures Fillers(a + b) == Fillers(a) + Fillers(b)
    decreases |a|
  {
    if a != [] {
      assert (a + b)[1..] == a[1..] + b;
      FillersAppend(a[1..], b);
    } else {
      assert a + b == b;
    }
  }

  lemma {:induction false} RemoveEachSnoc(words: seq<string>, erase: seq<string>, w: string)
    ensures RemoveEach(words, erase + [w]) == RemoveFirst(RemoveEach(words, erase), w)
    decreases |erase|
  {
    if erase == [] {
      assert erase + [w] == [w];
      assert RemoveEach(RemoveFirst(words, w), []) == RemoveFirst(words, w);
    } else {
      assert (erase + [w])[1..] == erase[1..] + [w];
      RemoveEachSnoc(RemoveFirst(words, erase[0]), erase[1..], w);
    }
  }

  /** Removing words never touches a word that is not among them. */
  lemma {:induction false} RemoveEachSkips(t: string, words: seq<string>, erase: seq<string>)
    requires t !in erase
    ensures RemoveEach([t] + words, erase) == [t] + RemoveEach(words, erase)
    decreases |erase|
  {
    if erase != [] {
      assert ([t] + words)[1..] == words;
      assert RemoveFirst([t] + words, erase[0]) == [t] + RemoveFirst(words, erase[0]);
      RemoveEachSkips(t, RemoveFirst(words, erase[0]), erase[1..]);
    }
  }

  /** Removing, one first occurrence at a time, every filler word collected from
      the list leaves exactly the non-filler words, in order. */
  lemma {:induction false} RemoveFillersKeeps(words: seq<string>)
    ensures RemoveEach(words, Fillers(words)) == Keep(words)
    decreases |words|
  {
    if words != [] {
      var rest := words[1..];
      RemoveFillersKeeps(rest);
      if IsFiller(words[0]) {
        assert RemoveFirst(words, words[0]) == rest;
      } else {
        assert words == [words[0]] + rest;
        RemoveEachSkips(words[0], rest, Fillers(rest));
      }
    }
  }

  /** What FormatCurpText returns for `input`. */
  function Formatted(input: string): string {
    Join(Keep(Words(input)))
  }

  /** The words of the formatting input after accents and spaces are dealt with. */
  function Words(input: string): seq<string> {
    Split(CollapseSpaces(RemoveDierecisAndAccents(UpperText(input))))
  }

  method FormatCurpText(input: string) returns (output: string)
    ensures output == Formatted(input)
  {
    var text := RemoveDierecisAndAccents(UpperText(input));
    ghost var accentFree := text;
    while !NoDoubleSpace(text)
      invariant CollapseSpaces(text) == CollapseSpaces(accentFree)
      decreases |text|
    {
      CollapseAfterReplace(text);
      ReplaceShrinks(text);
      text := ReplaceDoubleSpaces(text);
    }
    CollapseOfNoDoubleSpace(text);
    // Split never returns an empty list, so the source's `Count > 0` test always holds.
    var words := Split(text);
    var erase: seq<string> := [];
    for i := 0 to |words|
      invariant erase == Fillers(words[..i])
    {
      FillersAppend(words[..i], [words[i]]);
      assert words[..i + 1] == words[..i] + [words[i]];
      if IsFiller(words[i]) {
        erase := erase + [words[i]];
      }
    }
    assert words[..|words|] == words;
    var kept := words;
    for j := 0 to |erase|
      invariant kept == RemoveEach(words, erase[..j])
    {
      RemoveEachSnoc(words, erase[..j], erase[j]);
      assert erase[..j + 1] == erase[..j] + [erase[j]];
      kept := RemoveFirst(kept, erase[j]);
    }
    assert erase[..|erase|] == erase;
    RemoveFillersKeeps(words);
    output := Join(kept);
  }

  lemma {:induction false} KeepIdempotent(words: seq<string>)
    ensures Keep(Keep(words)) == Keep(words)
    decreases |words|
  {
    if words != [] {
      KeepIdempotent(words[1..]);
      if !IsFiller(words[0]) {
        assert ([words[0]] + Keep(words[1..]))[1..] == Keep(words[1..]);
      }
    }
  }

  /** All but the last word non-empty survives dropping filler words. */
  lemma {:induction false} KeepAllButLastNonEmpty(words: seq<string>)
    requires forall i :: 0 <= i < |words| - 1 ==> words[i] != []
    ensures forall i :: 0 <= i < |Keep(words)| - 1 ==> Keep(words)[i] != []
    decreases |words|
  {
    if words != [] {
      var rest := words[1..];
      KeepAllButLastNonEmpty(rest);
      if !IsFiller(words[0]) {
        var k := Keep(words);
        assert k == [words[0]] + Keep(rest);
        forall i | 0 <= i < |k| - 1 ensures k[i] != [] {
          if i == 0 {
            assert |Keep(rest)| > 0;
            assert |rest| > 0;
          } else {
            assert k[i] == Keep(rest)[i - 1];
          }
        }
      }
    }
  }

  /** Dropping filler words keeps empty words at the ends only. */
  lemma KeepInnerNonEmpty(words: seq<string>)
    requires InnerNonEmpty(words)
    ensures InnerNonEmpty(Keep(words))
  {
    if words != [] {
      var rest := words[1..];
      KeepAllButLastNonEmpty(rest);
      if !IsFiller(words[0]) {
        assert Keep(words) == [words[0]] + Keep(rest);
      }
    }
  }

  lemma KeepSpaceFree(words: seq<string>)
    requires SpaceFree(words)
    ensures SpaceFree(Keep(words))
  {
    forall i | 0 <= i < |Keep(words)| ensures ' ' !in Keep(words)[i] {
      assert Keep(words)[i] in Keep(words);
    }
  }

  /** The output of the formatting has no two consecutive spaces. */
  lemma FormattedNoDoubleSpace(input: string)
    ensures NoDoubleSpace(Formatted(input))
  {
    var text := CollapseSpaces(RemoveDierecisAndAccents(UpperText(input)));
    CollapseNoDoubleSpace(RemoveDierecisAndAccents(UpperText(input)));
    SplitInnerNonEmpty(text);
    KeepInnerNonEmpty(Split(text));
    KeepSpaceFree(Split(text));
    JoinNoDoubleSpace(Keep(Split(text)));
  }

  /** The words of the output are the non-filler words of the input, in their
      original order; a name made only of filler words formats to "". */
  lemma FormattedWords(input: string)
    ensures Split(Formatted(input)) == if Keep(Words(input)) == [] then [[]] else Keep(Words(input))
    ensures forall i :: 0 <= i < |Split(Formatted(input))| ==> !IsFiller(Split(Formatted(input))[i])
  {
    var kept := Keep(Words(input));
    KeepSpaceFree(Words(input));
    if kept != [] {
      SplitJoin(kept);
    }
    assert !IsFiller([]);
    forall i | 0 <= i < |Split(Formatted(input))| ensures !IsFiller(Split(Formatted(input))[i]) {
      if kept != [] {
        assert Split(Formatted(input))[i] in kept;
      }
    }
  }

  lemma {:induction false} JoinNormal(words: seq<string>)
    requires forall i :: 0 <= i < |words| ==> IsNormalText(words[i])
    ensures IsNormalText(Join(words))
    decreases |words|
  {
    if |words| >= 2 {
      JoinNormal(words[1..]);
      assert Join(words) == words[0] + " " + Join(words[1..]);
    }
  }

  /** Every character of the output is already normal: upper-case where the
      model upper-cases, with no accented vowel and no `|`. */
  lemma FormattedNormal(input: string)
    ensures IsNormalText(Formatted(input))
  {
    var n := RemoveDierecisAndAccents(UpperText(input));
    assert IsNormalText(n) by {
      forall c | c in n ensures NormalChar(c) == c {
        var i :| 0 <= i < |n| && n[i] == c;
        NormalCharIdempotent(input[i]);
      }
    }
    var words := Keep(Split(CollapseSpaces(n)));
    forall i | 0 <= i < |words| ensures IsNormalText(words[i]) {
      assert words[i] in Split(CollapseSpaces(n));
    }
    JoinNormal(words);
  }

  /** The output contains none of the accented or diaeresis vowels. */
  lemma FormattedNoAccents(input: string)
    ensures forall i :: 0 <= i < |Formatted(input)| ==> !IsAccentedVowel(Formatted(input)[i])
  {
    FormattedNormal(input);
    forall i | 0 <= i < |Formatted(input)| ensures !IsAccentedVowel(Formatted(input)[i]) {
      assert Formatted(input)[i] in Formatted(input);
      AccentedNotNormal(Formatted(input)[i]);
    }
  }

  lemma NormalTextFixed(s: string)
    requires IsNormalText(s)
    ensures RemoveDierecisAndAccents(UpperText(s)) == s
  {
    var n := RemoveDierecisAndAccents(UpperText(s));
    forall i | 0 <= i < |s| ensures n[i] == s[i] {
      assert s[i] in s;
    }
  }

  /** Formatting an already formatted text changes nothing. */
  lemma FormattedIdempotent(input: string)
    ensures Formatted(Formatted(input)) == Formatted(input)
  {
    var f := Formatted(input);
    FormattedNormal(input);
    NormalTextFixed(f);
    FormattedNoDoubleSpace(input);
    CollapseOfNoDoubleSpace(f);
    FormattedWords(input);
    var kept := Keep(Words(input));
    if kept == [] {
      assert Keep([[]]) == [[]] by { assert !IsFiller([]); }
    } else {
      KeepIdempotent(Words(input));
    }
  }

  /** Filler words joined by single spaces give a normal text without double spaces. */
  lemma FillersJoinPlain(words: seq<string>)
    requires |words| >= 1
    requires forall i :: 0 <= i < |words| ==> IsFiller(words[i])
    ensures SpaceFree(words) && IsNormalText(Join(words)) && NoDoubleSpace(Join(words))
  {
    forall i | 0 <= i < |words| ensures IsNormalText(words[i]) && ' ' !in words[i] && words[i] != [] {
      forall c | c in words[i] ensures NormalChar(c) == c { PlainCharNormal(c); }
    }
    JoinNormal(words);
    JoinNoDoubleSpace(words);
  }

  /** A name made of filler words separated by single spaces formats to "",
      whether or not it is upper-cased first. */
  lemma OnlyFillersFormatEmpty(words: seq<string>)
    requires |words| >= 1
    requires forall i :: 0 <= i < |words| ==> IsFiller(words[i])
    ensures Formatted(Join(words)) == ""
    ensures Formatted(UpperText(Join(words))) == ""
  {
    FillersJoinPlain(words);
    var s := Join(words);
    NormalUpperFixed(s);
    NormalTextFixed(s);
    CollapseOfNoDoubleSpace(s);
    SplitJoin(words);
    KeepOnlyFillers(words);
    assert Formatted(s) == Join(Keep(Split(CollapseSpaces(s))));
  }

  lemma {:induction false} KeepOnlyFillers(words: seq<string>)
    requires forall i :: 0 <= i < |words| ==> IsFiller(words[i])
    ensures Keep(words) == []
    decreases |words|
  {
    if words != [] {
      KeepOnlyFillers(words[1..]);
    }
  }
}
