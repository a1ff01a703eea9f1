/** Word and space handling used by CurpClass.FormatCurpText: one call of
    `Replace("  ", " ")`, the text its repeat-until-no-double-space loop
    converges to, and `Split(' ')` / `String.Join(" ", ...)`. */
module Tokens {

  /** No two consecutive spaces anywhere in `s`. */
  predicate NoDoubleSpace(s: string) {
    forall i :: 0 <= i < |s| - 1 ==> s[i] != ' ' || s[i + 1] != ' '
  }

  /** One call of the ordinal `Replace("  ", " ")`: a left-to-right scan that
      turns each non-overlapping pair of spaces into one space. */
  function ReplaceDoubleSpaces(s: string): (r: string)
    ensures |r| <= |s|
    ensures |s| > 0 ==> |r| > 0 && r[0] == s[0]
  {
    if |s| < 2 then s
    else if s[0] == ' ' && s[1] == ' ' then " " + ReplaceDoubleSpaces(s[2..])
    else [s[0]] + ReplaceDoubleSpaces(s[1..])
  }

  /** The text with every run of spaces shortened to a single space: a space is
      dropped exactly when the next character is a space too. */
  function CollapseSpaces(s: string): (r: string)
    ensures |r| <= |s|
    ensures |s| > 0 ==> |r| > 0 && r[0] == s[0]
    ensures forall c :: c in r ==> c in s
  {
    if |s| < 2 then s
    else if s[0] == ' ' && s[1] == ' ' then CollapseSpaces(s[1..])
    else [s[0]] + CollapseSpaces(s[1..])
  }

  lemma CollapseCons(c: char, x: string)
    ensures CollapseSpaces([c] + x) ==
            if c == ' ' && |x| > 0 && x[0] == ' ' then CollapseSpaces(x) else [c] + CollapseSpaces(x)
  {
    assert ([c] + x)[1..] == x;
  }

  /** The collapsed text has no double space. */
  lemma {:induction false} CollapseNoDoubleSpace(s: string)
    ensures NoDoubleSpace(CollapseSpaces(s))
    decreases |s|
  {
    if |s| >= 2 {
      var t := s[1..];
      CollapseNoDoubleSpace(t);
      if !(s[0] == ' ' && s[1] == ' ') {
        NoDoubleSpaceConcat([s[0]], CollapseSpaces(t));
      }
    }
  }

  /** A text without double spaces is left as it is. */
  lemma {:induction false} CollapseOfNoDoubleSpace(s: string)
    requires NoDoubleSpace(s)
    ensures CollapseSpaces(s) == s
    decreases |s|
  {
    if |s| >= 2 {
      var t := s[1..];
      assert NoDoubleSpace(t) by {
        forall i | 0 <= i < |t| - 1 ensures t[i] != ' ' || t[i + 1] != ' ' {
          assert t[i] == s[i + 1] && t[i + 1] == s[i + 2];
        }
      }
      CollapseOfNoDoubleSpace(t);
      assert s == [s[0]] + t;
    }
  }

  /** One `Replace` pass does not change what the loop converges to. */
  lemma {:induction false} CollapseAfterReplace(s: string)
    ensures CollapseSpaces(ReplaceDoubleSpaces(s)) == CollapseSpaces(s)
    decreases |s|
  {
    if |s| < 2 {
    } else if s[0] == ' ' && s[1] == ' ' {
      var t := s[2..];
      CollapseAfterReplace(t);
      CollapseCons(' ', ReplaceDoubleSpaces(t));
      CollapseCons(' ', t);
      assert s[1..] == [' '] + t;
      assert " " + ReplaceDoubleSpaces(t) == [' '] + ReplaceDoubleSpaces(t);
    } else {
      var t := s[1..];
      CollapseAfterReplace(t);
      CollapseCons(s[0], ReplaceDoubleSpaces(t));
      CollapseCons(s[0], t);
    }
  }

  /** While a double space remains, a `Replace` pass makes the text shorter. */
  lemma {:induction false} ReplaceShrinks(s: string)
    requires !NoDoubleSpace(s)
    ensures |ReplaceDoubleSpaces(s)| < |s|
    decreases |s|
  {
    if !(s[0] == ' ' && s[1] == ' ') {
      var i :| 0 <= i < |s| - 1 && s[i] == ' ' && s[i + 1] == ' ';
      var t := s[1..];
      assert t[i - 1] == ' ' && t[i] == ' ';
      ReplaceShrinks(t);
    }
  }

  lemma NoDoubleSpaceConcat(a: string, b: string)
    requires NoDoubleSpace(a) && NoDoubleSpace(b)
    requires |a| > 0 && |b| > 0 ==> a[|a| - 1] != ' ' || b[0] != ' '
    ensures NoDoubleSpace(a + b)
  {
    var ab := a + b;
    forall i | 0 <= i < |ab| - 1 ensures ab[i] != ' ' || ab[i + 1] != ' ' {
      if i < |a| - 1 {
        assert ab[i] == a[i] && ab[i + 1] == a[i + 1];
      } else if i == |a| - 1 {
        assert ab[i] == a[i] && ab[i + 1] == b[0];
      } else {
        assert ab[i] == b[i - |a|] && ab[i + 1] == b[i - |a| + 1];
      }
    }
  }

  /** `Split(' ')`: the maximal space-free pieces of `s`, empty ones included,
      so that a text always has at least one word. */
  function Split(s: string): (words: seq<string>)
    ensures |words| >= 1
    ensures SpaceFree(words)
    ensures forall i, c :: 0 <= i < |words| && c in words[i] ==> c in s
  {
    if s == [] then [[]]
    else
      var rest := Split(s[1..]);
      assert forall c :: c in s[1..] ==> c in s;
      if s[0] == ' ' then [[]] + rest
      else [[s[0]] + rest[0]] + rest[1..]
  }

  /** `String.Join(" ", words)`: the first word is a prefix of the result,
      and each later word adds at least its separating space. */
  function Join(words: seq<string>): (r: string)
    ensures |words| > 0 ==> |r| >= |words[0]| + |words| - 1 && r[..|words[0]|] == words[0]
  {
    if |words| == 0 then []
    else if |words| == 1 then words[0]
    else words[0] + " " + Join(words[1..])
  }

  predicate SpaceFree(words: seq<string>) {
    forall i :: 0 <= i < |words| ==> ' ' !in words[i]
  }

  /** Every word but the first and the last is non-empty. */
  predicate InnerNonEmpty(words: seq<string>) {
    forall i :: 0 < i < |words| - 1 ==> words[i] != []
  }

  /** Joining the pieces of a split gives back the text. */
  lemma {:induction false} JoinSplit(s: string)
    ensures Join(Split(s)) == s
    decreases |s|
  {
    if s != [] {
      var rest := Split(s[1..]);
      JoinSplit(s[1..]);
      if s[0] == ' ' {
        assert Split(s) == [[]] + rest;
        assert Split(s)[1..] == rest;
        assert s == " " + s[1..];
      } else if |rest| == 1 {
        assert s == [s[0]] + s[1..];
      } else {
        assert Split(s)[1..] == rest[1..];
        assert Join(rest) == rest[0] + " " + Join(rest[1..]);
        assert s == [s[0]] + s[1..];
      }
    }
  }

  lemma {:induction false} SplitPrepend(a: string, t: string)
    requires ' ' !in a
    ensures Split(a + t) == [a + Split(t)[0]] + Split(t)[1..]
    decreases |a|
  {
    if a == [] {
      assert a + t == t;
      assert a + Split(t)[0] == Split(t)[0];
      assert [a + Split(t)[0]] + Split(t)[1..] == Split(t);
    } else {
      var a' := a[1..];
      assert (a + t)[1..] == a' + t;
      assert ' ' !in a' by {
        forall c | c in a' ensures c != ' ' { assert c in a; }
      }
      SplitPrepend(a', t);
      assert [a[0]] + (a' + Split(t)[0]) == a + Split(t)[0];
    }
  }

  /** Splitting the join of space-free words gives back the words. */
  lemma {:induction false} SplitJoin(words: seq<string>)
    requires |words| >= 1 && SpaceFree(words)
    ensures Split(Join(words)) == words
    decreases |words|
  {
    if |words| == 1 {
      SplitPrepend(words[0], []);
      assert words[0] + [] == words[0];
    } else {
      var rest := words[1..];
      SplitJoin(rest);
      var tail := " " + Join(rest);
      assert tail[1..] == Join(rest);
      assert Split(tail) == [[]] + rest;
      SplitPrepend(words[0], tail);
      assert words[0] + tail == Join(words);
      assert words[0] + [] == words[0];
      assert Split(tail)[1..] == rest;
    }
  }

  /** Splitting a text without double spaces leaves empty words only at the
      two ends, and only at the far end when the text does not start with a space. */
  lemma {:induction false} SplitInnerNonEmpty(s: string)
    requires NoDoubleSpace(s)
    ensures InnerNonEmpty(Split(s))
    ensures s != [] && s[0] != ' ' ==> forall i :: 0 <= i < |Split(s)| - 1 ==> Split(s)[i] != []
    decreases |s|
  {
    if s != [] {
      var t := s[1..];
      assert NoDoubleSpace(t) by {
        forall i | 0 <= i < |t| - 1 ensures t[i] != ' ' || t[i + 1] != ' ' {
          assert t[i] == s[i + 1] && t[i + 1] == s[i + 2];
        }
      }
      SplitInnerNonEmpty(t);
      var rest := Split(t);
      if s[0] == ' ' {
        assert t != [] ==> t[0] != ' ';
        assert Split(s) == [[]] + rest;
      } else {
        assert Split(s) == [[s[0]] + rest[0]] + rest[1..];
      }
    }
  }

  /** Space-free words whose inner words are non-empty join without double spaces. */
  lemma {:induction false} JoinNoDoubleSpace(words: seq<string>)
    requires SpaceFree(words) && InnerNonEmpty(words)
    ensures NoDoubleSpace(Join(words))
    decreases |words|
  {
    if |words| == 1 {
      assert forall c :: c in words[0] ==> c != ' ';
    } else if |words| >= 2 {
      var rest := words[1..];
      assert InnerNonEmpty(rest) by {
        forall i | 0 < i < |rest| - 1 ensures rest[i] != [] { assert rest[i] == words[i + 1]; }
      }
      JoinNoDoubleSpace(rest);
      var head := words[0] + " ";
      assert NoDoubleSpace(head) by {
        forall i | 0 <= i < |head| - 1 ensures head[i] != ' ' {
          assert head[i] == words[0][i] && head[i] in words[0];
        }
      }
      var j := Join(rest);
      if |rest| >= 2 {
        assert rest[0] == words[1] && rest[0] != [];
        assert j == rest[0] + " " + Join(rest[1..]);
        assert j[0] == rest[0][0] && rest[0][0] in rest[0];
      } else {
        assert j == rest[0];
        assert |j| > 0 ==> j[0] in rest[0];
      }
      NoDoubleSpaceConcat(head, j);
      assert Join(words) == head + j;
    }
  }
}
