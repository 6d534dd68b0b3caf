/** Ordinal, case-insensitive comparison of strings, as .NET's
    `StringComparison.OrdinalIgnoreCase` and `StringComparer.OrdinalIgnoreCase`
    perform it: every character is mapped to upper case, and the mapped
    strings are compared character by character on their code values.
    Only the ASCII letters are mapped here; every other character is compared
    as it is. */
module CaseFold {

  /** Upper-case folding of one character: `a`..`z` become `A`..`Z`. */
  function Fold(c: char): (d: char)
    ensures d == c || ('a' <= c <= 'z' && d as int == c as int - 32)
    ensures !('a' <= d <= 'z')
    ensures Fold(d) == d
  {
    if 'a' <= c <= 'z' then (c as int - 32) as char else c
  }

  /** The string with every character folded. */
  function FoldString(s: string): string
  {
    seq(|s|, i requires 0 <= i < |s| => Fold(s[i]))
  }

  /** `a.Equals(b, StringComparison.OrdinalIgnoreCase)`. */
  predicate EqualsIgnoreCase(a: string, b: string)
    ensures a == b ==> EqualsIgnoreCase(a, b)
    ensures EqualsIgnoreCase(a, b) ==> |a| == |b|
  {
    FoldString(a) == FoldString(b)
  }

  /** Two strings are equal ignoring case exactly when they have the same
      length and agree, position by position, after folding. */
  lemma EqualsIgnoreCaseCharwise(a: string, b: string)
    ensures EqualsIgnoreCase(a, b) <==>
              |a| == |b| && forall i :: 0 <= i < |a| ==> Fold(a[i]) == Fold(b[i])
  {
    if |a| == |b| && forall i :: 0 <= i < |a| ==> Fold(a[i]) == Fold(b[i]) {
      assert FoldString(a) == FoldString(b);
    }
    if EqualsIgnoreCase(a, b) {
      forall i | 0 <= i < |a|
        ensures Fold(a[i]) == Fold(b[i])
      {
        assert FoldString(a)[i] == FoldString(b)[i];
      }
    }
  }

  /** One position where the folded characters differ makes two strings
      unequal ignoring case. */
  lemma DifferentAt(a: string, b: string, i: nat)
    requires i < |a| && i < |b| && Fold(a[i]) != Fold(b[i])
    ensures !EqualsIgnoreCase(a, b)
  {
    assert FoldString(a)[i] != FoldString(b)[i];
  }

  /** Ignoring case is an equivalence: folding is the same on both sides. */
  lemma EqualsIgnoreCaseIsEquivalence(a: string, b: string, c: string)
    ensures EqualsIgnoreCase(a, a)
    ensures EqualsIgnoreCase(a, b) ==> EqualsIgnoreCase(b, a)
    ensures EqualsIgnoreCase(a, b) && EqualsIgnoreCase(b, c) ==> EqualsIgnoreCase(a, c)
  {
  }

  /** Ordinal lexicographic order on character sequences: a proper prefix
      comes first, otherwise the first differing character decides. */
  predicate LexLe(a: string, b: string)
  {
    |a| == 0 || (|b| > 0 && (a[0] < b[0] || (a[0] == b[0] && LexLe(a[1..], b[1..]))))
  }

  lemma {:induction false} LexLeReflexive(a: string)
    ensures LexLe(a, a)
  {
    if |a| > 0 {
      LexLeReflexive(a[1..]);
    }
  }

  lemma {:induction false} LexLeTotal(a: string, b: string)
    ensures LexLe(a, b) || LexLe(b, a)
  {
    if |a| > 0 && |b| > 0 && a[0] == b[0] {
      LexLeTotal(a[1..], b[1..]);
    }
  }

  lemma {:induction false} LexLeTransitive(a: string, b: string, c: string)
    requires LexLe(a, b) && LexLe(b, c)
    ensures LexLe(a, c)
  {
    if |a| > 0 && a[0] == b[0] && b[0] == c[0] {
      LexLeTransitive(a[1..], b[1..], c[1..]);
    }
  }

  lemma {:induction false} LexLeAntisymmetric(a: string, b: string)
    requires LexLe(a, b) && LexLe(b, a)
    ensures a == b
  {
    if |a| > 0 {
      LexLeAntisymmetric(a[1..], b[1..]);
      assert a == [a[0]] + a[1..];
      assert b == [b[0]] + b[1..];
    }
  }

  /** `StringComparer.OrdinalIgnoreCase.Compare(a, b) <= 0`. */
  predicate NameLe(a: string, b: string)
    // the empty name sorts first, and only an empty name sorts before it
    ensures |a| == 0 ==> NameLe(a, b)
    ensures |b| == 0 ==> (NameLe(a, b) <==> |a| == 0)
  {
    LexLe(FoldString(a), FoldString(b))
  }

  /** The case-insensitive order is total ... */
  lemma NameLeTotal(a: string, b: string)
    ensures NameLe(a, b) || NameLe(b, a)
  {
    LexLeTotal(FoldString(a), FoldString(b));
  }

  /** ... transitive ... */
  lemma NameLeTransitive(a: string, b: string, c: string)
    requires NameLe(a, b) && NameLe(b, c)
    ensures NameLe(a, c)
  {
    LexLeTransitive(FoldString(a), FoldString(b), FoldString(c));
  }

  /** ... and two names are tied exactly when they are equal ignoring case. */
  lemma NameTieIffEqualsIgnoreCase(a: string, b: string)
    ensures NameLe(a, b) && NameLe(b, a) <==> EqualsIgnoreCase(a, b)
  {
    if NameLe(a, b) && NameLe(b, a) {
      LexLeAntisymmetric(FoldString(a), FoldString(b));
    }
    if EqualsIgnoreCase(a, b) {
      LexLeReflexive(FoldString(a));
    }
  }

  /** When the first folded characters differ, they alone decide the order. */
  lemma FirstCharDecides(a: string, b: string)
    requires |a| > 0 && |b| > 0 && Fold(a[0]) < Fold(b[0])
    ensures NameLe(a, b) && !NameLe(b, a)
  {
  }

  /** Folding goes to upper case, so `_` (after `Z`, before `a` in code
      order) sorts after every ASCII letter: "zed" comes before "_x". */
  lemma UnderscoreSortsAfterLetters()
    ensures NameLe("zed", "_x") && !NameLe("_x", "zed")
  {
  }
}
