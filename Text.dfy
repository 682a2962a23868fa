/** String operations the validators and the name search rely on. */
module Text {

  /** String.trim() strips every character at or below U+0020. */
  predicate IsTrimmed(c: char) {
    c <= ' '
  }

  /** s.trim().length() > 0: the string has a character that trim() keeps. */
  predicate HasText(s: string) {
    exists i :: 0 <= i < |s| && !IsTrimmed(s[i])
  }

  /** q occurs in s starting at position i. */
  predicate OccursAt(s: string, q: string, i: nat) {
    i + |q| <= |s| && s[i..i + |q|] == q
  }

  /** Substring test, one starting position at a time. */
  predicate Contains(s: string, q: string)
    decreases |s|
  {
    |q| <= |s| && (s[..|q|] == q || (|s| > 0 && Contains(s[1..], q)))
  }

  /** A match found by Contains is an occurrence. */
  lemma {:induction false} ContainsHasOccurrence(s: string, q: string) returns (i: nat)
    requires Contains(s, q)
    ensures OccursAt(s, q, i)
    decreases |s|
  {
    if s[..|q|] == q {
      i := 0;
    } else {
      var j := ContainsHasOccurrence(s[1..], q);
      assert s[1..][j..j + |q|] == s[j + 1..j + 1 + |q|];
      i := j + 1;
    }
  }

  /** Every occurrence is found by Contains. */
  lemma {:induction false} OccurrenceIsContained(s: string, q: string, i: nat)
    requires OccursAt(s, q, i)
    ensures Contains(s, q)
    decreases i
  {
    if i > 0 {
      assert s[1..][i - 1..i - 1 + |q|] == s[i..i + |q|];
      OccurrenceIsContained(s[1..], q, i - 1);
    } else {
      assert s[..|q|] == s[0..0 + |q|];
    }
  }

  /** Contains is the usual substring relation. */
  lemma ContainsIffOccurs(s: string, q: string)
    ensures Contains(s, q) <==> exists i: nat :: OccursAt(s, q, i)
  {
    if Contains(s, q) {
      var i := ContainsHasOccurrence(s, q);
    }
    forall i: nat | OccursAt(s, q, i) ensures Contains(s, q) {
      OccurrenceIsContained(s, q, i);
    }
  }

  /** Lexicographic order on character codes: the order ORDER BY name ASC yields under a binary collation. */
  predicate NameLe(a: string, b: string)
    decreases |a|
  {
    a == [] || (b != [] && (a[0] < b[0] || (a[0] == b[0] && NameLe(a[1..], b[1..]))))
  }

  lemma {:induction false} NameLeTotal(a: string, b: string)
    ensures NameLe(a, b) || NameLe(b, a)
    decreases |a|
  {
    if a != [] && b != [] && a[0] == b[0] {
      NameLeTotal(a[1..], b[1..]);
    }
  }

  lemma {:induction false} NameLeTransitive(a: string, b: string, c: string)
    requires NameLe(a, b) && NameLe(b, c)
    ensures NameLe(a, c)
    decreases |a|
  {
    if a != [] && a[0] == b[0] && b[0] == c[0] {
      NameLeTransitive(a[1..], b[1..], c[1..]);
    }
  }
}
