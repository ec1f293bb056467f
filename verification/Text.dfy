/** Texts that start with, or occur in, others. */
module Text {
  predicate StartsWith(s: string, prefix: string) {
    |prefix| <= |s| && s[..|prefix|] == prefix
  }

  /** White space, of the ASCII kind. */
  predicate IsSpace(c: char) {
    c == ' ' || '\t' <= c <= '\r'
  }

  predicate Occurs(w: string, s: string) {
    exists i | 0 <= i <= |s| - |w| :: At(w, s, i)
  }

  predicate At(w: string, s: string, i: nat) {
    i + |w| <= |s| && s[i..i + |w|] == w
  }

  lemma {:induction false} OccursAround(w: string, a: string, c: char, b: string)
    requires c !in w && Occurs(w, a + [c] + b)
    ensures Occurs(w, a) || Occurs(w, b)
  {
    var s := a + [c] + b;
    var i :| 0 <= i <= |s| - |w| && At(w, s, i);
    if i + |w| <= |a| {
      assert a[i..i + |w|] == s[i..i + |w|];
      assert At(w, a, i);
    } else if i > |a| {
      var j := i - |a| - 1;
      assert b[j..j + |w|] == s[i..i + |w|];
      assert At(w, b, j);
    } else {
      CharAt(w, s, i, |a|);
    }
  }

  lemma {:induction false} CharAt(w: string, s: string, i: nat, k: nat)
    requires At(w, s, i) && i <= k < i + |w|
    ensures s[k] in w
  {
    assert s[i..i + |w|][k - i] == s[k];
  }

  lemma {:induction false} OccursInSuffix(w: string, a: string, b: string)
    requires Occurs(w, b)
    ensures Occurs(w, a + b)
  {
    var i :| 0 <= i <= |b| - |w| && At(w, b, i);
    assert (a + b)[|a| + i..|a| + i + |w|] == b[i..i + |w|];
    assert At(w, a + b, |a| + i);
  }

  lemma {:induction false} OccursInPrefix(w: string, a: string, b: string)
    requires Occurs(w, a)
    ensures Occurs(w, a + b)
  {
    var i :| 0 <= i <= |a| - |w| && At(w, a, i);
    assert (a + b)[i..i + |w|] == a[i..i + |w|];
    assert At(w, a + b, i);
  }

  lemma {:induction false} OccursHas(w: string, s: string, c: char)
    requires Occurs(w, s) && c in w
    ensures c in s
  {
    var i :| 0 <= i <= |s| - |w| && At(w, s, i);
    var k :| 0 <= k < |w| && w[k] == c;
    assert s[i..i + |w|][k] == s[i + k];
  }
}
