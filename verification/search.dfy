/** The username search of the users page: `username LIKE '%q%'` with a
    term that holds no wildcard characters, that is, substring containment. */
module Search {

  /** `q` is a prefix of `s`. */
  predicate StartsWith(s: string, q: string)
  {
    |q| <= |s| && s[..|q|] == q
  }

  /** `q` occurs somewhere in `s`, found by trying each start position. */
  predicate ContainsText(s: string, q: string)
    ensures ContainsText(s, q) ==> |q| <= |s|
    decreases |s|
  {
    StartsWith(s, q) || (|s| > 0 && ContainsText(s[1..], q))
  }

  /** `q` occurs in `s` at position `i`. */
  predicate OccursAt(s: string, q: string, i: int)
  {
    0 <= i && i + |q| <= |s| && s[i..i + |q|] == q
  }

  /** The scan agrees with the definition of a substring: some position of
      `s` starts a copy of `q`. */
  lemma {:induction false} ContainsTextIffOccurs(s: string, q: string)
    ensures ContainsText(s, q) <==> exists i :: OccursAt(s, q, i)
    decreases |s|
  {
    if StartsWith(s, q) {
      assert OccursAt(s, q, 0);
    } else if |s| > 0 {
      ContainsTextIffOccurs(s[1..], q);
      if i :| OccursAt(s[1..], q, i) {
        assert s[1..][i..i + |q|] == s[i + 1..i + 1 + |q|];
        assert OccursAt(s, q, i + 1);
      }
      if i :| OccursAt(s, q, i) {
        if i > 0 {
          assert s[1..][i - 1..i - 1 + |q|] == s[i..i + |q|];
          assert OccursAt(s[1..], q, i - 1);
        }
      }
    }
  }
}
