/**
 * Character classes and the unanchored substring test that the route
 * patterns of the root component rely on.
 */
module Text {

  /** `\d` in the regular expressions of the client: an ASCII digit. */
  predicate IsDigit(c: char) {
    '0' <= c <= '9'
  }

  /** The characters that `.` does not match in a JavaScript regular expression. */
  predicate IsLineTerminator(c: char) {
    c == '\n' || c == '\r' || c == '\U{2028}' || c == '\U{2029}'
  }

  predicate AllDigits(s: string) {
    forall i :: 0 <= i < |s| ==> IsDigit(s[i])
  }

  predicate NoLineTerminator(s: string) {
    forall i :: 0 <= i < |s| ==> !IsLineTerminator(s[i])
  }

  /** `pat` occurs in `s` starting at index `i`. */
  predicate OccursAt(s: string, pat: string, i: int) {
    0 <= i && i + |pat| <= |s| && s[i..i + |pat|] == pat
  }

  /**
   * An unanchored regular expression made of literal characters only, such
   * as `/new_game/`, matches exactly when its text is a substring: this
   * scans the start positions from left to right.
   */
  predicate Contains(s: string, pat: string)
    decreases |s|
  {
    |pat| <= |s| && (pat <= s || Contains(s[1..], pat))
  }

  /** The scan agrees with the declarative definition of a substring, both ways. */
  lemma {:induction false} ContainsIff(s: string, pat: string)
    ensures Contains(s, pat) <==> exists i :: OccursAt(s, pat, i)
    decreases |s|
  {
    if |pat| <= |s| {
      if pat <= s {
        assert OccursAt(s, pat, 0);
      } else {
        ContainsIff(s[1..], pat);
        if Contains(s[1..], pat) {
          var i :| OccursAt(s[1..], pat, i);
          assert s[i + 1..i + 1 + |pat|] == s[1..][i..i + |pat|];
          assert OccursAt(s, pat, i + 1);
        }
        if i :| OccursAt(s, pat, i) {
          assert i != 0;
          assert s[1..][i - 1..i - 1 + |pat|] == s[i..i + |pat|];
          assert OccursAt(s[1..], pat, i - 1);
        }
      }
    }
  }

  /** A witness occurrence is enough to establish containment. */
  lemma ContainsAt(s: string, pat: string, i: int)
    requires OccursAt(s, pat, i)
    ensures Contains(s, pat)
  {
    ContainsIff(s, pat);
  }

  /** Every character of a contained pattern is a character of the text. */
  lemma ContainsHasChar(s: string, pat: string, k: int)
    requires Contains(s, pat) && 0 <= k < |pat|
    ensures pat[k] in s
  {
    ContainsIff(s, pat);
    var i :| OccursAt(s, pat, i);
    assert s[i..i + |pat|][k] == s[i + k];
  }

  /** A pattern with a character that the text lacks does not occur in it. */
  lemma MissingChar(s: string, pat: string, k: nat)
    requires k < |pat| && pat[k] !in s
    ensures !Contains(s, pat)
  {
    if Contains(s, pat) {
      ContainsHasChar(s, pat, k);
    }
  }

  /** Containment is transitive: a text containing `big` contains every substring of `big`. */
  lemma ContainsTrans(s: string, big: string, small: string)
    requires Contains(s, big) && Contains(big, small)
    ensures Contains(s, small)
  {
    ContainsIff(s, big);
    ContainsIff(big, small);
    var i :| OccursAt(s, big, i);
    var j :| OccursAt(big, small, j);
    forall k | 0 <= k < |small|
      ensures s[i + j + k] == small[k]
    {
      assert s[i..i + |big|][j + k] == s[i + j + k];
      assert big[j..j + |small|][k] == big[j + k];
    }
    assert s[i + j..i + j + |small|] == small;
    ContainsAt(s, small, i + j);
  }

  /** Length of the longest prefix of `s` made of digits: the greedy `\d*`. */
  function DigitRun(s: string): (n: nat)
    ensures n <= |s| && AllDigits(s[..n])
    ensures n == |s| || !IsDigit(s[n])
  {
    if |s| > 0 && IsDigit(s[0]) then
      var m := DigitRun(s[1..]);
      assert s[..1 + m] == [s[0]] + s[1..][..m];
      1 + m
    else
      0
  }

  /** No prefix of digits reaches past the greedy run. */
  lemma {:induction false} DigitRunLongest(s: string, e: int)
    requires 0 <= e <= |s| && AllDigits(s[..e])
    ensures e <= DigitRun(s)
  {
    if e > 0 {
      assert s[..e][0] == s[0];
      assert s[1..][..e - 1] == s[..e][1..];
      DigitRunLongest(s[1..], e - 1);
    }
  }
}
