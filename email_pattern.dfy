/**
 * The e-mail format test `/\S+@\S+\.\S+/.test(s)` shared by the login, register
 * and forgot-password screens. The expression has no anchors, so it holds when
 * SOME infix of `s` has the shape `x@y.z` with `x`, `y`, `z` non-empty runs of
 * non-space characters (which may themselves contain '@' or '.').
 */
module EmailPattern {
  import opened JsText

  /** A non-empty run of characters matched by `\S`, i.e. `\S+`. */
  ghost predicate NonSpacePlus(x: string) {
    |x| > 0 && forall k :: 0 <= k < |x| ==> !IsSpace(x[k])
  }

  /** `m` as a whole matches `\S+@\S+\.\S+`. */
  ghost predicate WholeMatch(m: string) {
    exists x, y, z :: m == x + "@" + y + "." + z && NonSpacePlus(x) && NonSpacePlus(y) && NonSpacePlus(z)
  }

  /** `RegExp.prototype.test` of the unanchored expression: some infix matches. */
  ghost predicate RegexTest(s: string) {
    exists pre, m, post :: s == pre + m + post && WholeMatch(m)
  }

  /** The test as a condition on two positions: an '@' at `p` preceded by a
      non-space character, a later '.' at `q` with only non-space characters
      strictly between them, and a non-space character after the '.'. */
  predicate EmailAt(s: string, p: int, q: int) {
    && 0 < p && p + 1 < q && q + 1 < |s|
    && s[p] == '@' && !IsSpace(s[p - 1])
    && s[q] == '.' && !IsSpace(s[q + 1])
    && NonSpaceBetween(s, p, q)
  }

  /** No white space strictly between positions `p` and `q`. */
  predicate NonSpaceBetween(s: string, p: int, q: int)
    requires 0 <= p <= q <= |s|
  {
    forall k | p < k < q :: !IsSpace(s[k])
  }

  /** `/\S+@\S+\.\S+/.test(s)`, computed by searching the two positions. */
  predicate EmailFormatOk(s: string) {
    exists p, q | 0 < p < |s| && 0 < q < |s| :: EmailAt(s, p, q)
  }

  /** The infix from `p - 1` to `q + 1` around an '@' at `p` and a '.' at `q`,
      read off position by position. */
  lemma FiveParts(s: string, p: int, q: int)
    requires 0 < p && p + 1 < q && q + 1 < |s| && s[p] == '@' && s[q] == '.'
    ensures s[p - 1..q + 2] == [s[p - 1]] + "@" + s[p + 1..q] + "." + [s[q + 1]]
  {
    var m := s[p - 1..q + 2];
    var r := [s[p - 1]] + "@" + s[p + 1..q] + "." + [s[q + 1]];
    assert |m| == |r|;
    forall k | 0 <= k < |m| ensures m[k] == r[k] {
      if 2 <= k < |m| - 2 {
        assert r[k] == s[p + 1..q][k - 2];
      }
    }
  }

  /** The witnesses of `WholeMatch`. */
  lemma WholeMatchIntro(m: string, x: string, y: string, z: string)
    requires m == x + "@" + y + "." + z && NonSpacePlus(x) && NonSpacePlus(y) && NonSpacePlus(z)
    ensures WholeMatch(m)
  {
  }

  /** The witnesses of `RegexTest`. */
  lemma RegexTestIntro(s: string, pre: string, m: string, post: string)
    requires s == pre + m + post && WholeMatch(m)
    ensures RegexTest(s)
  {
  }

  /** The characters strictly between `p` and `q` form a run of `\S`. */
  lemma BetweenIsNonSpacePlus(s: string, p: int, q: int)
    requires 0 <= p && p + 1 < q <= |s| && NonSpaceBetween(s, p, q)
    ensures NonSpacePlus(s[p + 1..q])
  {
    var y := s[p + 1..q];
    forall k | 0 <= k < |y| ensures !IsSpace(y[k]) {
      assert y[k] == s[p + 1 + k];
    }
  }

  /** A match at positions `p`, `q` is a match of the expression on the infix
      from `p - 1` to `q + 1`. */
  lemma EmailAtMatches(s: string, p: int, q: int)
    requires EmailAt(s, p, q)
    ensures RegexTest(s)
  {
    FiveParts(s, p, q);
    BetweenIsNonSpacePlus(s, p, q);
    assert NonSpacePlus([s[p - 1]]) && NonSpacePlus([s[q + 1]]);
    WholeMatchIntro(s[p - 1..q + 2], [s[p - 1]], s[p + 1..q], [s[q + 1]]);
    assert s == s[..p - 1] + s[p - 1..q + 2] + s[q + 2..];
    RegexTestIntro(s, s[..p - 1], s[p - 1..q + 2], s[q + 2..]);
  }

  /** A whole match `x@y.z` gives the two positions inside it. */
  lemma MatchGivesEmailAt(m: string, x: string, y: string, z: string) returns (p: int, q: int)
    requires m == x + "@" + y + "." + z
    requires NonSpacePlus(x) && NonSpacePlus(y) && NonSpacePlus(z)
    ensures EmailAt(m, p, q)
  {
    p := |x|;
    q := p + 1 + |y|;
    assert m[p] == '@';
    assert m[p - 1] == x[|x| - 1];
    assert m[q] == '.';
    assert m[q + 1] == z[0];
    forall k | p < k < q ensures !IsSpace(m[k]) {
      assert m[k] == y[k - p - 1];
    }
  }

  /** Positions of a match inside an infix are positions of a match in the
      whole string, shifted by the prefix. */
  lemma EmailAtShift(s: string, pre: string, m: string, post: string, i: int, j: int) returns (p: int, q: int)
    requires s == pre + m + post && EmailAt(m, i, j)
    ensures EmailAt(s, p, q)
  {
    p, q := |pre| + i, |pre| + j;
    forall k | 0 <= k < |m| ensures s[|pre| + k] == m[k] {
    }
    forall k | p < k < q ensures !IsSpace(s[k]) {
      assert s[k] == m[k - |pre|];
    }
  }

  /** The executable condition is exactly the regular-expression test. */
  lemma EmailFormatOkIsRegexTest(s: string)
    ensures EmailFormatOk(s) <==> RegexTest(s)
  {
    if EmailFormatOk(s) {
      var p, q :| 0 < p < |s| && 0 < q < |s| && EmailAt(s, p, q);
      EmailAtMatches(s, p, q);
    }
    if RegexTest(s) {
      RegexTestGivesEmailAt(s);
    }
  }

  /** A match of the expression somewhere in `s` gives the two positions. */
  lemma RegexTestGivesEmailAt(s: string)
    requires RegexTest(s)
    ensures EmailFormatOk(s)
  {
    var p, q := PickEmailAt(s);
    assert 0 < p < |s| && 0 < q < |s|;
  }

  /** The two positions of a whole match. */
  lemma PickInMatch(m: string) returns (p: int, q: int)
    requires WholeMatch(m)
    ensures EmailAt(m, p, q)
  {
    var x, y, z :| m == x + "@" + y + "." + z && NonSpacePlus(x) && NonSpacePlus(y) && NonSpacePlus(z);
    p, q := MatchGivesEmailAt(m, x, y, z);
  }

  /** The two positions of some match of the expression in `s`. */
  lemma PickEmailAt(s: string) returns (p: int, q: int)
    requires RegexTest(s)
    ensures EmailAt(s, p, q)
  {
    var pre, m, post :| s == pre + m + post && WholeMatch(m);
    var i, j := PickInMatch(m);
    p, q := EmailAtShift(s, pre, m, post, i, j);
  }

  /** `t` is the infix of `s` at offset `a` and `s` has only white space
      outside it. */
  ghost predicate SpacePadded(s: string, t: string, a: int) {
    && 0 <= a && a + |t| <= |s|
    && (forall k :: 0 <= k < |t| ==> t[k] == s[a + k])
    && (forall k :: 0 <= k < a ==> IsSpace(s[k]))
    && (forall k :: a + |t| <= k < |s| ==> IsSpace(s[k]))
  }

  /** A match in the padded string lies inside the infix. */
  lemma EmailAtUnpad(s: string, t: string, a: int, p: int, q: int)
    requires SpacePadded(s, t, a) && EmailAt(s, p, q)
    ensures a <= p && EmailAt(t, p - a, q - a)
  {
    assert a <= p - 1 by { assert !IsSpace(s[p - 1]); }
    assert q + 1 < a + |t| by { assert !IsSpace(s[q + 1]); }
    assert t[p - a] == s[p] && t[p - a - 1] == s[p - 1];
    assert t[q - a] == s[q] && t[q - a + 1] == s[q + 1];
    forall k | p - a < k < q - a ensures !IsSpace(t[k]) {
      assert t[k] == s[k + a];
    }
  }

  /** A match in the infix is one in the padded string. */
  lemma EmailAtPad(s: string, t: string, a: int, p: int, q: int)
    requires SpacePadded(s, t, a) && EmailAt(t, p, q)
    ensures EmailAt(s, p + a, q + a)
  {
    assert s[p + a] == t[p] && s[p + a - 1] == t[p - 1];
    assert s[q + a] == t[q] && s[q + a + 1] == t[q + 1];
    forall k | p + a < k < q + a ensures !IsSpace(s[k]) {
      assert s[k] == t[k - a];
    }
  }

  /** The test sees through the white space `trim()` removes: it is applied to
      the untrimmed text, and it gives the same answer on the trimmed one. */
  lemma EmailFormatIgnoresTrim(s: string)
    ensures EmailFormatOk(Trim(s)) <==> EmailFormatOk(s)
  {
    var t, a := Trim(s), TrimOffset(s);
    TrimAt(s);
    assert SpacePadded(s, t, a);
    if EmailFormatOk(s) {
      var p, q :| 0 < p < |s| && 0 < q < |s| && EmailAt(s, p, q);
      EmailAtUnpad(s, t, a, p, q);
      assert 0 < p - a < |t| && 0 < q - a < |t|;
    }
    if EmailFormatOk(t) {
      var p, q :| 0 < p < |t| && 0 < q < |t| && EmailAt(t, p, q);
      EmailAtPad(s, t, a, p, q);
      assert 0 < p + a < |s| && 0 < q + a < |s|;
    }
  }

  /** Lower-casing keeps every white-space, '@' and '.' position, so it keeps
      every match. */
  lemma EmailAtLower(s: string, p: int, q: int)
    ensures EmailAt(ToLower(s), p, q) <==> EmailAt(s, p, q)
  {
    var l := ToLower(s);
    ToLowerSpec(s);
    if 0 < p && p + 1 < q && q + 1 < |s| {
      assert NonSpaceBetween(l, p, q) <==> NonSpaceBetween(s, p, q);
    }
  }

  /** Lower-casing does not change the test. */
  lemma EmailFormatIgnoresLower(s: string)
    ensures EmailFormatOk(ToLower(s)) <==> EmailFormatOk(s)
  {
    var l := ToLower(s);
    if EmailFormatOk(s) {
      var p, q :| 0 < p < |s| && 0 < q < |s| && EmailAt(s, p, q);
      EmailAtLower(s, p, q);
    }
    if EmailFormatOk(l) {
      var p, q :| 0 < p < |l| && 0 < q < |l| && EmailAt(l, p, q);
      EmailAtLower(s, p, q);
    }
  }

  /** An e-mail as the screens send it: `email.trim().toLowerCase()`. */
  function NormalizeEmail(email: string): string {
    ToLower(Trim(email))
  }

  /** The address the screens send passes the format test exactly when the typed
      text did. */
  lemma NormalizeEmailFormat(email: string)
    ensures EmailFormatOk(NormalizeEmail(email)) <==> EmailFormatOk(email)
  {
    EmailFormatIgnoresTrim(email);
    EmailFormatIgnoresLower(Trim(email));
  }

  /** Normalising an address the screens send changes nothing. */
  lemma NormalizeEmailIdempotent(email: string)
    ensures NormalizeEmail(NormalizeEmail(email)) == NormalizeEmail(email)
  {
    var t := Trim(email);
    var n := ToLower(t);
    TrimIsInfix(email);
    ToLowerSpec(t);
    assert n == [] || (!IsSpace(n[0]) && !IsSpace(n[|n| - 1]));
    TrimOfTrimmed(n);
    ToLowerIdempotent(t);
  }
}
