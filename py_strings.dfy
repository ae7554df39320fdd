/**
 * The few Python string operations the wrapper generator's decisions rest
 * on: substring search (`s.find(p) > -1`), `startswith`/`endswith`,
 * the ordering of strings, and `sorted` over a set of names.
 */
module PyStrings {

  /** `s.startswith(p)`. */
  predicate StartsWith(s: string, p: string)
  {
    |p| <= |s| && s[..|p|] == p
  }

  /** `s.endswith(p)`. */
  predicate EndsWith(s: string, p: string)
  {
    |p| <= |s| && s[|s| - |p|..] == p
  }

  /** `s.find(p) > -1`: `p` occurs somewhere in `s`. */
  predicate Contains(s: string, p: string)
    decreases |s|
  {
    StartsWith(s, p) || (|s| > 0 && Contains(s[1..], p))
  }

  /** `p` occurs in `s` starting at position `k`. */
  predicate OccursAt(s: string, p: string, k: int)
  {
    0 <= k <= |s| - |p| && s[k..k + |p|] == p
  }

  /** The search agrees with the positional definition: some window of `s` equals `p`. */
  lemma {:induction false} ContainsAt(s: string, p: string)
    ensures Contains(s, p) <==> exists k :: OccursAt(s, p, k)
    decreases |s|
  {
    if |s| > 0 {
      ContainsAt(s[1..], p);
      if Contains(s[1..], p) {
        var k :| OccursAt(s[1..], p, k);
        assert s[k + 1..k + 1 + |p|] == s[1..][k..k + |p|];
        assert OccursAt(s, p, k + 1);
      }
      if exists k :: OccursAt(s, p, k) {
        var k :| OccursAt(s, p, k);
        if k > 0 {
          assert s[1..][k - 1..k - 1 + |p|] == s[k..k + |p|];
          assert OccursAt(s[1..], p, k - 1);
        } else {
          assert StartsWith(s, p);
        }
      }
      if StartsWith(s, p) {
        assert OccursAt(s, p, 0);
      }
    } else {
      if Contains(s, p) {
        assert OccursAt(s, p, 0);
      }
      if exists k :: OccursAt(s, p, k) {
        var k :| OccursAt(s, p, k);
        assert k == 0 && p == s[k..k + |p|] == [];
        assert StartsWith(s, p);
      }
    }
  }

  /** A character of `p` that `s` lacks rules out every occurrence of `p`. */
  lemma MissingCharNotContained(s: string, p: string, j: nat)
    requires j < |p| && p[j] !in s
    ensures !Contains(s, p)
  {
    forall k | 0 <= k <= |s| - |p|
      ensures !OccursAt(s, p, k)
    {
      assert s[k..k + |p|][j] == s[k + j] != p[j];
    }
    ContainsAt(s, p);
  }

  /** An occurrence of `p` is also an occurrence of each prefix of `p`. */
  lemma ContainsPrefixOf(s: string, p: string, q: string)
    requires Contains(s, p) && StartsWith(p, q)
    ensures Contains(s, q)
  {
    ContainsAt(s, p);
    var k :| OccursAt(s, p, k);
    assert s[k..k + |q|] == p[..|q|];
    assert OccursAt(s, q, k);
    ContainsAt(s, q);
  }

  /** An ASCII letter: the only characters of the class-name patterns the generator searches for. */
  predicate IsLetter(c: char)
  {
    ('a' <= c <= 'z') || ('A' <= c <= 'Z')
  }

  /** A non-empty word made of letters only. */
  predicate IsWord(p: string)
  {
    |p| > 0 && forall i :: 0 <= i < |p| ==> IsLetter(p[i])
  }

  /** A string without letters. */
  predicate NoLetters(x: string)
  {
    forall i :: 0 <= i < |x| ==> !IsLetter(x[i])
  }

  /** A word cannot start on punctuation: searching past a letter-free prefix finds the same matches. */
  lemma {:induction false} ContainsAfterPunctuation(x: string, s: string, p: string)
    requires IsWord(p) && NoLetters(x)
    ensures Contains(x + s, p) <==> Contains(s, p)
    decreases |x|
  {
    if |x| > 0 {
      assert !StartsWith(x + s, p) by {
        assert IsLetter(p[0]);
      }
      assert (x + s)[1..] == x[1..] + s;
      ContainsAfterPunctuation(x[1..], s, p);
    } else {
      assert x + s == s;
    }
  }

  /**
   * A word cannot straddle a junction whose right side starts on
   * punctuation: it occurs in `a + b` exactly when it occurs in `a` or in `b`.
   */
  lemma {:induction false} ContainsSplit(a: string, b: string, p: string)
    requires IsWord(p)
    requires b == [] || !IsLetter(b[0])
    ensures Contains(a + b, p) <==> Contains(a, p) || Contains(b, p)
    decreases |a|
  {
    if a == [] {
      assert a + b == b;
    } else {
      ContainsSplit(a[1..], b, p);
      assert (a + b)[1..] == a[1..] + b;
      if |p| <= |a| {
        assert (a + b)[..|p|] == a[..|p|];
      } else if |p| <= |a + b| {
        assert (a + b)[..|p|][|a|] == b[0];
        assert !StartsWith(a + b, p) by {
          assert IsLetter(p[|a|]);
        }
      }
    }
  }

  /** A letter-free string contains no word. */
  lemma NoLettersNoWord(x: string, p: string)
    requires IsWord(p) && NoLetters(x)
    ensures !Contains(x, p)
  {
    ContainsAfterPunctuation(x, [], p);
    assert x + [] == x;
  }

  // ---------------------------------------------------------------------
  // Ordering and sorting
  // ---------------------------------------------------------------------

  /** Python's `a < b` on strings: lexicographic by code point, a proper prefix first. */
  predicate Below(a: string, b: string)
  {
    if a == [] then b != []
    else if b == [] then false
    else a[0] < b[0] || (a[0] == b[0] && Below(a[1..], b[1..]))
  }

  lemma {:induction false} BelowIrreflexive(a: string)
    ensures !Below(a, a)
  {
    if a != [] { BelowIrreflexive(a[1..]); }
  }

  lemma {:induction false} BelowTransitive(a: string, b: string, c: string)
    requires Below(a, b) && Below(b, c)
    ensures Below(a, c)
  {
    if a != [] && b != [] && c != [] && a[0] == b[0] == c[0] {
      BelowTransitive(a[1..], b[1..], c[1..]);
    }
  }

  /** Any two distinct strings are ordered one way or the other, and never both. */
  lemma {:induction false} BelowTotal(a: string, b: string)
    ensures a != b ==> Below(a, b) || Below(b, a)
    ensures !(Below(a, b) && Below(b, a))
  {
    if a != [] && b != [] && a[0] == b[0] {
      BelowTotal(a[1..], b[1..]);
      if a != b {
        assert a == [a[0]] + a[1..] && b == [b[0]] + b[1..];
      }
    }
  }

  /** Every non-empty set of strings has a least element. */
  lemma {:induction false} LeastExists(s: set<string>)
    requires s != {}
    ensures exists m :: m in s && forall x :: x in s && x != m ==> Below(m, x)
    decreases |s|
  {
    var y :| y in s;
    if s != {y} {
      LeastExists(s - {y});
      var m :| m in s - {y} && forall x :: x in s - {y} && x != m ==> Below(m, x);
      BelowTotal(y, m);
      if Below(y, m) {
        forall x | x in s && x != y
          ensures Below(y, x)
        {
          if x != m { BelowTransitive(y, m, x); }
        }
      } else {
        assert Below(m, y);
      }
    } else {
      assert forall x :: x in s ==> x == y;
    }
  }

  /** The least string of a non-empty set. */
  function Least(s: set<string>): (m: string)
    requires s != {}
    ensures m in s
    ensures forall x :: x in s && x != m ==> Below(m, x)
  {
    LeastExists(s);
    var m :| m in s && forall x :: x in s && x != m ==> Below(m, x);
    assert forall m' :: m' in s && (forall x :: x in s && x != m' ==> Below(m', x)) ==> m' == m by {
      forall m' | m' in s && (forall x :: x in s && x != m' ==> Below(m', x))
        ensures m' == m
      {
        if m' != m { BelowTotal(m, m'); }
      }
    }
    m
  }

  /** A sequence in strictly increasing order. */
  predicate StrictlySorted(r: seq<string>)
  {
    forall i, j :: 0 <= i < j < |r| ==> Below(r[i], r[j])
  }

  /** `sorted(names)`: the names of a set, each once, in increasing order. */
  function SortedNames(s: set<string>): (r: seq<string>)
    ensures |r| == |s|
    ensures forall x :: x in r <==> x in s
    ensures StrictlySorted(r)
    decreases |s|
  {
    if s == {} then []
    else
      var m := Least(s);
      var rest := SortedNames(s - {m});
      assert forall i :: 0 <= i < |rest| ==> Below(m, rest[i]) by {
        forall i | 0 <= i < |rest|
          ensures Below(m, rest[i])
        {
          assert rest[i] in s - {m};
        }
      }
      [m] + rest
  }
}
