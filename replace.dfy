/**
 * Literal string replacement with the semantics of Python's `str.replace`
 * without a count: every occurrence of the pattern, found left to right
 * without overlap, is replaced. An empty pattern matches before every
 * character and at the end.
 */
module StrReplace {

  /** `f` occurs in `s` starting at index `i`. */
  predicate OccursAt(s: string, f: string, i: nat)
  {
    i + |f| <= |s| && s[i..i + |f|] == f
  }

  /** `f` occurs somewhere in `s`. */
  predicate Occurs(s: string, f: string)
  {
    exists i: nat :: i <= |s| && OccursAt(s, f, i)
  }

  /** Replacement for an empty pattern: `r` before every character of `s` and at its end. */
  function Interleave(s: string, r: string): string
  {
    if s == [] then r else r + [s[0]] + Interleave(s[1..], r)
  }

  /**
   * Leftmost, non-overlapping replacement of a non-empty pattern, scanning
   * `s` from index `k`: the replaced text of `s[k..]`.
   */
  function ReplaceFrom(s: string, f: string, r: string, k: nat): string
    requires f != [] && k <= |s|
    decreases |s| - k
  {
    if |s| - k < |f| then s[k..]
    else if s[k..k + |f|] == f then r + ReplaceFrom(s, f, r, k + |f|)
    else [s[k]] + ReplaceFrom(s, f, r, k + 1)
  }

  /**
   * `s.replace(f, r)`. The text changes exactly when a non-empty pattern
   * occurs and differs from its replacement, or when the pattern is empty
   * and the replacement is not.
   */
  function ReplaceAll(s: string, f: string, r: string): (res: string)
    ensures res != s <==> if f == [] then r != [] else Occurs(s, f) && f != r
  {
    if f == [] then
      InterleaveLength(s, r);
      Interleave(s, r)
    else
      ReplaceFromChanges(s, f, r);
      ReplaceFrom(s, f, r, 0)
  }

  /** Without an occurrence from `k` on, the rest of the string comes back unchanged. */
  lemma {:induction false} ReplaceAbsent(s: string, f: string, r: string, k: nat)
    requires f != [] && k <= |s|
    requires forall j: nat :: k <= j ==> !OccursAt(s, f, j)
    ensures ReplaceFrom(s, f, r, k) == s[k..]
    decreases |s| - k
  {
    if |s| - k >= |f| {
      assert !OccursAt(s, f, k);
      ReplaceAbsent(s, f, r, k + 1);
      assert s[k..] == [s[k]] + s[k + 1..];
    }
  }

  /** Replacing a pattern by itself changes nothing. */
  lemma {:induction false} ReplaceBySelf(s: string, f: string, k: nat)
    requires f != [] && k <= |s|
    ensures ReplaceFrom(s, f, f, k) == s[k..]
    decreases |s| - k
  {
    if |s| - k >= |f| {
      if s[k..k + |f|] == f {
        ReplaceBySelf(s, f, k + |f|);
        assert s[k..] == s[k..k + |f|] + s[k + |f|..];
      } else {
        ReplaceBySelf(s, f, k + 1);
        assert s[k..] == [s[k]] + s[k + 1..];
      }
    }
  }

  /** A longer replacement never shortens the text, a shorter one never lengthens it. */
  lemma {:induction false} ReplaceLengthCompare(s: string, f: string, r: string, k: nat)
    requires f != [] && k <= |s|
    ensures |r| >= |f| ==> |ReplaceFrom(s, f, r, k)| >= |s| - k
    ensures |r| <= |f| ==> |ReplaceFrom(s, f, r, k)| <= |s| - k
    decreases |s| - k
  {
    if |s| - k >= |f| {
      if s[k..k + |f|] == f {
        ReplaceLengthCompare(s, f, r, k + |f|);
      } else {
        ReplaceLengthCompare(s, f, r, k + 1);
      }
    }
  }

  /** With an empty pattern the text grows by at least one copy of the replacement. */
  lemma {:induction false} InterleaveLength(s: string, r: string)
    ensures |Interleave(s, r)| >= |s| + |r|
    ensures r == [] ==> Interleave(s, r) == s
  {
    if s != [] {
      InterleaveLength(s[1..], r);
      assert s == [s[0]] + s[1..];
    }
  }

  /** An occurrence from `k` on, of a pattern that differs from its replacement, changes the text. */
  lemma {:induction false} ReplacePresent(s: string, f: string, r: string, k: nat, i: nat)
    requires f != [] && f != r && k <= i && OccursAt(s, f, i)
    ensures ReplaceFrom(s, f, r, k) != s[k..]
    decreases |s| - k
  {
    if s[k..k + |f|] == f {
      assert s[k..] == f + s[k + |f|..];
      ReplaceLengthCompare(s, f, r, k + |f|);
      SwapDiffers(f, s[k + |f|..], r, ReplaceFrom(s, f, r, k + |f|));
    } else {
      assert i != k;
      ReplacePresent(s, f, r, k + 1, i);
      assert s[k..] == [s[k]] + s[k + 1..];
      ConsDiffers(s[k], ReplaceFrom(s, f, r, k + 1), s[k + 1..]);
    }
  }

  lemma SwapDiffers(f: string, tail: string, r: string, rest: string)
    requires f != r
    requires |r| >= |f| ==> |rest| >= |tail|
    requires |r| <= |f| ==> |rest| <= |tail|
    ensures r + rest != f + tail
  {
    if |r| == |f| {
      assert (r + rest)[..|r|] == r;
      assert (f + tail)[..|f|] == f;
    } else {
      assert |r + rest| != |f + tail|;
    }
  }

  lemma ConsDiffers(c: char, x: string, y: string)
    requires x != y
    ensures [c] + x != [c] + y
  {
    assert ([c] + x)[1..] == x && ([c] + y)[1..] == y;
  }

  /** A scan from the start changes the text exactly when the pattern occurs and differs from its replacement. */
  lemma ReplaceFromChanges(s: string, f: string, r: string)
    requires f != []
    ensures ReplaceFrom(s, f, r, 0) != s <==> Occurs(s, f) && f != r
  {
    if f == r {
      ReplaceBySelf(s, f, 0);
    } else if Occurs(s, f) {
      var i: nat :| i <= |s| && OccursAt(s, f, i);
      ReplacePresent(s, f, r, 0, i);
    } else {
      ReplaceAbsent(s, f, r, 0);
    }
  }

  /**
   * Left to right: the text before the leftmost occurrence is kept, that
   * occurrence is replaced, and replacement resumes right after it.
   */
  lemma {:induction false} ReplaceLeftmost(s: string, f: string, r: string, k: nat, i: nat)
    requires f != [] && k <= i && OccursAt(s, f, i)
    requires forall j: nat :: k <= j < i ==> !OccursAt(s, f, j)
    ensures ReplaceFrom(s, f, r, k) == s[k..i] + r + ReplaceFrom(s, f, r, i + |f|)
    decreases i - k
  {
    if k == i {
      assert s[k..k + |f|] == f && s[k..i] == [];
    } else {
      assert !OccursAt(s, f, k);
      assert s[k..i] == [s[k]] + s[k + 1..i];
      ReplaceLeftmost(s, f, r, k + 1, i);
      ConsAssoc(s[k..i], s[k], s[k + 1..i], r, ReplaceFrom(s, f, r, k + 1), ReplaceFrom(s, f, r, i + |f|));
    }
  }

  lemma ConsAssoc(whole: string, c: char, b: string, r: string, y: string, z: string)
    requires whole == [c] + b && y == b + r + z
    ensures [c] + y == whole + r + z
  {
  }

  /** "Hello World" with "World" replaced by "Universe" reads "Hello Universe". */
  lemma HelloWorldExample()
    ensures ReplaceAll("Hello World", "World", "Universe") == "Hello Universe"
  {
    var s := "Hello World";
    forall j: nat | j < 6 ensures !OccursAt(s, "World", j) {
      NotStartingAt(s, "World", j);
    }
    assert s[6..11] == "World";
    ReplaceLeftmost(s, "World", "Universe", 0, 6);
    assert s[0..6] == "Hello ";
    assert ReplaceFrom(s, "World", "Universe", 11) == [];
  }

  lemma NotStartingAt(s: string, f: string, j: nat)
    requires f != [] && j < |s| && s[j] != f[0]
    ensures !OccursAt(s, f, j)
  {
    if j + |f| <= |s| {
      assert s[j..j + |f|][0] == s[j];
    }
  }

  /** Both occurrences in "foo foo" are replaced in one pass. */
  lemma FooFooExample()
    ensures ReplaceAll("foo foo", "foo", "bar") == "bar bar"
  {
    var s := "foo foo";
    assert s[0..3] == "foo";
    ReplaceLeftmost(s, "foo", "bar", 0, 0);
    assert s[3] == ' ' && !OccursAt(s, "foo", 3);
    assert s[4..7] == "foo";
    ReplaceLeftmost(s, "foo", "bar", 3, 4);
    assert s[3..4] == " ";
    assert ReplaceFrom(s, "foo", "bar", 7) == [];
  }
}
