/** Optional values: a JavaScript value that may be `undefined`. */
module Wrappers {
  datatype Option<+T> = None | Some(value: T)
}

/**
 The operations of JavaScript's `String.prototype` that the link component
 uses (`startsWith`, `includes`, `indexOf` and `replace` with a string
 pattern), stated over `seq<char>`. Its `slice` calls are Dafny's built-in
 subsequences `s[..i]` and `s[i..]`.
 */
module Strings {

  /** `p` occurs in `s` starting at index `i`. */
  predicate IsAt(s: string, p: string, i: int) {
    0 <= i && i + |p| <= |s| && s[i..i + |p|] == p
  }

  /** `s.startsWith(p)` */
  predicate StartsWith(s: string, p: string)
    ensures StartsWith(s, p) <==> |p| <= |s| && forall k :: 0 <= k < |p| ==> s[k] == p[k]
  {
    assert |p| <= |s| ==> forall k :: 0 <= k < |p| ==> s[..|p|][k] == s[k];
    IsAt(s, p, 0)
  }

  /** `s.includes(p)` */
  predicate Contains(s: string, p: string) {
    exists i :: 0 <= i <= |s| && IsAt(s, p, i)
  }

  /** `i` is the leftmost index at which `p` occurs in `s`. */
  predicate FirstOccurrence(s: string, p: string, i: int) {
    IsAt(s, p, i) && forall j :: 0 <= j < i ==> !IsAt(s, p, j)
  }

  /** The leftmost occurrence of `p` in `s` at or after `from`, or -1 if there is none. */
  function IndexOfFrom(s: string, p: string, from: nat): (r: int)
    requires from <= |s|
    ensures r == -1 <==> forall j :: from <= j ==> !IsAt(s, p, j)
    ensures r != -1 ==> from <= r && IsAt(s, p, r) && forall j :: from <= j < r ==> !IsAt(s, p, j)
    decreases |s| - from
  {
    if from + |p| > |s| then -1
    else if s[from..from + |p|] == p then assert IsAt(s, p, from); from
    else IndexOfFrom(s, p, from + 1)
  }

  /** `s.indexOf(p)`: the first occurrence of `p` in `s`, or -1 when `p` does not occur. */
  function IndexOf(s: string, p: string): (r: int)
    ensures r == -1 <==> !Contains(s, p)
    ensures r != -1 ==> FirstOccurrence(s, p, r)
  {
    IndexOfFrom(s, p, 0)
  }

  /**
   `s.replace(p, rep)` for a string pattern `p` and a replacement `rep` without
   `$` substitution patterns: only the first occurrence of `p` is replaced.
   */
  function ReplaceFirst(s: string, p: string, rep: string): (r: string)
    ensures !Contains(s, p) ==> r == s
    ensures Contains(s, p) ==> exists i :: FirstOccurrence(s, p, i) && r == s[..i] + rep + s[i + |p|..]
  {
    var i := IndexOf(s, p);
    if i == -1 then s else s[..i] + rep + s[i + |p|..]
  }

  /** The leftmost occurrence is unique. */
  lemma FirstOccurrenceUnique(s: string, p: string, i: int, k: int)
    requires FirstOccurrence(s, p, i) && FirstOccurrence(s, p, k)
    ensures i == k
  {
  }

  /** An occurrence starts with the pattern's first character. */
  lemma IsAtHead(s: string, p: string, i: int)
    requires IsAt(s, p, i) && p != []
    ensures i < |s| && s[i] == p[0]
  {
    assert s[i..i + |p|][0] == p[0];
  }

  /** Starting with a single character means having it at index 0. */
  lemma StartsWithChar(s: string, c: char)
    ensures StartsWith(s, [c]) <==> |s| > 0 && s[0] == c
  {
    if |s| > 0 {
      assert s[0..1] == [s[0]];
    }
  }

  /** A single-character pattern occurs exactly when that character is an element. */
  lemma {:induction false} ContainsChar(s: string, c: char)
    ensures Contains(s, [c]) <==> c in s
  {
    if c in s {
      var i :| 0 <= i < |s| && s[i] == c;
      assert IsAt(s, [c], i);
    }
    if Contains(s, [c]) {
      var i :| IsAt(s, [c], i);
      IsAtHead(s, [c], i);
    }
  }

  /** A non-empty pattern whose first character is absent from `s` does not occur in it. */
  lemma {:induction false} AbsentHead(s: string, p: string)
    requires p != [] && p[0] !in s
    ensures !Contains(s, p)
  {
    if Contains(s, p) {
      var i :| IsAt(s, p, i);
      IsAtHead(s, p, i);
      assert false;
    }
  }

  /** An occurrence inside a prefix of `s` is an occurrence in `s` that ends within the prefix. */
  lemma OccurrenceInPrefix(s: string, p: string, k: int, j: int)
    requires 0 <= k <= |s| && IsAt(s[..k], p, j)
    ensures IsAt(s, p, j) && j + |p| <= k
  {
    assert s[..k][j..j + |p|] == s[j..j + |p|];
  }

  /** An occurrence is the leftmost one when the pattern's first character does
      not appear before it. */
  lemma {:induction false} FirstOccurrenceByHead(s: string, p: string, i: int)
    requires IsAt(s, p, i) && p != [] && p[0] !in s[..i]
    ensures FirstOccurrence(s, p, i)
  {
    forall j | 0 <= j < i ensures !IsAt(s, p, j) {
      assert s[..i][j] == s[j];
      if IsAt(s, p, j) {
        IsAtHead(s, p, j);
      }
    }
  }

  /** Replacing at a known leftmost occurrence: the result is the text before it,
      the replacement, and the text after it. */
  lemma ReplaceFirstAt(s: string, p: string, rep: string, i: int)
    requires FirstOccurrence(s, p, i)
    ensures ReplaceFirst(s, p, rep) == s[..i] + rep + s[i + |p|..]
  {
  }

  /** An empty pattern occurs at index 0, so the replacement is put in front of `s`. */
  lemma {:induction false} ReplaceFirstEmptyPattern(s: string, rep: string)
    ensures ReplaceFirst(s, [], rep) == rep + s
  {
    assert FirstOccurrence(s, [], 0);
    ReplaceFirstAt(s, [], rep, 0);
    assert s[..0] == [] && s[0..] == s;
  }

  /** When `s` starts with `c` and the non-empty pattern does not, the first
      character survives the replacement. */
  lemma {:induction false} ReplaceFirstKeepsHead(s: string, p: string, rep: string, c: char)
    requires StartsWith(s, [c]) && p != [] && p[0] != c
    ensures StartsWith(ReplaceFirst(s, p, rep), [c])
  {
    var r := ReplaceFirst(s, p, rep);
    if Contains(s, p) {
      var i := IndexOf(s, p);
      IsAtHead(s, p, i);
      assert s[0] == c by { assert s[0..1][0] == s[0]; }
      assert 0 < i;
      ReplaceFirstAt(s, p, rep, i);
      assert r[0] == s[0];
      assert r[0..1] == [c];
    }
  }
}
