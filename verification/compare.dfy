/**
 `strings::strcmp`. The lock-step loop walks both strings while both bytes
 are non-terminators and equal; the result is then decided by the two bytes
 it stopped at. Bytes compare as signed `char` values, and a string that ends
 first (a proper prefix of the other) compares GREATER.
 */
module Compare {
  import opened CString

  /** Where the lock-step loop of `strcmp`, started at index `i`, stops: the
      first index at which either string ends or the two bytes differ. */
  function Lockstep(a: seq<Char>, b: seq<Char>, i: nat): (k: nat)
    requires NUL in a && NUL in b
    requires i <= Len(a) && i <= Len(b)
    ensures i <= k <= Len(a) && k <= Len(b)
    ensures a[i..k] == b[i..k]
    ensures a[k] == NUL || b[k] == NUL || a[k] != b[k]
    decreases Len(a) - i
  {
    if a[i] != NUL && b[i] != NUL && a[i] == b[i] then
      assert i < Len(a) && i < Len(b);
      var k := Lockstep(a, b, i + 1);
      assert a[i..k] == [a[i]] + a[i + 1..k];
      assert b[i..k] == [b[i]] + b[i + 1..k];
      k
    else i
  }

  /** The stopping index is the only index with a common prefix before it at
      which the loop's guard fails. */
  lemma LockstepUnique(a: seq<Char>, b: seq<Char>, j: nat)
    requires NUL in a && NUL in b
    requires j <= Len(a) && j <= Len(b)
    requires a[..j] == b[..j]
    requires a[j] == NUL || b[j] == NUL || a[j] != b[j]
    ensures Lockstep(a, b, 0) == j
  {
    var k := Lockstep(a, b, 0);
    assert forall m :: 0 <= m < Len(a) ==> a[..Len(a)][m] == a[m];
    assert forall m :: 0 <= m < Len(b) ==> b[..Len(b)][m] == b[m];
    assert forall m :: 0 <= m < j ==> a[..j][m] == a[m] && b[..j][m] == b[m];
    assert forall m :: 0 <= m < k ==> a[0..k][m] == a[m] && b[0..k][m] == b[m];
  }

  /** `strcmp`: decides on the two bytes the loop stopped at, inside the loop
      when both are non-terminators and after it otherwise. */
  function Strcmp(a: seq<Char>, b: seq<Char>): (r: int)
    requires NUL in a && NUL in b
    ensures r == -1 || r == 0 || r == 1
    ensures r == 0 <==> CStr(a) == CStr(b)
  {
    var k := Lockstep(a, b, 0);
    assert a[..k] == b[..k] by { assert a[0..k] == a[..k] && b[0..k] == b[..k]; }
    assert forall m :: 0 <= m < Len(a) ==> a[..Len(a)][m] == a[m];
    assert forall m :: 0 <= m < Len(b) ==> b[..Len(b)][m] == b[m];
    if a[k] != NUL && b[k] != NUL then
      if a[k] > b[k] then 1 else -1
    else if a[k] == NUL && b[k] == NUL then
      0
    else if a[k] == NUL then
      1
    else
      -1
  }

  /** The result is decided by the first index at which the strings differ
      (counting the terminator as part of each string). A string that ends
      there compares greater; otherwise the signed byte order decides. */
  lemma StrcmpAtFirstDifference(a: seq<Char>, b: seq<Char>, j: nat)
    requires NUL in a && NUL in b
    requires j <= Len(a) && j <= Len(b)
    requires a[..j] == b[..j] && a[j] != b[j]
    ensures Strcmp(a, b) == (if a[j] == NUL then 1
                             else if b[j] == NUL then -1
                             else if a[j] > b[j] then 1
                             else -1)
  {
    LockstepUnique(a, b, j);
  }

  /** A string that is a proper prefix of the other compares greater, and with
      the arguments swapped, less. */
  lemma StrcmpPrefix(a: seq<Char>, b: seq<Char>)
    requires NUL in a && NUL in b
    requires Len(a) < Len(b) && CStr(a) == b[..Len(a)]
    ensures Strcmp(a, b) == 1 && Strcmp(b, a) == -1
  {
    var n := Len(a);
    assert a[..n] == b[..n];
    assert b[..Len(b)][n] == b[n];
    StrcmpAtFirstDifference(a, b, n);
    StrcmpAtFirstDifference(b, a, n);
  }

  /** Swapping the arguments negates the result. */
  lemma StrcmpAntisymmetric(a: seq<Char>, b: seq<Char>)
    requires NUL in a && NUL in b
    ensures Strcmp(a, b) == -Strcmp(b, a)
  {
    var k := Lockstep(a, b, 0);
    assert a[..k] == b[..k] by { assert a[0..k] == a[..k] && b[0..k] == b[..k]; }
    LockstepUnique(b, a, k);
  }

  /** `x` is a proper prefix of `y`. */
  predicate ProperPrefix(x: seq<Char>, y: seq<Char>)
  {
    |x| < |y| && x == y[..|x|]
  }

  /** At the first index where `x` and `y` differ, both have a byte and
      `x`'s is smaller. */
  predicate SmallerAtDifference(x: seq<Char>, y: seq<Char>)
  {
    exists k :: 0 <= k < |x| && k < |y| && x[..k] == y[..k] && x[k] < y[k]
  }

  /** Lexicographic order of strings in signed byte order: a proper prefix
      comes first. ISO C would compare bytes as `unsigned char`. */
  predicate LexLess(x: seq<Char>, y: seq<Char>)
  {
    ProperPrefix(x, y) || SmallerAtDifference(x, y)
  }

  /** The order `Strcmp` implements: lexicographic, except that a proper prefix
      comes LAST, as if the terminator were larger than every byte. */
  lemma StrcmpOrder(a: seq<Char>, b: seq<Char>)
    requires NUL in a && NUL in b
    ensures Strcmp(a, b) == -1 <==> ProperPrefix(CStr(b), CStr(a)) || SmallerAtDifference(CStr(a), CStr(b))
    ensures Strcmp(a, b) == 1 <==> ProperPrefix(CStr(a), CStr(b)) || SmallerAtDifference(CStr(b), CStr(a))
  {
    var k := Lockstep(a, b, 0);
    assert a[..k] == b[..k] by { assert a[0..k] == a[..k] && b[0..k] == b[..k]; }
    LockstepUnique(b, a, k);
    StopOrder(a, b);
    StopOrder(b, a);
  }

  /** How the stopping index relates to the two strings read from `a` and `b`. */
  lemma StopOrder(a: seq<Char>, b: seq<Char>)
    requires NUL in a && NUL in b
    ensures ProperPrefix(CStr(a), CStr(b)) <==>
              (var k := Lockstep(a, b, 0); a[k] == NUL && b[k] != NUL)
    ensures SmallerAtDifference(CStr(a), CStr(b)) <==>
              (var k := Lockstep(a, b, 0); a[k] != NUL && b[k] != NUL && a[k] < b[k])
  {
    var k := Lockstep(a, b, 0);
    var x, y := CStr(a), CStr(b);
    assert a[..k] == b[..k] by { assert a[0..k] == a[..k] && b[0..k] == b[..k]; }
    assert forall m :: 0 <= m < Len(a) ==> x[m] == a[m];
    assert forall m :: 0 <= m < Len(b) ==> y[m] == b[m];
    assert x[..k] == a[..k] && y[..k] == b[..k];
    if ProperPrefix(x, y) {
      var n := |x|;
      assert a[..n] == b[..n] by { assert x == y[..n]; }
      assert a[n] == NUL && b[n] != NUL;
      LockstepUnique(a, b, n);
    }
    if a[k] == NUL && b[k] != NUL {
      assert k == Len(a) && k < Len(b);
      assert x == y[..|x|];
    }
    if SmallerAtDifference(x, y) {
      var j :| 0 <= j < |x| && j < |y| && x[..j] == y[..j] && x[j] < y[j];
      assert a[..j] == x[..j] && b[..j] == y[..j];
      LockstepUnique(a, b, j);
    }
    if a[k] != NUL && b[k] != NUL && a[k] < b[k] {
      assert k < Len(a) && k < Len(b);
      assert x[..k] == y[..k] && x[k] < y[k];
    }
  }

  /** `strcmp` as evidently intended: the same loop, with the results of the
      two terminator-mismatch cases exchanged so that a proper prefix compares less.
      It then orders strings lexicographically. */
  function StrcmpCorrected(a: seq<Char>, b: seq<Char>): (r: int)
    requires NUL in a && NUL in b
    ensures r == 0 <==> CStr(a) == CStr(b)
    ensures r == -1 <==> LexLess(CStr(a), CStr(b))
    ensures r == 1 <==> LexLess(CStr(b), CStr(a))
  {
    var k := Lockstep(a, b, 0);
    assert a[..k] == b[..k] by { assert a[0..k] == a[..k] && b[0..k] == b[..k]; }
    assert forall m :: 0 <= m < Len(a) ==> a[..Len(a)][m] == a[m];
    assert forall m :: 0 <= m < Len(b) ==> b[..Len(b)][m] == b[m];
    StopOrder(a, b);
    StopOrder(b, a);
    LockstepUnique(b, a, k);
    if a[k] != NUL && b[k] != NUL then
      if a[k] > b[k] then 1 else -1
    else if a[k] == NUL && b[k] == NUL then
      0
    else if a[k] == NUL then
      -1
    else
      1
  }

  /** "abc" against "abcd": the code answers that "abc" is greater, although
      it comes first lexicographically. */
  lemma StrcmpPrefixDiscrepancy()
    ensures var a, b := [97, 98, 99, 0], [97, 98, 99, 100, 0];
            Strcmp(a, b) == 1 && StrcmpCorrected(a, b) == -1 && LexLess(CStr(a), CStr(b))
  {
    var a: seq<Char>, b: seq<Char> := [97, 98, 99, 0], [97, 98, 99, 100, 0];
    LenIsFirstNul(a, 3);
    LenIsFirstNul(b, 4);
    StrcmpPrefix(a, b);
  }
}
