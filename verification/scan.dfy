/**
 `strings::strlen` and `strings::strchr`. Neither loop advances its cursor,
 so each one can only finish on its first test of the first byte. Since a
 non-terminating loop has no result, each is modelled with a budget `fuel`
 of loop iterations: the run either returns (`Halted`) or is still looping
 with its guard true when the budget is spent (`Spinning`). A contract that
 holds for every `fuel` says what happens however long the loop is run.
 */
module Scan {
  import opened CString

  /** `size_t` is 64 bits wide on the GPU and host targets. */
  const SIZE_MOD: nat := 0x1_0000_0000_0000_0000

  /** `strlen`: returns 0 when the first byte is the terminator and otherwise
      loops forever with the cursor at the first byte, the guard true and the
      counter `size` incremented (modulo `size_t`) once per iteration. */
  method Strlen(str: seq<Char>, fuel: nat) returns (r: Run<nat>, strPtr: nat, size: nat)
    requires |str| > 0
    ensures strPtr == 0
    ensures r == Halted(0) <==> str[0] == NUL
    ensures r == Spinning <==> str[0] != NUL
    ensures r == Spinning ==> str[strPtr] != NUL && size == fuel % SIZE_MOD
    ensures r.Halted? ==> NUL in str && r.value == Len(str)
  {
    size := 0;
    strPtr := 0;
    var iterations := 0;
    while str[strPtr] != NUL
      invariant strPtr == 0 && iterations <= fuel
      invariant size == iterations % SIZE_MOD
      invariant iterations > 0 ==> str[0] != NUL
      decreases fuel - iterations
    {
      if iterations == fuel {
        return Spinning, strPtr, size;
      }
      size := (size + 1) % SIZE_MOD;
      iterations := iterations + 1;
    }
    LenIsFirstNul(str, 0);
    r := Halted(size);
  }

  /** `strchr`: returns null when the first byte is the terminator, and the
      first byte's position when it equals `character` converted to `char`
      (once the loop is entered, which takes one iteration of budget).
      Otherwise it loops forever with the cursor at the first byte; in
      particular searching a non-empty string for 0 never returns. */
  method Strchr(str: seq<Char>, character: int, fuel: nat) returns (r: Run<Option<nat>>, strPtr: nat)
    requires |str| > 0
    ensures strPtr == 0
    ensures r == Halted(None) <==> str[0] == NUL
    ensures r == Halted(Some(0)) <==> str[0] != NUL && str[0] == ToChar(character) && fuel > 0
    ensures r == Spinning <==> str[0] != NUL && (str[0] != ToChar(character) || fuel == 0)
    ensures str[0] != NUL && ToChar(character) == NUL ==> r == Spinning
  {
    var charToFind := ToChar(character);
    strPtr := 0;
    var iterations := 0;
    while str[strPtr] != NUL
      invariant strPtr == 0 && iterations <= fuel
      invariant iterations > 0 ==> str[0] != NUL && str[0] != charToFind
      decreases fuel - iterations
    {
      if iterations == fuel {
        return Spinning, strPtr;
      }
      if str[strPtr] == charToFind {
        return Halted(Some(strPtr)), strPtr;
      }
      iterations := iterations + 1;
    }
    r := Halted(None);
  }

  /** `strlen` as evidently intended: the cursor advances once per iteration,
      and the count is the string's length. */
  method StrlenCorrected(str: seq<Char>) returns (size: nat)
    requires NUL in str
    ensures size < |str| && str[size] == NUL && NUL !in str[..size]
    ensures size == Len(str)
  {
    ghost var n := Len(str);
    assert forall m :: 0 <= m < n ==> str[..n][m] == str[m];
    size := 0;
    var strPtr := 0;
    while str[strPtr] != NUL
      invariant strPtr == size && size <= n
      decreases n - strPtr
    {
      size := size + 1;
      strPtr := strPtr + 1;
    }
  }

  /** `strchr` as evidently intended: the cursor advances once per iteration,
      and the result is the position of the first occurrence of the converted
      character before the terminator, or null when there is none. */
  method StrchrCorrected(str: seq<Char>, character: int) returns (r: Option<nat>)
    requires NUL in str
    ensures r.None? <==> ToChar(character) !in CStr(str)
    ensures r.Some? ==> r.value < Len(str) && str[r.value] == ToChar(character)
    ensures r.Some? ==> ToChar(character) !in str[..r.value]
  {
    var charToFind := ToChar(character);
    ghost var n := Len(str);
    assert forall m :: 0 <= m < n ==> str[..n][m] == str[m];
    var strPtr := 0;
    while str[strPtr] != NUL
      invariant strPtr <= n
      invariant charToFind !in str[..strPtr]
      decreases n - strPtr
    {
      if str[strPtr] == charToFind {
        return Some(strPtr);
      }
      assert str[..strPtr + 1] == str[..strPtr] + [str[strPtr]];
      strPtr := strPtr + 1;
    }
    assert strPtr == n;
    r := None;
  }

  /** "a" through `strlen` as written and as corrected: the first is still
      looping after any number of iterations, the second returns 1. */
  method StrlenDiscrepancy(fuel: nat) returns (asWritten: Run<nat>, corrected: nat)
    ensures asWritten == Spinning && corrected == 1
  {
    var str: seq<Char> := [97, 0];
    var strPtr, size;
    asWritten, strPtr, size := Strlen(str, fuel);
    LenIsFirstNul(str, 1);
    corrected := StrlenCorrected(str);
  }

  /** 'b' searched for in "ab" through `strchr` as written and as corrected:
      the first is still looping after any number of iterations, the second
      finds it at index 1. */
  method StrchrDiscrepancy(fuel: nat) returns (asWritten: Run<Option<nat>>, corrected: Option<nat>)
    ensures asWritten == Spinning && corrected == Some(1)
  {
    var str: seq<Char> := [97, 98, 0];
    var strPtr;
    asWritten, strPtr := Strchr(str, 98, fuel);
    LenIsFirstNul(str, 2);
    assert str[..1] == [97];
    corrected := StrchrCorrected(str, 98);
  }
}
