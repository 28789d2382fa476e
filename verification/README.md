# metal::strings in Dafny

A model of the null-terminated string primitives of the `metal::strings`
namespace (`strcmp`, `strncpy`, `strcpy`, `strncat`, `strcat`, `strlen`,
`strchr`), a small C-string library for Metal GPU kernels, with proofs of what
each routine does as written, including where it departs from ISO C `<string.h>`.

Representation:

- A Metal `char` is signed: `CString.Char` is the integers `-128..127`, and
  `strcmp` compares bytes in that signed order (ISO C compares as `unsigned char`).
- The terminator `NULL_CHAR` is `CString.NUL`, the value 0.
- A device buffer is a `seq<Char>` and a pointer into it is an index. A routine
  that writes returns the buffer it leaves behind (`mem`) and the pointer it
  returns (`ret`). The source of a copy is a separate sequence read from its
  start, since overlapping source and destination are undefined.
- `CString.Len(s)` is the index of the first terminator, `CString.CStr(s)` the
  string `s` holds, and `CString.WriteString(buf, d, bytes)` the buffer after
  `bytes` and one terminator are written at `d`.
- `strlen` and `strchr` never advance their cursor, so they return only when
  the first byte decides the result: `strlen` on an empty string, `strchr` on an
  empty string or a matching first byte. They are methods with an iteration budget `fuel`. The result is
  `Halted(v)` when the routine returned `v`, and `Spinning` when the budget ran
  out with the loop guard still true. Contracts quantify over every `fuel`.

Modules: `CString` (representation), `Compare` (`strcmp`), `Copy` (`strncpy`,
`strcpy`), `Concat` (`strncat`, `strcat`), `Scan` (`strlen`, `strchr`).

Where the routines' descriptions and the code disagree, the model follows the
code. The code's `strcat` of "foo" and "bar" gives `f,o,o,0,b,a,r,0`, not "foobar".
The code's `strcat` and `strncat` return the start of the appended copy, not the
destination. On a non-empty string the code's `strlen` never returns, and its
`strchr` never returns unless the first byte matches; on an empty string they
return 0 and null.

## Model

| member | source | states |
|---|---|---|
| `CString.ToChar` | string/runner/metal_strings.h:151 | the `int` to `char` conversion keeps the value modulo 256 and is the identity on `-128..127` |
| `Compare.Lockstep` | string/runner/metal_strings.h:72-81 | the lock-step loop stops at the first index where either string ends or the bytes differ, with equal bytes before it and neither string ended earlier |
| `Compare.Strcmp` | string/runner/metal_strings.h:68-90 | the result is only -1, 0 or 1, and it is 0 exactly when the two strings have the same bytes up to and including their terminators |
| `Compare.StrcmpAtFirstDifference` | string/runner/metal_strings.h:72-89 | at the first differing index, a string that ends there compares greater; otherwise the larger signed byte compares greater |
| `Compare.StrcmpPrefix` | string/runner/metal_strings.h:83-89 | a proper prefix compares as +1 against the longer string, and the longer string compares as -1 against it |
| `Compare.StrcmpAntisymmetric` | string/runner/metal_strings.h:72-89 | swapping the arguments negates the result |
| `Compare.StrcmpOrder` | string/runner/metal_strings.h:68-90 | -1 means the first argument's bytes are smaller at the first difference, or the second is a proper prefix of the first; +1 is the mirror case |
| `Compare.StrcmpPrefixDiscrepancy` | string/runner/metal_strings.h:85-86 | "abc" against "abcd" gives +1 although "abc" is lexicographically first; the corrected version gives -1 |
| `Compare.StrcmpCorrected` | string/runner/metal_strings.h:83-89 | with the two terminator-mismatch results exchanged: -1 exactly when the first string is lexicographically less, +1 exactly when greater, 0 exactly when equal |
| `Copy.Strncpy` | string/runner/metal_strings.h:92-104 | exactly `num` source bytes, terminators included, land at the destination; then one terminator is written. No byte outside those `num + 1` changes, nothing is zero-padded, and the destination start is returned |
| `Copy.StrncpyReadBack` | string/runner/metal_strings.h:92-104 | the destination then reads as the source string if it ends within `num` bytes, otherwise as the first `num` source bytes |
| `Copy.StrncpyNoPadding` | string/runner/metal_strings.h:96-101 | copying "hi" with `num` 5 from the buffer `h,i,0,X,Y` yields `h,i,0,X,Y,0`: bytes past the source terminator are copied and none are zeroed |
| `Copy.Strcpy` | string/runner/metal_strings.h:106-118 | the source string and one terminator are written at the destination, every later byte is unchanged, the destination reads back as the source string, and the destination start is returned |
| `Copy.StrcpyReadBack` | string/runner/metal_strings.h:106-118 | after the copy, the destination reads back as exactly the source string |
| `Concat.EndOfDest` | string/runner/metal_strings.h:124 | the post-increment scan stops one byte past the destination's first terminator |
| `Concat.Strncat` | string/runner/metal_strings.h:120-128 | the destination string and its terminator are kept. `num` source bytes and a terminator are written one byte past that terminator, and that position is returned. The destination still reads as its old string |
| `Concat.Strcat` | string/runner/metal_strings.h:130-138 | the destination string and its terminator are kept. The source string and a terminator are written one byte past that terminator, and that position is returned. The destination still reads as its old string, and the returned position reads as the source |
| `Concat.AppendedIsInvisible` | string/runner/metal_strings.h:133-137 | writing at the scan's end position leaves every byte up to and including the destination terminator alone, so the string read from the destination is unchanged |
| `Concat.StrcatFooBar` | string/runner/metal_strings.h:130-138 | "foo" with "bar" gives `f,o,o,0,b,a,r,0`, reads as "foo", and returns index 4 |
| `Concat.StrncatFooBa` | string/runner/metal_strings.h:120-128 | "foo" with two bytes of "bar" gives `f,o,o,0,b,a,0`, reads as "foo", and returns index 4 |
| `Concat.StrcatDiscrepancy` | string/runner/metal_strings.h:134 | on "foo" and "bar" the code as written reads "foo" afterwards, the corrected one "foobar" |
| `Concat.StrncatDiscrepancy` | string/runner/metal_strings.h:124 | on "foo" and two bytes of "bar" the code as written reads "foo" afterwards, the corrected one "fooba" |
| `Concat.EndOfString` | string/runner/metal_strings.h:133-134 | the corrected scan stops at the destination's first terminator |
| `Concat.StrcatCorrected` | string/runner/metal_strings.h:130-138 | with the corrected scan, the destination reads as its old string followed by the source string, and the destination start is returned |
| `Concat.StrncatCorrected` | string/runner/metal_strings.h:120-128 | with the corrected scan, the destination reads as its old string followed by the source cut at `num` bytes, and the destination start is returned |
| `Scan.Strlen` | string/runner/metal_strings.h:140-148 | the cursor stays at the first byte. Returns 0 exactly when the first byte is the terminator, which is then the string's length. Otherwise, for every budget, the loop is still running with its guard true and the counter has been incremented once per iteration modulo `size_t` |
| `Scan.Strchr` | string/runner/metal_strings.h:150-160 | the cursor stays at the first byte. Returns null exactly when the first byte is the terminator, and index 0 exactly when the first byte equals the converted character. Otherwise it loops forever; in particular, searching a non-empty string for 0 never returns |
| `Scan.StrlenCorrected` | string/runner/metal_strings.h:143-145 | with the cursor advanced each iteration, the count is the index of the first terminator |
| `Scan.StrchrCorrected` | string/runner/metal_strings.h:153-157 | with the cursor advanced each iteration, the result is the first position before the terminator holding the converted character, or null exactly when there is none |
| `Scan.StrlenDiscrepancy` | string/runner/metal_strings.h:143-145 | on "a" the code as written is still looping after any budget, and the corrected one returns 1 |
| `Scan.StrchrDiscrepancy` | string/runner/metal_strings.h:153-157 | searching "ab" for 'b', the code as written is still looping after any budget, and the corrected one returns index 1 |

## Left out

- The `metal::memory` copy helpers (string/runner/metal_strings.h:28-62) are left out. Each one is a single element assignment followed by a `threadgroup_barrier` or `simdgroup_barrier`, and that barrier is concurrency.
- The address-space macros (string/runner/metal_strings.h:10-24) are left out. They only erase type qualifiers and have no runtime behaviour.
- The pointer-nullness tests in the loop guards are left out. Every pointer is a valid index.
- Out-of-bounds reads and writes, missing terminators and overlapping buffers are undefined in the source. They appear as preconditions, not as modelled behaviour.
- Writes happen in place in the source. Here the destination buffer is a value, and each call returns the buffer it leaves behind.
- Scan.Strlen: running forever is not modelled directly. A run is cut off after `fuel` iterations, and the contract holds for every `fuel`.
- Scan.Strchr: running forever is not modelled directly, as for `Scan.Strlen`.
- Scan.Strlen: under the C++ forward-progress rule a loop without side effects that never ends is undefined behaviour, so a compiler may assume it ends or remove it. "Never returns" is the abstract-machine reading of the loop, not a promise about the compiled kernel.
- Scan.Strchr: the same forward-progress caveat applies; "never returns" is the abstract-machine reading, not a promise about the compiled kernel.
- Scan.Strchr: with a budget of 0 it reports `Spinning` even when the first byte matches, because no iteration has started.
- Compare.Strcmp: requires both strings to be terminated within their buffers. The source reads only up to the first difference.
- Copy.Strncpy: requires the source buffer to hold `num` bytes. The source reads `num` bytes whatever the terminator, and memory past the buffer is not modelled.
- Scan.StrchrCorrected: keeps the loop guard that stops at the terminator, so searching for 0 returns null. ISO C would return the terminator's position.
- string/runner/main.swift is not part of this model. It is a host-side test driver.

## Findings

| source | as written | input that shows it | evidently intended | confidence | as-written member | corrected member |
|---|---|---|---|---|---|---|
| string/runner/metal_strings.h:134 | `while (endOfDest && *endOfDest++ != NULL_CHAR)` leaves the cursor one past the terminator. `strcpy` then writes after it and returns that interior pointer | destination `f,o,o,0` plus spare bytes, source "bar": the result is `f,o,o,0,b,a,r,0`, which reads "foo" | the source is appended over the terminator, the result reads "foobar", and the destination is returned | high (not executed) | `Concat.Strcat`, `Concat.StrcatDiscrepancy` | `Concat.StrcatCorrected` |
| string/runner/metal_strings.h:124 | same post-increment scan before `strncpy` | destination `f,o,o,0` plus spare bytes, source "bar", `num` 2: the result is `f,o,o,0,b,a,0`, which reads "foo" | the result reads "fooba" and the destination is returned | high (not executed) | `Concat.Strncat`, `Concat.StrncatDiscrepancy` | `Concat.StrncatCorrected` |
| string/runner/metal_strings.h:143-145 | the loop body increments `size` but never `strPtr` | "a": the guard stays true forever | return 1, the length | high (not executed) | `Scan.Strlen`, `Scan.StrlenDiscrepancy` | `Scan.StrlenCorrected` |
| string/runner/metal_strings.h:153-157 | the loop body never advances `strPtr` | "ab" searched for 'b': the guard stays true forever | return index 1 | high (not executed) | `Scan.Strchr`, `Scan.StrchrDiscrepancy` | `Scan.StrchrCorrected` |
| string/runner/metal_strings.h:85-88 | when only the first string has ended, the result is 1; when only the second has, it is -1 | "abc" against "abcd" gives +1 | a proper prefix compares less (-1), as in lexicographic order | medium (not executed) | `Compare.Strcmp`, `Compare.StrcmpPrefixDiscrepancy` | `Compare.StrcmpCorrected` |
