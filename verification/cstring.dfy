/**
 Byte-level representation of the null-terminated strings handled by the
 `metal::strings` routines: a Metal `char` (signed, 8 bits), the terminator,
 the length of a string read from a buffer, and the buffer that results from
 writing a run of bytes followed by one terminator.
 */
module CString {

  /** A Metal `char`. Apple GPU and host targets both treat `char` as signed. */
  type Char = c: int | -128 <= c <= 127

  /** The terminator `NULL_CHAR`. */
  const NUL: Char := 0

  datatype Option<T> = None | Some(value: T)

  /** The outcome of running a loop that may not terminate with a budget of
      iterations: it either returned a value or was still looping when the
      budget ran out. */
  datatype Run<T> = Halted(value: T) | Spinning

  /** The implicit conversion `const char c = character;` from `int`: two's
      complement truncation to the low eight bits. */
  function ToChar(c: int): (r: Char)
    ensures (r - c) % 256 == 0
    ensures -128 <= c <= 127 ==> r == c
  {
    (c + 128) % 256 - 128
  }

  /** The number of bytes before the first terminator of `s`. */
  function Len(s: seq<Char>): (n: nat)
    requires NUL in s
    ensures n < |s| && s[n] == NUL
    ensures NUL !in s[..n]
  {
    if s[0] == NUL then 0
    else
      var n := Len(s[1..]) + 1;
      assert s[..n] == [s[0]] + s[1..][..n - 1];
      n
  }

  /** The string `s` holds: its bytes before the first terminator. */
  function CStr(s: seq<Char>): seq<Char>
    requires NUL in s
  {
    s[..Len(s)]
  }

  /** `buf` after writing `bytes` at index `d` followed by one terminator. */
  function WriteString(buf: seq<Char>, d: nat, bytes: seq<Char>): (r: seq<Char>)
    requires d + |bytes| < |buf|
    ensures |r| == |buf|
    ensures r[d..d + |bytes|] == bytes && r[d + |bytes|] == NUL
    ensures forall k :: 0 <= k < |buf| && !(d <= k <= d + |bytes|) ==> r[k] == buf[k]
  {
    buf[..d] + bytes + [NUL] + buf[d + |bytes| + 1..]
  }

  /** A terminator preceded only by non-terminators is the first one. */
  lemma LenIsFirstNul(s: seq<Char>, k: nat)
    requires k < |s| && s[k] == NUL && NUL !in s[..k]
    ensures NUL in s && Len(s) == k
  {
    var n := Len(s);
    assert forall j :: 0 <= j < k ==> s[..k][j] == s[j];
    assert forall j :: 0 <= j < n ==> s[..n][j] == s[j];
  }

  /** Reading a string that starts with terminator-free bytes `p`. */
  lemma CStrAfterPrefix(p: seq<Char>, x: seq<Char>)
    requires NUL !in p && NUL in x
    ensures NUL in p + x && CStr(p + x) == p + CStr(x)
  {
    var n := Len(x);
    var s := p + x;
    assert s[|p| + n] == NUL;
    assert s[..|p| + n] == p + x[..n];
    LenIsFirstNul(s, |p| + n);
  }

  /** Reading a string whose terminator lies inside an unchanged prefix `p`. */
  lemma CStrWithinPrefix(p: seq<Char>, x: seq<Char>)
    requires NUL in p
    ensures NUL in p + x && CStr(p + x) == CStr(p)
  {
    var n := Len(p);
    var s := p + x;
    assert s[..n] == p[..n];
    assert s[n] == NUL;
    LenIsFirstNul(s, n);
  }

  /** Reading back, from any position `from` at or before `d`, the buffer that
      `WriteString` produces: the untouched bytes, then `bytes` up to their
      first terminator (which may be the appended one). */
  lemma ReadWritten(buf: seq<Char>, from: nat, d: nat, bytes: seq<Char>)
    requires from <= d && d + |bytes| < |buf|
    requires NUL !in buf[from..d]
    ensures NUL in WriteString(buf, d, bytes)[from..]
    ensures CStr(WriteString(buf, d, bytes)[from..]) == buf[from..d] + CStr(bytes + [NUL])
  {
    var w := WriteString(buf, d, bytes);
    var rest := buf[d + |bytes| + 1..];
    assert w[from..] == buf[from..d] + ((bytes + [NUL]) + rest);
    CStrWithinPrefix(bytes + [NUL], rest);
    CStrAfterPrefix(buf[from..d], (bytes + [NUL]) + rest);
  }

  /** A string of terminator-free bytes reads back as itself. */
  lemma CStrTerminated(bytes: seq<Char>)
    requires NUL !in bytes
    ensures NUL in bytes + [NUL] && CStr(bytes + [NUL]) == bytes
  {
    LenIsFirstNul(bytes + [NUL], |bytes|);
    assert (bytes + [NUL])[..|bytes|] == bytes;
  }

  /** Writing at or after the first terminator seen from `from` does not change
      the string read from `from`. */
  lemma ReadBeforeWrite(buf: seq<Char>, from: nat, d: nat, bytes: seq<Char>)
    requires from <= d && d + |bytes| < |buf|
    requires NUL in buf[from..d]
    ensures NUL in buf[from..] && NUL in WriteString(buf, d, bytes)[from..]
    ensures CStr(WriteString(buf, d, bytes)[from..]) == CStr(buf[from..])
  {
    var w := WriteString(buf, d, bytes);
    assert w[from..] == buf[from..d] + w[d..];
    assert buf[from..] == buf[from..d] + buf[d..];
    CStrWithinPrefix(buf[from..d], w[d..]);
    CStrWithinPrefix(buf[from..d], buf[d..]);
  }
  /** A buffer that agrees with `WriteString` byte by byte is that buffer. */
  lemma WriteStringByBytes(buf: seq<Char>, d: nat, bytes: seq<Char>, mem: seq<Char>)
    requires d + |bytes| < |buf| && |mem| == |buf|
    requires forall k :: 0 <= k < |buf| ==>
               mem[k] == if d <= k < d + |bytes| then bytes[k - d] else if k == d + |bytes| then NUL else buf[k]
    ensures mem == WriteString(buf, d, bytes)
  {
    var w := WriteString(buf, d, bytes);
    assert forall k :: d <= k < d + |bytes| ==> w[k] == w[d..d + |bytes|][k - d];
  }
}
