/**
 `strings::strncat` and `strings::strcat`. Both scan for the end of the
 destination with `*endOfDest++ != NULL_CHAR`, which leaves the cursor one
 byte PAST the terminator, and then hand that cursor to `strncpy` / `strcpy`.
 So the destination's terminator survives, the appended bytes are invisible
 when the destination is read as a string, and the returned pointer is the
 start of the appended copy.
 */
module Concat {
  import opened CString
  import opened Copy

  /** The scan `while (*endOfDest++ != NULL_CHAR) {}`: it stops one byte after
      the destination's first terminator. */
  method EndOfDest(buf: seq<Char>, dest: nat) returns (endOfDest: nat)
    requires dest <= |buf| && NUL in buf[dest..]
    ensures endOfDest == dest + Len(buf[dest..]) + 1
  {
    ghost var n := Len(buf[dest..]);
    assert forall m :: 0 <= m < n ==> buf[dest..][..n][m] == buf[dest + m];
    endOfDest := dest;
    while true
      invariant dest <= endOfDest <= dest + n
      decreases dest + n - endOfDest
    {
      var c := buf[endOfDest];
      endOfDest := endOfDest + 1;
      if c == NUL {
        return;
      }
    }
  }

  /** `strncat`: the destination string and its terminator are kept, `num`
      bytes of the source and a terminator are written one byte after it,
      and that position is returned. */
  method Strncat(buf: seq<Char>, dest: nat, src: seq<Char>, num: nat) returns (mem: seq<Char>, ret: nat)
    requires dest <= |buf| && NUL in buf[dest..]
    requires num <= |src|
    requires dest + Len(buf[dest..]) + 1 + num < |buf|
    ensures ret == dest + Len(buf[dest..]) + 1
    ensures mem == WriteString(buf, ret, src[..num])
    ensures mem[..ret] == buf[..ret]
    ensures NUL in mem[dest..] && CStr(mem[dest..]) == CStr(buf[dest..])
  {
    var endOfDest := EndOfDest(buf, dest);
    mem, ret := Strncpy(buf, endOfDest, src, num);
    AppendedIsInvisible(buf, dest, endOfDest, src[..num]);
  }

  /** `strcat`: the destination string and its terminator are kept, the source
      string and a terminator are written one byte after it, and that position
      is returned. */
  method Strcat(buf: seq<Char>, dest: nat, src: seq<Char>) returns (mem: seq<Char>, ret: nat)
    requires dest <= |buf| && NUL in buf[dest..]
    requires NUL in src
    requires dest + Len(buf[dest..]) + 1 + Len(src) < |buf|
    ensures ret == dest + Len(buf[dest..]) + 1
    ensures mem == WriteString(buf, ret, CStr(src))
    ensures mem[..ret] == buf[..ret]
    ensures NUL in mem[dest..] && CStr(mem[dest..]) == CStr(buf[dest..])
    ensures NUL in mem[ret..] && CStr(mem[ret..]) == CStr(src)
  {
    var endOfDest := EndOfDest(buf, dest);
    mem, ret := Strcpy(buf, endOfDest, src);
    AppendedIsInvisible(buf, dest, endOfDest, CStr(src));
  }

  /** Writing one byte past the destination's terminator leaves everything up
      to and including that terminator alone, so the string read from the
      destination is unchanged. */
  lemma AppendedIsInvisible(buf: seq<Char>, dest: nat, endOfDest: nat, bytes: seq<Char>)
    requires dest <= |buf| && NUL in buf[dest..]
    requires endOfDest == dest + Len(buf[dest..]) + 1
    requires endOfDest + |bytes| < |buf|
    ensures WriteString(buf, endOfDest, bytes)[..endOfDest] == buf[..endOfDest]
    ensures NUL in WriteString(buf, endOfDest, bytes)[dest..]
    ensures CStr(WriteString(buf, endOfDest, bytes)[dest..]) == CStr(buf[dest..])
  {
    var n := Len(buf[dest..]);
    assert buf[dest..endOfDest][n] == NUL;
    ReadBeforeWrite(buf, dest, endOfDest, bytes);
  }

  /** "foo" concatenated with "bar" in an eight-byte buffer: the result is
      'f', 'o', 'o', 0, 'b', 'a', 'r', 0, which still reads as "foo", and the
      returned pointer is index 4. */
  method StrcatFooBar() returns (mem: seq<Char>, ret: nat)
    ensures mem == [102, 111, 111, 0, 98, 97, 114, 0] && ret == 4
    ensures NUL in mem && CStr(mem) == [102, 111, 111]
  {
    var buf: seq<Char> := [102, 111, 111, 0, 1, 1, 1, 1];
    var src: seq<Char> := [98, 97, 114, 0];
    FooBarInputs(buf, src, 4);
    mem, ret := Strcat(buf, 0, src);
    WriteFooBar(buf, [98, 97, 114]);
    assert mem[0..] == mem;
  }

  /** "foo" concatenated with the first two bytes of "bar": 'f', 'o', 'o', 0,
      'b', 'a', 0, which still reads as "foo". */
  method StrncatFooBa() returns (mem: seq<Char>, ret: nat)
    ensures mem == [102, 111, 111, 0, 98, 97, 0] && ret == 4
    ensures NUL in mem && CStr(mem) == [102, 111, 111]
  {
    var buf: seq<Char> := [102, 111, 111, 0, 1, 1, 1];
    var src: seq<Char> := [98, 97, 114, 0];
    FooBarInputs(buf, src, 3);
    mem, ret := Strncat(buf, 0, src, 2);
    assert src[..2] == [98, 97];
    WriteFooBar(buf, [98, 97]);
    assert mem[0..] == mem;
  }

  /** The inputs of the examples: "foo" followed by `spare` further bytes, and
      "bar". */
  lemma FooBarInputs(buf: seq<Char>, src: seq<Char>, spare: nat)
    requires buf == [102, 111, 111, 0] + seq(spare, _ => 1)
    requires src == [98, 97, 114, 0]
    ensures NUL in buf && NUL in buf[0..] && Len(buf[0..]) == 3 && CStr(buf) == [102, 111, 111]
    ensures NUL in src && Len(src) == 3 && CStr(src) == [98, 97, 114]
  {
    assert buf[..3] == [102, 111, 111];
    LenIsFirstNul(buf, 3);
    assert buf[0..] == buf;
    LenIsFirstNul(src, 3);
  }

  /** The bytes `WriteString` leaves when `bytes` follow "foo" and its terminator. */
  lemma WriteFooBar(buf: seq<Char>, bytes: seq<Char>)
    requires |buf| == 5 + |bytes| && buf[..4] == [102, 111, 111, 0]
    ensures WriteString(buf, 4, bytes) == [102, 111, 111, 0] + bytes + [0]
  {
  }

  /** The scan as evidently intended: it stops AT the destination's first
      terminator. */
  method EndOfString(buf: seq<Char>, dest: nat) returns (endOfDest: nat)
    requires dest <= |buf| && NUL in buf[dest..]
    ensures endOfDest == dest + Len(buf[dest..])
  {
    ghost var n := Len(buf[dest..]);
    assert forall m :: 0 <= m < n ==> buf[dest..][..n][m] == buf[dest + m];
    endOfDest := dest;
    while buf[endOfDest] != NUL
      invariant dest <= endOfDest <= dest + n
      decreases dest + n - endOfDest
    {
      endOfDest := endOfDest + 1;
    }
  }

  /** `strcat` as evidently intended: the source string is appended over the
      destination's terminator and the destination pointer is returned, so the
      result reads as the concatenation of the two strings. */
  method StrcatCorrected(buf: seq<Char>, dest: nat, src: seq<Char>) returns (mem: seq<Char>, ret: nat)
    requires dest <= |buf| && NUL in buf[dest..]
    requires NUL in src
    requires dest + Len(buf[dest..]) + Len(src) < |buf|
    ensures ret == dest
    ensures mem == WriteString(buf, dest + Len(buf[dest..]), CStr(src))
    ensures NUL in mem[dest..] && CStr(mem[dest..]) == CStr(buf[dest..]) + CStr(src)
  {
    var endOfDest := EndOfString(buf, dest);
    var copied;
    mem, copied := Strcpy(buf, endOfDest, src);
    ret := dest;
    AppendedString(buf, dest, src);
  }

  /** The string read from the destination after the corrected `strcat`. */
  lemma AppendedString(buf: seq<Char>, dest: nat, src: seq<Char>)
    requires dest <= |buf| && NUL in buf[dest..]
    requires NUL in src
    requires dest + Len(buf[dest..]) + Len(src) < |buf|
    ensures NUL in WriteString(buf, dest + Len(buf[dest..]), CStr(src))[dest..]
    ensures CStr(WriteString(buf, dest + Len(buf[dest..]), CStr(src))[dest..]) == CStr(buf[dest..]) + CStr(src)
  {
    AppendedIsVisible(buf, dest, CStr(src));
    CStrTerminated(CStr(src));
  }

  /** `strncat` as evidently intended: `num` source bytes are appended over the
      destination's terminator; the result reads as the destination string
      followed by the source string cut at `num` bytes. */
  method StrncatCorrected(buf: seq<Char>, dest: nat, src: seq<Char>, num: nat) returns (mem: seq<Char>, ret: nat)
    requires dest <= |buf| && NUL in buf[dest..]
    requires num <= |src|
    requires dest + Len(buf[dest..]) + num < |buf|
    ensures ret == dest
    ensures mem == WriteString(buf, dest + Len(buf[dest..]), src[..num])
    ensures NUL in mem[dest..] &&
            CStr(mem[dest..]) == CStr(buf[dest..]) + (if NUL in src[..num] then CStr(src) else src[..num])
  {
    var endOfDest := EndOfString(buf, dest);
    var copied;
    mem, copied := Strncpy(buf, endOfDest, src, num);
    ret := dest;
    AppendedTruncated(buf, dest, src, num);
  }

  /** The string read from the destination after the corrected `strncat`. */
  lemma AppendedTruncated(buf: seq<Char>, dest: nat, src: seq<Char>, num: nat)
    requires dest <= |buf| && NUL in buf[dest..]
    requires num <= |src|
    requires dest + Len(buf[dest..]) + num < |buf|
    ensures NUL in WriteString(buf, dest + Len(buf[dest..]), src[..num])[dest..]
    ensures CStr(WriteString(buf, dest + Len(buf[dest..]), src[..num])[dest..]) ==
              CStr(buf[dest..]) + (if NUL in src[..num] then CStr(src) else src[..num])
  {
    AppendedIsVisible(buf, dest, src[..num]);
    TruncatedSource(src, num);
  }

  /** Writing over the destination's terminator: the string read from the
      destination is its old string followed by the written bytes. */
  lemma AppendedIsVisible(buf: seq<Char>, dest: nat, bytes: seq<Char>)
    requires dest <= |buf| && NUL in buf[dest..]
    requires dest + Len(buf[dest..]) + |bytes| < |buf|
    ensures NUL in WriteString(buf, dest + Len(buf[dest..]), bytes)[dest..]
    ensures CStr(WriteString(buf, dest + Len(buf[dest..]), bytes)[dest..]) == CStr(buf[dest..]) + CStr(bytes + [NUL])
  {
    var n := Len(buf[dest..]);
    assert buf[dest..dest + n] == CStr(buf[dest..]);
    ReadWritten(buf, dest, dest + n, bytes);
  }

  /** The first `num` bytes of `src` read as a string. */
  lemma TruncatedSource(src: seq<Char>, num: nat)
    requires num <= |src|
    ensures NUL in src[..num] + [NUL]
    ensures CStr(src[..num] + [NUL]) == if NUL in src[..num] then CStr(src) else src[..num]
  {
    if NUL in src[..num] {
      CStrWithinPrefix(src[..num], [NUL]);
      CStrWithinPrefix(src[..num], src[num..]);
      assert src[..num] + src[num..] == src;
    } else {
      CStrTerminated(src[..num]);
    }
  }

  /** "foo" and "bar" through the code as written and as corrected: the first
      still reads "foo", the second reads "foobar". */
  method StrcatDiscrepancy() returns (asWritten: seq<Char>, corrected: seq<Char>)
    ensures NUL in asWritten && CStr(asWritten) == [102, 111, 111]
    ensures NUL in corrected && CStr(corrected) == [102, 111, 111, 98, 97, 114]
  {
    var ret1, ret2;
    asWritten, ret1 := StrcatFooBar();
    var buf: seq<Char> := [102, 111, 111, 0, 1, 1, 1, 1];
    var src: seq<Char> := [98, 97, 114, 0];
    FooBarInputs(buf, src, 4);
    corrected, ret2 := StrcatCorrected(buf, 0, src);
    assert corrected[0..] == corrected;
  }

  /** "foo" and two bytes of "bar" through the code as written and as
      corrected: the first still reads "foo", the second reads "fooba". */
  method StrncatDiscrepancy() returns (asWritten: seq<Char>, corrected: seq<Char>)
    ensures NUL in asWritten && CStr(asWritten) == [102, 111, 111]
    ensures NUL in corrected && CStr(corrected) == [102, 111, 111, 98, 97]
  {
    var ret1, ret2;
    asWritten, ret1 := StrncatFooBa();
    var buf: seq<Char> := [102, 111, 111, 0, 1, 1, 1];
    var src: seq<Char> := [98, 97, 114, 0];
    FooBarInputs(buf, src, 3);
    assert src[..2] == [98, 97] && NUL !in src[..2];
    corrected, ret2 := StrncatCorrected(buf, 0, src, 2);
    assert corrected[0..] == corrected;
  }
}
