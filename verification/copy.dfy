/**
 `strings::strncpy` and `strings::strcpy`. The destination is a device buffer
 `buf` and a pointer into it is an index `dest`; the call's effect is the
 buffer it leaves behind, returned as `mem`, and `ret` is the pointer it
 returns. The source is a separate buffer read from its start.
 */
module Copy {
  import opened CString

  /** `strncpy`: copies exactly `num` bytes, terminators included, then writes
      one terminator after them. Unlike ISO C it neither stops at the source's
      terminator nor pads with zeros. */
  method Strncpy(buf: seq<Char>, dest: nat, src: seq<Char>, num: nat) returns (mem: seq<Char>, ret: nat)
    requires num <= |src|
    requires dest + num < |buf|
    ensures |mem| == |buf|
    ensures mem[dest..dest + num] == src[..num] && mem[dest + num] == NUL
    ensures forall k :: 0 <= k < |buf| && !(dest <= k <= dest + num) ==> mem[k] == buf[k]
    ensures mem == WriteString(buf, dest, src[..num])
    ensures ret == dest
  {
    mem := buf;
    var sourcePtr := 0;
    var destinationCpy := dest;
    var i := 0;
    while i < num
      invariant i <= num && sourcePtr == i && destinationCpy == dest + i
      invariant |mem| == |buf|
      invariant forall k :: 0 <= k < |buf| ==> mem[k] == if dest <= k < dest + i then src[k - dest] else buf[k]
    {
      mem := mem[destinationCpy := src[sourcePtr]];
      destinationCpy := destinationCpy + 1;
      sourcePtr := sourcePtr + 1;
      i := i + 1;
    }
    mem := mem[destinationCpy := NUL];
    ret := dest;
    WriteStringByBytes(buf, dest, src[..num], mem);
  }

  /** The string read back at `dest` after `strncpy`: the source string when
      it ends within the first `num` bytes, otherwise those `num` bytes. */
  lemma StrncpyReadBack(buf: seq<Char>, dest: nat, src: seq<Char>, num: nat)
    requires num <= |src|
    requires dest + num < |buf|
    ensures NUL in WriteString(buf, dest, src[..num])[dest..]
    ensures CStr(WriteString(buf, dest, src[..num])[dest..]) ==
              if NUL in src[..num] then CStr(src) else src[..num]
  {
    ReadWritten(buf, dest, dest, src[..num]);
    assert buf[dest..dest] == [];
    if NUL in src[..num] {
      CStrWithinPrefix(src[..num], [NUL]);
      CStrWithinPrefix(src[..num], src[num..]);
      assert src[..num] + src[num..] == src;
    } else {
      CStrTerminated(src[..num]);
    }
  }

  /** `strcpy`: copies the source string and one terminator, and nothing
      after it. */
  method Strcpy(buf: seq<Char>, dest: nat, src: seq<Char>) returns (mem: seq<Char>, ret: nat)
    requires NUL in src
    requires dest + Len(src) < |buf|
    ensures |mem| == |buf|
    ensures mem[dest..dest + Len(src)] == CStr(src) && mem[dest + Len(src)] == NUL
    ensures forall k :: 0 <= k < |buf| && !(dest <= k <= dest + Len(src)) ==> mem[k] == buf[k]
    ensures mem == WriteString(buf, dest, CStr(src))
    ensures NUL in mem[dest..] && CStr(mem[dest..]) == CStr(src)
    ensures ret == dest
  {
    mem := buf;
    var sourcePtr := 0;
    var destinationCpy := dest;
    while src[sourcePtr] != NUL
      invariant sourcePtr <= Len(src) && destinationCpy == dest + sourcePtr
      invariant |mem| == |buf|
      invariant forall k :: 0 <= k < |buf| ==> mem[k] == if dest <= k < destinationCpy then src[k - dest] else buf[k]
      decreases Len(src) - sourcePtr
    {
      assert sourcePtr != Len(src);
      mem := mem[destinationCpy := src[sourcePtr]];
      destinationCpy := destinationCpy + 1;
      sourcePtr := sourcePtr + 1;
    }
    assert sourcePtr == Len(src) by {
      assert forall m :: 0 <= m < Len(src) ==> src[..Len(src)][m] == src[m];
    }
    mem := mem[destinationCpy := NUL];
    ret := dest;
    WriteStringByBytes(buf, dest, CStr(src), mem);
    StrcpyReadBack(buf, dest, src);
  }

  /** The destination reads back as the source string after `strcpy`. */
  lemma StrcpyReadBack(buf: seq<Char>, dest: nat, src: seq<Char>)
    requires NUL in src
    requires dest + Len(src) < |buf|
    ensures NUL in WriteString(buf, dest, CStr(src))[dest..]
    ensures CStr(WriteString(buf, dest, CStr(src))[dest..]) == CStr(src)
  {
    ReadWritten(buf, dest, dest, CStr(src));
    assert buf[dest..dest] == [];
    CStrTerminated(CStr(src));
  }

  /** "hi" copied with `num` 5 out of a source buffer "hi", 0, 'X', 'Y': the
      bytes after the source's terminator are copied too and no zero padding
      is written, where ISO C would write 'h', 'i', 0, 0, 0 and no sixth byte. */
  method StrncpyNoPadding() returns (mem: seq<Char>, ret: nat)
    ensures mem == [104, 105, 0, 88, 89, 0] && ret == 0
  {
    mem, ret := Strncpy([1, 1, 1, 1, 1, 1], 0, [104, 105, 0, 88, 89], 5);
  }
}
