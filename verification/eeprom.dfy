/** src/arch/atmega2560/eeprom.c: byte-by-byte copies to and from the EEPROM. */
module Eeprom {
  import opened Bytes

  /** The EEPROM contents after writing `data` at `at`. */
  function Written(cells: seq<byte>, at: nat, data: seq<byte>): (r: seq<byte>)
    requires at + |data| <= |cells|
    ensures |r| == |cells|
  {
    cells[..at] + data + cells[at + |data|..]
  }

  function Region(cells: seq<byte>, at: nat, size: nat): (r: seq<byte>)
    requires at + size <= |cells|
    ensures |r| == size
  {
    cells[at..at + size]
  }

  /** What was written is read back; a region that does not overlap it reads as before. */
  lemma ReadBack(cells: seq<byte>, at: nat, data: seq<byte>, from: nat, size: nat)
    requires at + |data| <= |cells| && from + size <= |cells|
    ensures Region(Written(cells, at, data), at, |data|) == data
    ensures from + size <= at || at + |data| <= from ==>
              Region(Written(cells, at, data), from, size) == Region(cells, from, size)
  {
  }

  /** Writing byte by byte: one more byte. */
  lemma WrittenStep(cells: seq<byte>, at: nat, data: seq<byte>, k: nat)
    requires at + |data| <= |cells| && k < |data|
    ensures Written(cells, at, data[..k])[at + k := data[k]] == Written(cells, at, data[..k + 1])
  {
  }

  class EEPROM {
    const cells: array<byte>

    constructor (contents: seq<byte>)
      ensures fresh(cells) && cells[..] == contents
    {
      cells := new byte[|contents|](i requires 0 <= i < |contents| => contents[i]);
    }

    method Read(src: nat, size: nat) returns (dest: seq<byte>)
      requires src + size <= cells.Length < 0x1_0000
      ensures dest == Region(cells[..], src, size)
    {
      dest := [];
      var s := src;
      var end := src + size;
      while s < end
        invariant src <= s <= end && dest == cells[src..s]
      {
        dest := dest + [cells[s]];
        s := s + 1;
      }
    }

    method Write(dest: nat, src: seq<byte>)
      requires dest + |src| <= cells.Length < 0x1_0000
      modifies cells
      ensures cells[..] == Written(old(cells[..]), dest, src)
    {
      ghost var before := cells[..];
      var s := 0;
      var d := dest;
      assert before == Written(before, dest, src[..0]);
      while s < |src|
        invariant s <= |src| && d == dest + s
        invariant cells[..] == Written(before, dest, src[..s])
      {
        WrittenStep(before, dest, src, s);
        ghost var next := cells[..][d := src[s]];
        cells[d] := src[s];
        assert cells[..] == next;
        s := s + 1;
        d := d + 1;
      }
      assert src[..s] == src;
    }
  }
}
