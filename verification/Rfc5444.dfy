// Vocabulary of the RFC 5444 packet format shared by writer and reader.
module Rfc5444 {
  import opened Basics

  // A network prefix: address bytes and prefix length.
  datatype Address = Address(bytes: seq<byte>, plen: byte)

  const MAX_ADDRLEN: nat := 16

  // Address block flags, section 5.3 of RFC 5444.
  const ADDR_HEAD: nat := 0x80
  const ADDR_FULLTAIL: nat := 0x40
  const ADDR_ZEROTAIL: nat := 0x20
  const ADDR_SINGLEPLEN: nat := 0x10
  const ADDR_MULTIPLEN: nat := 0x08

  // TLV flags, section 5.4 of RFC 5444.
  const TLV_TYPEEXT: nat := 0x80
  const TLV_SINGLE_IDX: nat := 0x40
  const TLV_MULTI_IDX: nat := 0x20
  const TLV_VALUE: nat := 0x10
  const TLV_EXTVALUE: nat := 0x08
  const TLV_MULTIVALUE: nat := 0x04

  datatype Result =
    | Okay
    | EndOfBuffer
    | BadTlvIdxFlags
    | BadTlvValueFlags
    | BadTlvLength
    | BadTlvIndex
    | EmptyAddrBlock
    | BadTailFlags
    | BadPrefixFlags
    | BadHeadLength
    | BadTailLength
    | Undefined

  // flags & mask, for a mask of one bit
  predicate HasFlag(flags: byte, mask: nat)
    requires mask > 0
  {
    (flags / mask) % 2 == 1
  }

  // A bit of a byte, by its value.
  predicate Bit(b: byte, value: nat)
    requires value in {1, 2, 4, 8, 16, 32, 64, 128}
  {
    b / value % 2 == 1
  }

  // Two bytes, the high one first.
  function Word(out: seq<byte>, k: nat): nat
    requires k + 1 < |out|
  {
    var hi: nat := out[k];
    256 * hi + out[k + 1]
  }

  predicate IsMask(mask: nat) {
    mask == 0x80 || mask == 0x40 || mask == 0x20 || mask == 0x10 || mask == 0x08 || mask == 0x04
  }

  // flags | mask
  function SetFlag(flags: byte, mask: nat): byte
    requires IsMask(mask)
  {
    if HasFlag(flags, mask) then flags else (flags + mask) % 256
  }

  // A read position with the sticky error of the get-byte helpers.
  datatype Cursor = Cursor(ptr: nat, result: Result)

  // _rfc5444_get_u8
  function GetU8(buf: seq<byte>, c: Cursor, end: nat): (byte, Cursor)
    requires end <= |buf|
  {
    if c.result != Okay then (0, c)
    else if c.ptr >= end then (0, Cursor(c.ptr, EndOfBuffer))
    else (buf[c.ptr], Cursor(c.ptr + 1, Okay))
  }

  // _rfc5444_get_u16
  function GetU16(buf: seq<byte>, c: Cursor, end: nat): (nat, Cursor)
    requires end <= |buf|
  {
    var (hi, c1) := GetU8(buf, c, end);
    var (lo, c2) := GetU8(buf, c1, end);
    (hi * 256 + lo, c2)
  }
}
