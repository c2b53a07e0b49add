/** Byte buffers: little-endian words, and what it means for a buffer to hold a given part
    at a given position. */
module Bytes {

  type Byte = b: int | 0 <= b < 256

  const TWO_16 := 0x1_0000
  const TWO_32 := 0x1_0000_0000

  /** `data` holds `part` at `pos`, whatever comes before and after. */
  ghost predicate At(data: seq<Byte>, pos: nat, part: seq<Byte>) {
    pos + |part| <= |data| && data[pos..pos + |part|] == part
  }

  lemma AtSplit(data: seq<Byte>, pos: nat, a: seq<Byte>, b: seq<Byte>)
    requires At(data, pos, a + b)
    ensures At(data, pos, a) && At(data, pos + |a|, b)
  {
    var part := data[pos..pos + |a + b|];
    assert part[..|a|] == a && part[|a|..] == b;
    assert data[pos..pos + |a|] == part[..|a|];
    assert data[pos + |a|..pos + |a| + |b|] == part[|a|..];
  }

  lemma AtIndex(data: seq<Byte>, pos: nat, part: seq<Byte>, i: nat)
    requires At(data, pos, part) && i < |part|
    ensures data[pos + i] == part[i]
  {
  }

  function Read16(data: seq<Byte>, pos: nat): (r: nat)
    requires pos + 2 <= |data|
    ensures r < TWO_16
  {
    data[pos] as int + 256 * (data[pos + 1] as int)
  }

  function Read32(data: seq<Byte>, pos: nat): (r: nat)
    requires pos + 4 <= |data|
    ensures r < TWO_32
  {
    Read16(data, pos) + TWO_16 * Read16(data, pos + 2)
  }

  function Print16(v: nat): (r: seq<Byte>)
    requires v < TWO_16
    ensures |r| == 2
  {
    [v % 256, v / 256]
  }

  function Print32(v: nat): (r: seq<Byte>)
    requires v < TWO_32
    ensures |r| == 4
  {
    Print16(v % TWO_16) + Print16(v / TWO_16)
  }

  lemma Read16Print16(data: seq<Byte>, pos: nat, v: nat)
    requires v < TWO_16 && At(data, pos, Print16(v))
    ensures Read16(data, pos) == v
  {
  }

  lemma Read32Print32(data: seq<Byte>, pos: nat, v: nat)
    requires v < TWO_32 && At(data, pos, Print32(v))
    ensures Read32(data, pos) == v
  {
  }
}
