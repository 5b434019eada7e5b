/** Integers by the places of their bytes. */
module Endian {
  import opened Bytes

  /** The number of which `b` are the digits to base 256, low byte first. */
  function Little(b: seq<byte>): nat {
    if b == [] then 0 else b[0] as int + 256 * Little(b[1..])
  }

  lemma TwoAreLittle(b: seq<byte>)
    requires |b| == 2
    ensures Little(b) == Word16(b)
  {
    assert b[1..] == [b[1]] && [b[1]][1..] == [];
    assert Little(b[1..]) == b[1] as int;
  }

  lemma FourAreLittle(b: seq<byte>)
    requires |b| == 4
    ensures Little(b) == Word32(b)
  {
    TwoAreLittle(b[2..]);
    assert b[1..][1..] == b[2..];
    assert Little(b[1..]) == b[1] as int + 256 * Little(b[2..]);
  }

  /** A word is read low byte first. */
  lemma EightAreLittle(b: seq<byte>)
    requires |b| == 8
    ensures Little(b) == Word64(b)
  {
    var low, high := b[..4], b[4..];
    FourAreLittle(low);
    FourAreLittle(high);
    assert b == low + high;
    LittleOfJoin(low, high);
  }

  lemma LittleOfJoin(a: seq<byte>, b: seq<byte>)
    requires |a| == 4
    ensures Little(a + b) == Little(a) + TWO_32 * Little(b)
  {
    var s := a + b;
    OneLower(a, b);
    OneLower(a[1..], b);
    OneLower(a[1..][1..], b);
    OneLower(a[1..][1..][1..], b);
    assert a[1..][1..][1..][1..] == [] && [] + b == b && Little([]) == 0;
    hide Little;
  }

  lemma OneLower(a: seq<byte>, b: seq<byte>)
    requires a != []
    ensures Little(a) == a[0] as int + 256 * Little(a[1..])
    ensures Little(a + b) == a[0] as int + 256 * Little(a[1..] + b)
  {
    assert (a + b)[1..] == a[1..] + b;
  }

  /** The number of which `b` are the digits to base 256, high byte first. */
  function Big(b: seq<byte>): nat {
    if b == [] then 0 else Big(b[..|b| - 1]) * 256 + b[|b| - 1] as int
  }
}
