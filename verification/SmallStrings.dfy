/** Strings of up to 31 bytes kept inline; longer ones split between a prefix and a managed buffer. */
module SmallStrings {
  import opened Base

  newtype byte = x: int | 0 <= x < 256

  const MAX_SHORT_LEN: nat := 31
  const LENGTH_SIZE: nat := 4
  const OFFSET_LEN: nat := 4
  const PREFIX_LEN: nat := 27
  const LIMIT: nat := 0x1_0000_0000

  // ------------------------------------------------------------------ 32-bit numbers as bytes

  function ToLe(n: nat): (bs: seq<byte>)
    ensures |bs| == 4
  {
    [(n % 256) as byte, (n / 256 % 256) as byte, (n / 65536 % 256) as byte, (n / 16777216 % 256) as byte]
  }

  function FromLe(bs: seq<byte>): (n: nat)
    requires |bs| == 4
  {
    bs[0] as nat + 256 * bs[1] as nat + 65536 * bs[2] as nat + 16777216 * bs[3] as nat
  }

  /** The bytes of a 64-bit number, most significant first. */
  function FromBe(bs: seq<byte>): (n: nat) {
    if bs == [] then 0 else 256 * FromBe(bs[..|bs| - 1]) + bs[|bs| - 1] as nat
  }

  lemma LeRoundTrip(n: nat)
    requires n < LIMIT
    ensures FromLe(ToLe(n)) == n
  {
    assert n / 65536 == n / 256 / 256 && n / 16777216 == n / 256 / 256 / 256;
  }

  function Reverse(bs: seq<byte>): (r: seq<byte>)
    ensures |r| == |bs|
  {
    if bs == [] then [] else Reverse(bs[1..]) + [bs[0]]
  }

  function LeValue(bs: seq<byte>): (n: nat) {
    if bs == [] then 0 else bs[0] as nat + 256 * LeValue(bs[1..])
  }

  lemma {:induction false} ReversedValue(pad: seq<byte>, bs: seq<byte>)
    requires FromBe(pad) == 0
    ensures FromBe(pad + Reverse(bs)) == LeValue(bs)
  {
    if bs == [] {
      assert pad + Reverse(bs) == pad;
    } else {
      ReversedValue(pad, bs[1..]);
      var front := pad + Reverse(bs[1..]);
      assert pad + Reverse(bs) == front + [bs[0]] && (front + [bs[0]])[..|front|] == front;
    }
  }

  /** Reversing four little-endian bytes and padding them in front gives the same number, most significant byte first. */
  lemma ReversedIsLe(bs: seq<byte>)
    requires |bs| == 4
    ensures FromBe([0, 0, 0, 0] + Reverse(bs)) == FromLe(bs)
  {
    Zeros([0, 0, 0, 0], 4);
    ReversedValue([0, 0, 0, 0], bs);
    hide FromBe, Reverse;
    assert bs[1..][1..] == bs[2..] && bs[2..][1..] == bs[3..] && bs[3..][1..] == [];
    assert LeValue(bs[3..]) == bs[3] as nat;
    assert LeValue(bs[2..]) == bs[2] as nat + 256 * bs[3] as nat;
  }

  lemma {:induction false} Zeros(bs: seq<byte>, n: nat)
    requires |bs| == n && forall i | 0 <= i < n :: bs[i] == 0
    ensures FromBe(bs) == 0
  {
    if n == 0 {
    } else {
      Zeros(bs[..n - 1], n - 1);
    }
  }

  // ------------------------------------------------------------------ the packed form

  /** One header byte, then 31 bytes: the string itself, or a prefix and the offset of its suffix. */
  datatype Small = Small(flag: byte, data: seq<byte>)

  predicate IsShort(s: Small) {
    s.flag / 128 == 0
  }

  function PrefixLen(s: Small): (n: nat)
    ensures n < 128
  {
    (s.flag % 128) as nat
  }

  function SuffixOffset(s: Small): (n: nat)
    requires |s.data| == MAX_SHORT_LEN && PrefixLen(s) == PREFIX_LEN
  {
    FromBe([0, 0, 0, 0] + Reverse(s.data[PrefixLen(s)..]))
  }

  function Padding(n: nat): (bs: seq<byte>)
    ensures |bs| == n
  {
    seq(n, _ => 0)
  }

  function PackShort(bs: seq<byte>): (s: Small)
    requires |bs| <= MAX_SHORT_LEN
  {
    Small(|bs| as byte, bs + Padding(MAX_SHORT_LEN - |bs|))
  }

  function PackLong(bs: seq<byte>, offset: nat): (s: Small)
    requires |bs| > MAX_SHORT_LEN
  {
    Small(128 + PREFIX_LEN as byte, bs[..PREFIX_LEN] + ToLe(offset))
  }

  /** The suffix stored at an offset: its length, then its bytes. */
  predicate Holds(mem: seq<byte>, offset: nat, suffix: seq<byte>) {
    && offset + LENGTH_SIZE + |suffix| <= |mem|
    && mem[offset..offset + LENGTH_SIZE] == ToLe(|suffix|)
    && mem[offset + LENGTH_SIZE..offset + LENGTH_SIZE + |suffix|] == suffix
  }

  /** The string a packed value stands for; nothing where it points outside the buffer. */
  function Decode(mem: seq<byte>, s: Small): (bs: Option<seq<byte>>) {
    if |s.data| != MAX_SHORT_LEN then None
    else if IsShort(s) then if PrefixLen(s) <= MAX_SHORT_LEN then Some(s.data[..PrefixLen(s)]) else None
    else if PrefixLen(s) != PREFIX_LEN then None
    else
      var offset := SuffixOffset(s);
      if offset + LENGTH_SIZE > |mem| then None
      else
        var n := FromLe(mem[offset..offset + LENGTH_SIZE]);
        if offset + LENGTH_SIZE + n > |mem| then None
        else Some(s.data[..PREFIX_LEN] + mem[offset + LENGTH_SIZE..offset + LENGTH_SIZE + n])
  }

  /** The length, without decoding. */
  function Length(mem: seq<byte>, s: Small): (n: Option<nat>) {
    if |s.data| != MAX_SHORT_LEN then None
    else if IsShort(s) then Some(PrefixLen(s))
    else if PrefixLen(s) != PREFIX_LEN then None
    else
      var offset := SuffixOffset(s);
      if offset + LENGTH_SIZE > |mem| then None
      else Some(PrefixLen(s) + FromLe(mem[offset..offset + LENGTH_SIZE]))
  }

  lemma ShortDecodes(mem: seq<byte>, bs: seq<byte>)
    requires |bs| <= MAX_SHORT_LEN
    ensures Decode(mem, PackShort(bs)) == Some(bs) && Length(mem, PackShort(bs)) == Some(|bs|)
  {
    assert PackShort(bs).data[..|bs|] == bs;
  }

  lemma LongDecodes(mem: seq<byte>, bs: seq<byte>, offset: nat)
    requires |bs| > MAX_SHORT_LEN && Holds(mem, offset, bs[PREFIX_LEN..]) && |mem| < LIMIT
    ensures Decode(mem, PackLong(bs, offset)) == Some(bs) && Length(mem, PackLong(bs, offset)) == Some(|bs|)
  {
    hide FromLe, ToLe, FromBe, Reverse;
    var s := PackLong(bs, offset);
    assert s.data[..PREFIX_LEN] == bs[..PREFIX_LEN] && s.data[PREFIX_LEN..] == ToLe(offset);
    ReversedIsLe(ToLe(offset));
    LeRoundTrip(offset);
    LeRoundTrip(|bs| - PREFIX_LEN);
    assert SuffixOffset(s) == offset;
    assert bs[..PREFIX_LEN] + bs[PREFIX_LEN..] == bs;
  }
}
