/** Value identifiers: their byte encodings, and the hexadecimal keys under which samples are stored. */
module ValueIds {
  import opened Base
  import opened SmallStrings

  datatype ValueId = ValueId(container: nat, segment: Option<nat>, page: Option<nat>, slot: Option<nat>)
  {
    predicate Valid() {
      && container < 0x1_0000
      && (segment.Some? ==> segment.value < 0x100)
      && (page.Some? ==> page.value < 0x1_0000_0000)
      && (slot.Some? ==> slot.value < 0x1_0000)
    }
  }

  type Vid = v: ValueId | v.Valid() witness ValueId(0, None, None, None)

  // ------------------------------------------------------------------ little-endian numbers

  function Power256(k: nat): (p: nat)
    ensures p >= 1
  {
    if k == 0 then 1 else 256 * Power256(k - 1)
  }

  function Le(n: nat, k: nat): (bs: seq<byte>)
    ensures |bs| == k
  {
    if k == 0 then [] else [(n % 256) as byte] + Le(n / 256, k - 1)
  }

  lemma {:induction false} LeDecodes(n: nat, k: nat)
    requires n < Power256(k)
    ensures LeValue(Le(n, k)) == n
  {
    if k == 0 {
    } else {
      LeDecodes(n / 256, k - 1);
      assert Le(n, k)[1..] == Le(n / 256, k - 1);
    }
  }

  lemma {:induction false} LeBound(bs: seq<byte>)
    ensures LeValue(bs) < Power256(|bs|)
  {
    if bs == [] {
    } else {
      LeBound(bs[1..]);
    }
  }

  // ------------------------------------------------------------------ encoding

  function Bit(o: Option<nat>, weight: nat): (n: nat) {
    if o.Some? then weight else 0
  }

  function Flag(v: ValueId): (f: nat)
    ensures f < 16
  {
    8 + Bit(v.segment, 4) + Bit(v.page, 2) + Bit(v.slot, 1)
  }

  function Part(o: Option<nat>, k: nat): (bs: seq<byte>) {
    if o.Some? then Le(o.value, k) else []
  }

  function ToBytes(v: Vid): (bs: seq<byte>) {
    [Flag(v) as byte] + Le(v.container, 2) + Part(v.segment, 1) + Part(v.page, 4) + Part(v.slot, 2)
  }

  // ------------------------------------------------------------------ decoding

  /** A field of `k` bytes and what follows it, if its flag is set; nothing if the bytes run out. */
  function ReadPart(present: bool, bs: seq<byte>, k: nat): (r: Option<(Option<nat>, seq<byte>)>) {
    if !present then Some((None, bs))
    else if |bs| < k then None
    else Some((Some(LeValue(bs[..k])), bs[k..]))
  }

  /** Nothing if the data is too short for what its flag announces. */
  function FromBytes(data: seq<byte>): (r: Option<ValueId>) {
    if |data| < 3 then None
    else
      var flag := data[0] as nat;
      var segment := ReadPart(flag / 4 % 2 == 1, data[3..], 1);
      if segment.None? then None
      else
        var page := ReadPart(flag / 2 % 2 == 1, segment.value.1, 4);
        if page.None? then None
        else
          var slot := ReadPart(flag % 2 == 1, page.value.1, 2);
          if slot.None? then None
          else Some(ValueId(LeValue(data[1..3]), segment.value.0, page.value.0, slot.value.0))
  }

  lemma ReadsBack(o: Option<nat>, k: nat, rest: seq<byte>)
    requires o.Some? ==> o.value < Power256(k)
    ensures ReadPart(o.Some?, Part(o, k) + rest, k) == Some((o, rest))
  {
    if o.Some? {
      LeDecodes(o.value, k);
      assert (Le(o.value, k) + rest)[..k] == Le(o.value, k);
    } else {
      assert Part(o, k) + rest == rest;
    }
  }

  lemma Powers()
    ensures Power256(1) == 0x100 && Power256(2) == 0x1_0000 && Power256(4) == 0x1_0000_0000
  {
    assert Power256(3) == 0x100_0000;
  }

  lemma FlagBits(v: ValueId)
    ensures Flag(v) / 4 % 2 == 1 <==> v.segment.Some?
    ensures Flag(v) / 2 % 2 == 1 <==> v.page.Some?
    ensures Flag(v) % 2 == 1 <==> v.slot.Some?
  {
  }

  /** Every identifier decodes from its bytes, whatever follows them. */
  lemma BytesRoundTrip(v: Vid, rest: seq<byte>)
    ensures FromBytes(ToBytes(v) + rest) == Some(v)
  {
    hide Flag, Le, Part, ReadPart, LeValue, Power256;
    var data := ToBytes(v) + rest;
    Powers();
    FlagBits(v);
    LeDecodes(v.container, 2);
    assert data[1..3] == Le(v.container, 2);
    var afterPage := Part(v.slot, 2) + rest;
    var afterSegment := Part(v.page, 4) + afterPage;
    assert data[3..] == Part(v.segment, 1) + afterSegment;
    ReadsBack(v.segment, 1, afterSegment);
    ReadsBack(v.page, 4, afterPage);
    ReadsBack(v.slot, 2, rest);
  }

  /** Whatever decodes is in range. */
  lemma DecodedValid(data: seq<byte>)
    ensures FromBytes(data).Some? ==> FromBytes(data).value.Valid()
  {
    hide LeValue, Power256;
    Powers();
    forall bs: seq<byte> ensures LeValue(bs) < Power256(|bs|) {
      LeBound(bs);
    }
  }

  /** No encoding is a prefix of another: identifiers can be read one after the other. */
  lemma PrefixFree(v: Vid, w: Vid, a: seq<byte>, b: seq<byte>)
    requires ToBytes(v) + a == ToBytes(w) + b
    ensures v == w && a == b
  {
    hide ToBytes, FromBytes;
    BytesRoundTrip(v, a);
    BytesRoundTrip(w, b);
    assert (ToBytes(v) + a)[|ToBytes(v)|..] == a;
    assert (ToBytes(w) + b)[|ToBytes(w)|..] == b;
  }

  // ------------------------------------------------------------------ the fixed encoding

  function Blank(n: nat): (bs: seq<byte>)
    ensures |bs| == n
  {
    seq(n, _ => 0)
  }

  method Copy(vb: array<byte>, offset: nat, bs: seq<byte>)
    requires offset + |bs| <= vb.Length
    modifies vb
    ensures vb[..] == old(vb[..offset]) + bs + old(vb[offset + |bs|..])
  {
    for i := 0 to |bs|
      invariant vb[..] == old(vb[..offset]) + bs[..i] + old(vb[offset + i..])
    {
      vb[offset + i] := bs[i];
      assert vb[..] == old(vb[..offset]) + bs[..i + 1] + old(vb[offset + i + 1..]);
    }
    assert bs[..|bs|] == bs;
  }

  /** Ten bytes; nothing if there is a segment, which this encoding does not support. */
  method ToFixedBytes(v: Vid) returns (vb: array?<byte>)
    ensures vb == null <==> v.segment.Some?
    ensures vb != null ==> fresh(vb) && vb[..] == ToBytes(v) + Blank(10 - |ToBytes(v)|)
    ensures vb != null ==> FromBytes(vb[..]) == Some(v)
  {
    hide FromBytes, Flag, Le, Bit;
    if v.segment.Some? {
      return null;
    }
    var bytes := new byte[10](_ => 0);
    var flag := 8;
    Copy(bytes, 1, Le(v.container, 2));
    var offset := 3;
    assert bytes[..] == [0] + Le(v.container, 2) + Blank(7);
    if v.page.Some? {
      flag := flag + 2;
      offset := offset + 4;
      Copy(bytes, offset - 4, Le(v.page.value, 4));
    }
    assert bytes[..] == [0] + Le(v.container, 2) + Part(v.page, 4) + Blank(10 - offset);
    if v.slot.Some? {
      flag := flag + 1;
      offset := offset + 2;
      Copy(bytes, offset - 2, Le(v.slot.value, 2));
    }
    assert bytes[..] == [0] + Le(v.container, 2) + Part(v.page, 4) + Part(v.slot, 2) + Blank(10 - offset);
    bytes[0] := flag as byte;
    FlagSum(v);
    assert bytes[..] == ToBytes(v) + Blank(10 - offset);
    BytesRoundTrip(v, Blank(10 - offset));
    return bytes;
  }

  lemma FlagSum(v: ValueId)
    requires v.segment.None?
    ensures Flag(v) == 8 + (if v.page.Some? then 2 else 0) + (if v.slot.Some? then 1 else 0)
  {
  }

  // ------------------------------------------------------------------ container and page only

  function ToCpBytes(v: Vid): (bs: seq<byte>) {
    [(8 + Bit(v.page, 2)) as byte] + Le(v.container, 2) + Le(if v.page.Some? then v.page.value else 0, 4)
  }

  function ContainerAndPage(v: Vid): (r: Vid) {
    ValueId(v.container, None, v.page, None)
  }

  /** The short form decodes to the identifier's container and page, and so to the identifier exactly when that is all it has. */
  lemma CpBytesDecode(v: Vid)
    ensures FromBytes(ToCpBytes(v)) == Some(ContainerAndPage(v))
    ensures FromBytes(ToCpBytes(v)) == Some(v) <==> v.segment.None? && v.slot.None?
  {
    hide FromBytes, Le;
    var u := ContainerAndPage(v);
    if v.page.Some? {
      assert ToCpBytes(v) == ToBytes(u) + [];
      BytesRoundTrip(u, []);
    } else {
      assert ToCpBytes(v) == ToBytes(u) + Le(0, 4);
      BytesRoundTrip(u, Le(0, 4));
    }
  }

  // ------------------------------------------------------------------ hexadecimal

  function HexChar(d: nat): (c: char)
    requires d < 16
  {
    if d < 10 then '0' + d as char else 'a' + (d - 10) as char
  }

  function HexValue(c: char): (d: Option<nat>)
    ensures d.Some? ==> d.value < 16
  {
    if '0' <= c <= '9' then Some((c - '0') as nat)
    else if 'a' <= c <= 'f' then Some((c - 'a') as nat + 10)
    else if 'A' <= c <= 'F' then Some((c - 'A') as nat + 10)
    else None
  }

  function Hex(bs: seq<byte>): (s: string)
    ensures |s| == 2 * |bs|
  {
    if bs == [] then "" else [HexChar(bs[0] as nat / 16), HexChar(bs[0] as nat % 16)] + Hex(bs[1..])
  }

  /** Two characters as a byte; a plus sign may stand before a single digit. */
  function HexByte(a: char, b: char): (r: Option<byte>) {
    var low := HexValue(b);
    if low.None? then None
    else if a == '+' then Some(low.value as byte)
    else if HexValue(a).None? then None
    else Some((16 * HexValue(a).value + low.value) as byte)
  }

  function HexToBytes(s: string): (r: Option<seq<byte>>) {
    if s == "" then Some([])
    else if |s| == 1 then None
    else
      var first, rest := HexByte(s[0], s[1]), HexToBytes(s[2..]);
      if first.None? || rest.None? then None else Some([first.value] + rest.value)
  }

  lemma HexDigit(d: nat)
    requires d < 16
    ensures HexValue(HexChar(d)) == Some(d) && HexChar(d) != '+'
  {
  }

  lemma HexByteRoundTrip(b: byte)
    ensures HexByte(HexChar(b as nat / 16), HexChar(b as nat % 16)) == Some(b)
  {
    hide HexChar, HexValue;
    HexDigit(b as nat / 16);
    HexDigit(b as nat % 16);
  }

  lemma {:induction false} HexRoundTrip(bs: seq<byte>)
    ensures HexToBytes(Hex(bs)) == Some(bs)
  {
    if bs == [] {
    } else {
      HexRoundTrip(bs[1..]);
      assert Hex(bs)[2..] == Hex(bs[1..]);
      HexByteRoundTrip(bs[0]);
      assert [bs[0]] + bs[1..] == bs;
    }
  }

  // ------------------------------------------------------------------ sample maps

  function HexKey(v: Vid): (s: string) {
    Hex(ToBytes(v))
  }

  function FromHexKey(s: string): (r: Option<ValueId>) {
    var bytes := HexToBytes(s);
    if bytes.None? then None else FromBytes(bytes.value)
  }

  lemma KeyRoundTrip(v: Vid)
    ensures FromHexKey(HexKey(v)) == Some(v)
  {
    hide ToBytes, FromBytes, Hex, HexToBytes;
    HexRoundTrip(ToBytes(v));
    BytesRoundTrip(v, []);
    assert ToBytes(v) + [] == ToBytes(v);
  }

  lemma KeyValid(s: string)
    ensures FromHexKey(s).Some? ==> FromHexKey(s).value.Valid()
  {
    hide FromBytes;
    var bytes := HexToBytes(s);
    if bytes.Some? {
      DecodedValid(bytes.value);
    }
  }

  ghost predicate Held(k: string, v: ValueId, m: map<Vid, nat>) {
    v.Valid() && v in m && HexKey(v) == k
  }

  /** The stored map holds each sample of `m` under its key, and nothing else. */
  ghost predicate Stores(s: map<string, nat>, m: map<Vid, nat>) {
    && (forall v | v in m :: HexKey(v) in s && s[HexKey(v)] == m[v])
    && (forall k | k in s :: FromHexKey(k).Some? && Held(k, FromHexKey(k).value, m))
  }

  method Serialize(m: map<Vid, nat>) returns (s: map<string, nat>)
    ensures Stores(s, m)
  {
    hide HexKey, FromHexKey;
    s := map[];
    var left := m.Keys;
    while left != {}
      invariant left <= m.Keys
      invariant Stores(s, map v | v in m && v !in left :: m[v])
    {
      var v :| v in left;
      KeyRoundTrip(v);
      ghost var done := map u | u in m && u !in left :: m[u];
      StoresOne(s, done, v, m[v]);
      s := s[HexKey(v) := m[v]];
      left := left - {v};
      assert (map u | u in m && u !in left :: m[u]) == done[v := m[v]];
    }
    assert (map v | v in m && v !in left :: m[v]) == m;
  }

  lemma StoresOne(s: map<string, nat>, m: map<Vid, nat>, v: Vid, n: nat)
    requires Stores(s, m)
    ensures Stores(s[HexKey(v) := n], m[v := n])
  {
    hide HexKey, FromHexKey;
    KeyRoundTrip(v);
    forall u | u in m ensures HexKey(u) == HexKey(v) ==> u == v {
      KeyRoundTrip(u);
    }
  }

  /** The map read from the first keys: each of them decoded, with the number stored under it. */
  ghost predicate Read(s: map<string, nat>, keys: set<string>, m: map<Vid, nat>) {
    && (forall k | k in keys :: k in s && FromHexKey(k).Some? && FromHexKey(k).value in m)
    && (forall v | v in m :: exists k | k in keys :: k in s && FromHexKey(k) == Some(v) && s[k] == m[v])
  }

  lemma ReadOne(s: map<string, nat>, keys: set<string>, m: map<Vid, nat>, k: string, v: Vid)
    requires Read(s, keys, m) && k in s && FromHexKey(k) == Some(v)
    ensures Read(s, keys + {k}, m[v := s[k]])
  {
    hide FromHexKey;
    var n := m[v := s[k]];
    forall u | u in n ensures exists j | j in keys + {k} :: j in s && FromHexKey(j) == Some(u) && s[j] == n[u] {
      if u == v {
        assert k in keys + {k};
      } else {
        var j :| j in keys && j in s && FromHexKey(j) == Some(u) && s[j] == m[u];
        assert j in keys + {k};
      }
    }
  }

  /** Nothing if some key is not the key of an identifier. */
  method Deserialize(s: map<string, nat>) returns (r: Option<map<Vid, nat>>)
    ensures r.Some? <==> forall k | k in s :: FromHexKey(k).Some?
    ensures r.Some? ==> Read(s, s.Keys, r.value)
  {
    hide FromHexKey;
    var m: map<Vid, nat> := map[];
    var left := s.Keys;
    while left != {}
      invariant left <= s.Keys
      invariant Read(s, s.Keys - left, m)
    {
      var k :| k in left;
      var v := FromHexKey(k);
      if v.None? {
        return None;
      }
      KeyValid(k);
      ReadOne(s, s.Keys - left, m, k, v.value);
      m := m[v.value := s[k]];
      assert s.Keys - (left - {k}) == s.Keys - left + {k};
      left := left - {k};
    }
    assert s.Keys - left == s.Keys;
    return Some(m);
  }

  lemma StoredIsRead(s: map<string, nat>, m: map<Vid, nat>, n: map<Vid, nat>)
    requires Stores(s, m) && Read(s, s.Keys, n)
    ensures m == n
  {
    hide HexKey, FromHexKey;
    forall v | v in m ensures v in n {
      KeyRoundTrip(v);
      assert HexKey(v) in s.Keys;
    }
    forall v | v in n ensures v in m && n[v] == m[v] {
      var k :| k in s && FromHexKey(k) == Some(v) && s[k] == n[v];
    }
  }

  /** No two samples share a key, and every one comes back. */
  method SamplesRoundTrip(m: map<Vid, nat>) returns (r: Option<map<Vid, nat>>)
    ensures r == Some(m)
  {
    hide HexKey, FromHexKey, Read;
    var s := Serialize(m);
    r := Deserialize(s);
    StoredIsRead(s, m, r.value);
  }
}
