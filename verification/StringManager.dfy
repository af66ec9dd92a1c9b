/** The buffer that holds the suffixes of long strings, and every string ever made with it. */
module StringManager {
  import opened Base
  import opened SmallStrings

  datatype FreeRegion = FreeRegion(size: nat, offset: nat)

  /** A long string and where its suffix is. */
  datatype Block = Block(offset: nat, bytes: seq<byte>)

  /** The room a long string takes: the length of its suffix, and the suffix. */
  function Room(bs: seq<byte>): (n: nat)
    requires |bs| > MAX_SHORT_LEN
  {
    |bs| - MAX_SHORT_LEN + OFFSET_LEN + LENGTH_SIZE
  }

  ghost predicate AllLong(blocks: seq<Block>) {
    forall i | 0 <= i < |blocks| :: |blocks[i].bytes| > MAX_SHORT_LEN
  }

  /** The room all blocks take. */
  ghost function Used(blocks: seq<Block>): (n: nat)
    requires AllLong(blocks)
  {
    if blocks == [] then 0 else Used(blocks[..|blocks| - 1]) + Room(blocks[|blocks| - 1].bytes)
  }

  /** The blocks lie one after the other from the start of the buffer, so no two of them overlap. */
  ghost predicate Tiled(blocks: seq<Block>)
    requires AllLong(blocks)
  {
    forall i | 0 <= i < |blocks| :: blocks[i].offset == Used(blocks[..i])
  }

  lemma {:induction false} UsedGrows(blocks: seq<Block>, i: nat)
    requires AllLong(blocks) && i < |blocks|
    ensures Used(blocks[..i]) + Room(blocks[i].bytes) <= Used(blocks)
  {
    var n := |blocks| - 1;
    if i == n {
      assert blocks[..i] == blocks[..n];
    } else {
      UsedGrows(blocks[..n], i);
      assert blocks[..n][..i] == blocks[..i];
    }
  }

  /** Any two blocks are disjoint, and none reaches into the free room. */
  lemma BlocksDisjoint(blocks: seq<Block>, i: nat, j: nat)
    requires AllLong(blocks) && Tiled(blocks) && i < j < |blocks|
    ensures blocks[i].offset + Room(blocks[i].bytes) <= blocks[j].offset
    ensures blocks[j].offset + Room(blocks[j].bytes) <= Used(blocks)
  {
    UsedGrows(blocks[..j], i);
    assert blocks[..j][..i] == blocks[..i];
    UsedGrows(blocks, j);
  }

  ghost predicate Intact(mem: seq<byte>, blocks: seq<Block>)
    requires AllLong(blocks)
  {
    forall i | 0 <= i < |blocks| :: Holds(mem, blocks[i].offset, blocks[i].bytes[PREFIX_LEN..])
  }

  /** Packed as it is now, the value stands for `bs`. */
  ghost predicate Made(blocks: seq<Block>, s: Small, bs: seq<byte>) {
    if |bs| <= MAX_SHORT_LEN then s == PackShort(bs)
    else exists i :: 0 <= i < |blocks| && blocks[i].bytes == bs && s == PackLong(bs, blocks[i].offset)
  }

  /** A block written behind the others leaves them intact. */
  lemma IntactKept(mem: seq<byte>, mem': seq<byte>, blocks: seq<Block>)
    requires AllLong(blocks) && Tiled(blocks) && Intact(mem, blocks)
    requires |mem'| == |mem| && Used(blocks) <= |mem| && mem'[..Used(blocks)] == mem[..Used(blocks)]
    ensures Intact(mem', blocks)
  {
    forall i | 0 <= i < |blocks| ensures Holds(mem', blocks[i].offset, blocks[i].bytes[PREFIX_LEN..]) {
      UsedGrows(blocks, i);
      HoldsKept(mem, mem', Used(blocks), blocks[i].offset, blocks[i].bytes[PREFIX_LEN..]);
    }
  }

  lemma HoldsKept(mem: seq<byte>, mem': seq<byte>, n: nat, offset: nat, suffix: seq<byte>)
    requires Holds(mem, offset, suffix) && offset + LENGTH_SIZE + |suffix| <= n <= |mem| == |mem'| && mem'[..n] == mem[..n]
    ensures Holds(mem', offset, suffix)
  {
    hide ToLe;
    var start, end := offset + LENGTH_SIZE, offset + LENGTH_SIZE + |suffix|;
    SliceOfPrefix(mem, n, offset, start);
    SliceOfPrefix(mem', n, offset, start);
    SliceOfPrefix(mem, n, start, end);
    SliceOfPrefix(mem', n, start, end);
  }

  lemma SliceOfPrefix<T>(s: seq<T>, n: nat, i: nat, j: nat)
    requires i <= j <= n <= |s|
    ensures s[..n][i..j] == s[i..j]
  {
  }

  lemma TiledSnoc(blocks: seq<Block>, bs: seq<byte>)
    requires AllLong(blocks) && Tiled(blocks) && |bs| > MAX_SHORT_LEN
    ensures var now := blocks + [Block(Used(blocks), bs)]; AllLong(now) && Tiled(now) && Used(now) == Used(blocks) + Room(bs)
  {
    var now := blocks + [Block(Used(blocks), bs)];
    assert now[..|blocks|] == blocks;
    forall i | 0 <= i < |now| ensures now[i].offset == Used(now[..i]) {
      assert i < |blocks| ==> now[..i] == blocks[..i];
    }
  }

  /** Copy bytes into the buffer. */
  method CopyInto(memory: array<byte>, start: nat, bs: seq<byte>)
    requires start + |bs| <= memory.Length
    modifies memory
    ensures memory[..start] == old(memory[..start])
    ensures memory[start..start + |bs|] == bs
    ensures memory[start + |bs|..] == old(memory[start + |bs|..])
  {
    for i := 0 to |bs|
      invariant memory[..start] == old(memory[..start])
      invariant memory[start..start + i] == bs[..i]
      invariant memory[start + |bs|..] == old(memory[start + |bs|..])
    {
      memory[start + i] := bs[i];
    }
  }

  lemma WrittenHolds(before: seq<byte>, between: seq<byte>, after: seq<byte>, start: nat, suffix: seq<byte>)
    requires |before| == |between| == |after| && start + LENGTH_SIZE + |suffix| <= |after|
    requires between[..start] == before[..start] && between[start..start + LENGTH_SIZE] == ToLe(|suffix|)
    requires after[..start + LENGTH_SIZE] == between[..start + LENGTH_SIZE]
    requires after[start + LENGTH_SIZE..start + LENGTH_SIZE + |suffix|] == suffix
    ensures Holds(after, start, suffix) && after[..start] == before[..start]
  {
    hide ToLe;
    assert after[start..start + LENGTH_SIZE] == after[..start + LENGTH_SIZE][start..];
    assert between[start..start + LENGTH_SIZE] == between[..start + LENGTH_SIZE][start..];
    assert after[..start] == after[..start + LENGTH_SIZE][..start] && between[..start] == between[..start + LENGTH_SIZE][..start];
  }

  class Manager {
    const memory: array<byte>
    const capacity: nat
    var free: seq<FreeRegion>

    ghost var blocks: seq<Block>

    ghost predicate Valid()
      reads this, memory
    {
      && memory.Length == capacity < LIMIT
      && AllLong(blocks) && Tiled(blocks) && Used(blocks) <= capacity && Intact(memory[..], blocks)
      && (free == [FreeRegion(capacity - Used(blocks), Used(blocks))] || (free == [] && Used(blocks) == capacity))
    }

    constructor (capacity: nat)
      requires capacity < LIMIT
      ensures Valid() && fresh(memory) && this.capacity == capacity && blocks == []
    {
      this.capacity := capacity;
      memory := new byte[capacity](_ => 0);
      free := [FreeRegion(capacity, 0)];
      blocks := [];
    }

    /** Free room and the room of the strings made add up to the capacity. */
    method GetFreeSpace() returns (n: nat)
      requires Valid()
      ensures n + Used(blocks) == capacity
    {
      n := 0;
      for i := 0 to |free|
        invariant n == if i == 0 then 0 else free[0].size
      {
        n := n + free[i].size;
      }
    }

    /** The first free region with room for `need` bytes, by binary search over the sizes. */
    method FindRegion(need: nat) returns (index: Option<nat>)
      requires Valid() && need > 0
      ensures index == if Used(blocks) + need <= capacity then Some(0) else None
      ensures index.Some? ==> |free| == 1
    {
      index := None;
      var left, right := 0, |free|;
      while left < right
        invariant 0 <= left <= right <= |free|
        invariant index.Some? ==> index == Some(0) && |free| == 1 && Used(blocks) + need <= capacity
        invariant index.None? && left == |free| ==> Used(blocks) + need > capacity
        invariant index.None? ==> right == |free|
      {
        var mid := left + (right - left) / 2;
        if free[mid].size >= need {
          index := Some(mid);
          right := mid;
        } else {
          left := mid + 1;
        }
      }
    }

    /** Take `need` bytes off region `index`. It is the first one, so it is never put back elsewhere in the list. */
    method Shrink(index: nat, need: nat) returns (start: nat)
      requires Valid() && index == 0 && |free| == 1 && 0 < need && Used(blocks) + need <= capacity
      modifies this`free
      ensures start == Used(blocks)
      ensures free == if start + need < capacity then [FreeRegion(capacity - start - need, start + need)] else []
    {
      hide Used, Tiled, Intact;
      var region := free[index];
      start := region.offset;
      if region.size > need {
        var size, offset := region.size - need, start + need;
        if index == 0 {
          free := free[index := FreeRegion(size, offset)];
        } else {
          assert false;
        }
      } else {
        free := free[..index] + free[index + 1..];
      }
    }

    /** Store the suffix of a long string behind the others, if there is room. */
    method Allocate(bytes: seq<byte>) returns (offset: Option<nat>)
      requires Valid() && |bytes| > MAX_SHORT_LEN
      modifies this`free, this`blocks, memory
      ensures Valid()
      ensures offset == if Used(old(blocks)) + Room(bytes) <= capacity then Some(Used(old(blocks))) else None
      ensures blocks == if offset.Some? then old(blocks) + [Block(offset.value, bytes)] else old(blocks)
    {
      hide Holds, Tiled, Used;
      var need := |bytes| - MAX_SHORT_LEN + OFFSET_LEN + LENGTH_SIZE;
      var index := FindRegion(need);
      if index.None? {
        return None;
      }
      var start := Shrink(index.value, need);
      var length := need - LENGTH_SIZE;
      Write(start, bytes, length);
      TiledSnoc(blocks, bytes);
      blocks := blocks + [Block(start, bytes)];
      offset := Some(start);
    }

    method Write(start: nat, bytes: seq<byte>, length: nat)
      requires memory.Length == capacity && AllLong(blocks) && Tiled(blocks) && Intact(memory[..], blocks)
      requires |bytes| > MAX_SHORT_LEN && start == Used(blocks) && start + Room(bytes) <= capacity && length == |bytes| - PREFIX_LEN
      modifies memory
      ensures Intact(memory[..], blocks) && Holds(memory[..], start, bytes[PREFIX_LEN..])
    {
      hide Intact, Holds, ToLe, Tiled, Used;
      ghost var before := memory[..];
      CopyInto(memory, start, ToLe(length));
      ghost var between := memory[..];
      assert between[..start] == before[..start] && between[start..start + LENGTH_SIZE] == ToLe(length);
      CopyInto(memory, start + LENGTH_SIZE, bytes[|bytes| - length..]);
      ghost var after := memory[..];
      assert after[..start + LENGTH_SIZE] == between[..start + LENGTH_SIZE];
      assert after[start + LENGTH_SIZE..start + LENGTH_SIZE + length] == bytes[PREFIX_LEN..];
      WrittenHolds(before, between, after, start, bytes[PREFIX_LEN..]);
      IntactKept(before, after, blocks);
    }

    /** A string: packed inline when short, else with its suffix in the buffer; nothing when there is no room. */
    method MakeString(bytes: seq<byte>) returns (s: Option<Small>)
      requires Valid()
      modifies this`free, this`blocks, memory
      ensures Valid() && old(blocks) <= blocks
      ensures s.None? <==> |bytes| > MAX_SHORT_LEN && Used(old(blocks)) + Room(bytes) > capacity
      ensures s.Some? ==> Made(blocks, s.value, bytes)
      ensures |bytes| <= MAX_SHORT_LEN || s.None? ==> blocks == old(blocks)
      ensures s.Some? && |bytes| > MAX_SHORT_LEN ==> Used(blocks) == Used(old(blocks)) + Room(bytes)
      ensures forall t, bs | Made(old(blocks), t, bs) :: Made(blocks, t, bs)
    {
      if |bytes| <= MAX_SHORT_LEN {
        return Some(PackShort(bytes));
      }
      ghost var was := blocks;
      TiledSnoc(was, bytes);
      var offset := Allocate(bytes);
      if offset.None? {
        return None;
      }
      MadeKept(was, blocks);
      assert blocks[|was|].bytes == bytes;
      s := Some(PackLong(bytes, offset.value));
    }
  }

  lemma MadeKept(a: seq<Block>, b: seq<Block>)
    requires a <= b
    ensures forall t, bs | Made(a, t, bs) :: Made(b, t, bs)
  {
    forall t, bs | Made(a, t, bs) ensures Made(b, t, bs) {
      if |bs| > MAX_SHORT_LEN {
        var i :| 0 <= i < |a| && a[i].bytes == bs && t == PackLong(bs, a[i].offset);
        assert b[i] == a[i];
      }
    }
  }

  /** Every string made so far still decodes to its bytes and its length. */
  lemma MadeDecodes(m: Manager, s: Small, bs: seq<byte>)
    requires m.Valid() && Made(m.blocks, s, bs)
    ensures Decode(m.memory[..], s) == Some(bs) && Length(m.memory[..], s) == Some(|bs|)
  {
    if |bs| <= MAX_SHORT_LEN {
      ShortDecodes(m.memory[..], bs);
    } else {
      var i :| 0 <= i < |m.blocks| && m.blocks[i].bytes == bs && s == PackLong(bs, m.blocks[i].offset);
      LongDecodes(m.memory[..], bs, m.blocks[i].offset);
    }
  }
}
