/** The free-block bitmap: bit b of the map lives in byte b/8 of its block, as `1 << (b % 8)`. */
module Bitmap {
  import opened Blocks

  const BPB: nat := 4096      // bitmap bits per block

  /** Bit q of a byte: x & (1 << q). */
  predicate Bit(x: nat, q: nat)
  {
    if q == 0 then x % 2 == 1 else Bit(x / 2, q - 1)
  }

  /** x | (1 << q) */
  function SetB(x: nat, q: nat): (r: nat)
  {
    if q == 0 then (if x % 2 == 1 then x else x + 1) else 2 * SetB(x / 2, q - 1) + x % 2
  }

  /** x & ~(1 << q) */
  function ClearB(x: nat, q: nat): (r: nat)
  {
    if q == 0 then (if x % 2 == 1 then x - 1 else x) else 2 * ClearB(x / 2, q - 1) + x % 2
  }

  function Power(n: nat): (r: nat)
    ensures r > 0
  {
    if n == 0 then 1 else 2 * Power(n - 1)
  }

  lemma {:induction false} BitSet(x: nat, q: nat, r: nat)
    ensures Bit(SetB(x, q), r) <==> q == r || Bit(x, r)
  {
    if q > 0 && r > 0 {
      BitSet(x / 2, q - 1, r - 1);
    }
  }

  lemma {:induction false} BitClear(x: nat, q: nat, r: nat)
    ensures Bit(ClearB(x, q), r) <==> q != r && Bit(x, r)
  {
    if q > 0 && r > 0 {
      BitClear(x / 2, q - 1, r - 1);
    }
  }

  lemma {:induction false} InByte(x: nat, q: nat, n: nat)
    requires x < Power(n) && q < n
    ensures SetB(x, q) < Power(n) && ClearB(x, q) < Power(n)
  {
    if q > 0 {
      InByte(x / 2, q - 1, n - 1);
    }
  }

  lemma PowerEight()
    ensures Power(8) == 256
  {
    assert Power(4) == 16;
  }

  predicate GetBit(b: Block, i: nat)
    requires i < BPB
  {
    Bit(b[i / 8], i % 8)
  }

  function SetBit(b: Block, i: nat): (r: Block)
    requires i < BPB
    ensures forall j :: 0 <= j < BPB ==> (GetBit(r, j) <==> j == i || GetBit(b, j))
  {
    PowerEight();
    InByte(b[i / 8], i % 8, 8);
    var r := b[i / 8 := SetB(b[i / 8], i % 8)];
    assert forall j :: 0 <= j < BPB ==> (GetBit(r, j) <==> j == i || GetBit(b, j)) by {
      forall j | 0 <= j < BPB
        ensures GetBit(r, j) <==> j == i || GetBit(b, j)
      {
        BitSet(b[i / 8], i % 8, j % 8);
      }
    }
    r
  }

  function ClearBit(b: Block, i: nat): (r: Block)
    requires i < BPB
    ensures forall j :: 0 <= j < BPB ==> (GetBit(r, j) <==> j != i && GetBit(b, j))
  {
    PowerEight();
    InByte(b[i / 8], i % 8, 8);
    var r := b[i / 8 := ClearB(b[i / 8], i % 8)];
    assert forall j :: 0 <= j < BPB ==> (GetBit(r, j) <==> j != i && GetBit(b, j)) by {
      forall j | 0 <= j < BPB
        ensures GetBit(r, j) <==> j != i && GetBit(b, j)
      {
        BitClear(b[i / 8], i % 8, j % 8);
      }
    }
    r
  }

  /** Is block b marked in use, with the map starting at block `start`? */
  predicate InUse(blocks: seq<Block>, start: nat, b: nat)
  {
    start + b / BPB < |blocks| && GetBit(blocks[start + b / BPB], b % BPB)
  }

  /** Marking or clearing one bit of the map changes no other bit. */
  lemma MarkOne(blocks: seq<Block>, start: nat, b: nat, c: nat)
    requires start + b / BPB < |blocks|
    ensures var k := start + b / BPB;
      InUse(blocks[k := SetBit(blocks[k], b % BPB)], start, c) <==> c == b || InUse(blocks, start, c)
  {
    if c / BPB == b / BPB {
      assert c == b <==> c % BPB == b % BPB;
    }
  }

  lemma UnmarkOne(blocks: seq<Block>, start: nat, b: nat, c: nat)
    requires start + b / BPB < |blocks|
    ensures var k := start + b / BPB;
      InUse(blocks[k := ClearBit(blocks[k], b % BPB)], start, c) <==> c != b && InUse(blocks, start, c)
  {
    if c / BPB == b / BPB {
      assert c == b <==> c % BPB == b % BPB;
    }
  }
}
