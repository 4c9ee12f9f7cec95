/**
 The program's heap: blocks are handed out upwards from the start of the heap region and
 never freed. The first word of the region holds the current position.
 */
module BumpAllocator {
  import opened Bits
  import opened Common

  const HEAP_START: nat := 0x3_0000_0000
  const HEAP_END: nat := 0x4_0000_0000
  const WORD: nat := 8

  /** A size and an alignment of `2^alignBits`. */
  datatype Layout = Layout(size: nat, alignBits: nat)

  predicate ValidLayout(l: Layout) {
    l.size < 0x1_0000_0000_0000_0000 && l.alignBits < 64
  }

  /** A block that was handed out, and the byte behind it that was written as a probe. */
  datatype Block = Block(begin: nat, layout: Layout)

  function End(b: Block): nat {
    b.begin + b.layout.size
  }

  /** The lowest `k` bits cleared, which is what masking with `2^k - 1` inverted does. */
  function ClearLow(x: nat, k: nat): nat {
    if k == 0 then x else 2 * ClearLow(x / 2, k - 1)
  }

  lemma {:induction false} ClearLowIsMultiple(x: nat, k: nat)
    ensures exists q :: ClearLow(x, k) == q * Pow2(k)
    ensures ClearLow(x, k) <= x < ClearLow(x, k) + Pow2(k)
  {
    if k == 0 {
      assert ClearLow(x, k) == x * Pow2(0);
    } else {
      ClearLowIsMultiple(x / 2, k - 1);
      var q :| ClearLow(x / 2, k - 1) == q * Pow2(k - 1);
      MulAssoc(2, q, Pow2(k - 1));
      MulAssoc(q, 2, Pow2(k - 1));
      assert ClearLow(x, k) == q * Pow2(k);
    }
  }

  ghost predicate Aligned(address: nat, alignBits: nat) {
    exists q :: address == q * Pow2(alignBits)
  }

  /** First address from `pos` on with the alignment, with the wrapping addition of the code. */
  function AlignUp(pos: nat, alignBits: nat): nat {
    ClearLow((pos + (Pow2(alignBits) - 1)) % 0x1_0000_0000_0000_0000, alignBits)
  }

  lemma {:induction false} AlignUpSpec(pos: nat, alignBits: nat)
    requires pos < HEAP_END && alignBits < 64
    ensures Aligned(AlignUp(pos, alignBits), alignBits) && pos <= AlignUp(pos, alignBits)
    ensures forall a :: pos <= a && Aligned(a, alignBits) ==> AlignUp(pos, alignBits) <= a
  {
    var p := Pow2(alignBits);
    var x := pos + (p - 1);
    Pow2Of63();
    Pow2Mono(alignBits, 63);
    assert x % 0x1_0000_0000_0000_0000 == x;
    ClearLowIsMultiple(x, alignBits);
    forall a | pos <= a && Aligned(a, alignBits) ensures AlignUp(pos, alignBits) <= a {
      NoMultipleBetween(AlignUp(pos, alignBits), a, alignBits, pos);
    }
  }

  lemma {:induction false} NoMultipleBetween(begin: nat, a: nat, alignBits: nat, pos: nat)
    requires Aligned(begin, alignBits) && Aligned(a, alignBits) && pos <= a && begin <= pos + Pow2(alignBits) - 1
    ensures begin <= a
  {
    var p := Pow2(alignBits);
    var q :| begin == q * p;
    var r :| a == r * p;
    MultiplesApart(q, r, p, pos);
  }

  lemma MultiplesApart(q: nat, r: nat, p: nat, pos: nat)
    requires q * p <= pos + p - 1 && pos <= r * p
    ensures q * p <= r * p
  {
    if r < q {
      MulMono(r + 1, q, p);
    }
  }

  /** Where the next block may start. */
  function Position(pos: nat): nat {
    if pos == 0 then HEAP_START + WORD else pos
  }

  /** Blocks lie behind the position word, one after the other, up to `pos`. */
  ghost predicate InOrder(blocks: seq<Block>, pos: nat) {
    && (forall i :: 0 <= i < |blocks| ==> HEAP_START + WORD <= blocks[i].begin && End(blocks[i]) <= pos)
    && (forall i, j :: 0 <= i < j < |blocks| ==> End(blocks[i]) <= blocks[j].begin)
  }

  ghost predicate AllAligned(blocks: seq<Block>) {
    forall i :: 0 <= i < |blocks| ==> Aligned(blocks[i].begin, blocks[i].layout.alignBits)
  }

  predicate Inside(address: nat, b: Block) {
    b.begin <= address < End(b)
  }

  class Heap {
    var pos: nat
    ghost var blocks: seq<Block>

    ghost predicate Valid()
      reads this
    {
      && InOrder(blocks, Position(pos)) && AllAligned(blocks)
      && (pos == 0 || HEAP_START + WORD <= pos < HEAP_END)
      && (pos == 0 <==> blocks == [])
    }

    /** The runtime hands the region over zeroed. */
    constructor ()
      ensures Valid() && blocks == []
    {
      pos, blocks := 0, [];
    }

    /**
     A block at the first suitable address, or an abort because the region is too small. The
     byte written behind the new block, `probe`, is in the region and in no block.
     */
    method Alloc(layout: Layout) returns (begin: Option<nat>, probe: nat)
      requires Valid() && ValidLayout(layout)
      modifies this
      ensures var first := AlignUp(Position(old(pos)), layout.alignBits);
              begin == if first + layout.size < HEAP_END then Some(first) else None
      ensures begin.None? ==> blocks == old(blocks)
      ensures begin.Some? ==> Valid() && blocks == old(blocks) + [Block(begin.value, layout)]
      ensures begin.Some? ==> pos == begin.value + layout.size == probe
      ensures begin.Some? ==> HEAP_START + WORD <= probe < HEAP_END && forall i :: 0 <= i < |blocks| ==> !Inside(probe, blocks[i])
    {
      var from := if pos == 0 then HEAP_START + WORD else pos;
      AlignUpSpec(from, layout.alignBits);
      var first := AlignUp(from, layout.alignBits);
      probe := first + layout.size;
      if probe >= 0x1_0000_0000_0000_0000 {
        return None, probe;
      }
      pos := probe;
      if probe >= HEAP_END {
        return None, probe;
      }
      blocks := blocks + [Block(first, layout)];
      begin := Some(first);
    }

    /** Bytes between the start of the region and the position. */
    method Used() returns (n: nat)
      requires Valid()
      ensures blocks == [] ==> n == 0
      ensures blocks != [] ==> n == pos - HEAP_START >= WORD
    {
      n := if pos == 0 then 0 else pos - HEAP_START;
    }
  }

  /** Blocks in order never share an address. */
  lemma {:induction false} BlocksAreDisjoint(blocks: seq<Block>, pos: nat, i: nat, j: nat, address: nat)
    requires InOrder(blocks, pos) && i < |blocks| && j < |blocks| && i != j
    ensures !(Inside(address, blocks[i]) && Inside(address, blocks[j]))
  {
    if i < j {
      assert End(blocks[i]) <= blocks[j].begin;
    } else {
      assert End(blocks[j]) <= blocks[i].begin;
    }
  }
}
