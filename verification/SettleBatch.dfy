/** The settler's batch processor: settle instructions collected into transactions. */
module SettleBatch {

  import opened Batching

  const MAX_BATCH_SIZE: nat := 8
  const MAX_CU_PER_TX: nat := 1_400_000
  const PACKET_DATA_SIZE: nat := 1232

  /** A settle instruction and its compute budget. */
  datatype Instruction = Instruction(id: nat, cu: nat)

  /** A serialized transaction's length, or the failure to build it. */
  datatype Size = Bytes(length: nat) | Failed

  function Cu(batch: seq<Instruction>): nat {
    if batch == [] then 0 else Cu(batch[..|batch| - 1]) + batch[|batch| - 1].cu
  }

  predicate Light(batch: seq<Instruction>) {
    |batch| <= MAX_BATCH_SIZE && Cu(batch) < MAX_CU_PER_TX
  }

  predicate Fits(batch: seq<Instruction>, size: seq<Instruction> -> Size) {
    Light(batch) && size(batch).Bytes? && size(batch).length < PACKET_DATA_SIZE
  }

  function Fitting(size: seq<Instruction> -> Size): seq<Instruction> -> bool {
    batch => Fits(batch, size)
  }

  /** No transaction for the batch, or one that is too long with a single instruction. */
  predicate Unbuildable(batch: seq<Instruction>, size: seq<Instruction> -> Size) {
    Light(batch) && (size(batch).Failed? || (|batch| == 1 && size(batch).length >= PACKET_DATA_SIZE))
  }

  /** Adding an instruction to `previous` ends in an error. */
  predicate Rejects(batch: seq<Instruction>, previous: seq<Instruction>, size: seq<Instruction> -> Size) {
    Unbuildable(batch, size) || (!Fits(batch, size) && previous != [] && size(previous).Failed?)
  }

  class BatchProcessor {
    var instructions: seq<Instruction>
    var cu: nat
    const size: seq<Instruction> -> Size
    ghost var sent: seq<seq<Instruction>>

    ghost predicate Valid()
      reads this
    {
      && cu == Cu(instructions)
      && (instructions == [] || Okay(instructions, Fitting(size)))
      && AllOkay(sent, Fitting(size))
    }

    constructor (size: seq<Instruction> -> Size)
      ensures Valid() && instructions == [] && sent == [] && this.size == size
    {
      instructions, cu := [], 0;
      this.size := size;
      sent := [];
    }

    /** Sends what is held, if anything; a failure to build the transaction keeps it. */
    method Send() returns (ok: bool)
      requires Valid()
      modifies this
      ensures Valid()
      ensures ok <==> old(instructions) == [] || !size(old(instructions)).Failed?
      ensures ok ==> instructions == [] && sent == old(sent) + if old(instructions) == [] then [] else [old(instructions)]
      ensures !ok ==> instructions == old(instructions) && sent == old(sent)
    {
      if instructions == [] {
        return true;
      }
      if size(instructions).Failed? {
        return false;
      }
      sent := sent + [instructions];
      instructions, cu := [], 0;
      return true;
    }

    /** Holds the instruction, sending what was held before if both do not fit together. */
    method AddAndMaybeSend(ix: Instruction) returns (ok: bool)
      requires Valid()
      modifies this
      ensures ok <==> !Rejects(old(instructions) + [ix], old(instructions), size)
      ensures ok ==> Valid()
      ensures ok && (old(instructions) == [] || Fits(old(instructions) + [ix], size))
              ==> sent == old(sent) && instructions == old(instructions) + [ix]
      ensures ok && old(instructions) != [] && !Fits(old(instructions) + [ix], size)
              ==> sent == old(sent) + [old(instructions)] && instructions == [ix]
      ensures !ok ==> sent == old(sent) && cu == Cu(instructions)
                      && instructions == old(instructions) + if Unbuildable(old(instructions) + [ix], size) then [ix] else []
    {
      var previous, previousCu := instructions, cu;
      instructions, cu := instructions + [ix], cu + ix.cu;
      assert instructions[..|previous|] == previous;
      ghost var both := instructions;
      assert cu == Cu(both);
      var needsSend;
      if |instructions| > MAX_BATCH_SIZE || cu >= MAX_CU_PER_TX {
        needsSend := true;
      } else {
        var serialized := size(instructions);
        if serialized.Failed? {
          return false;
        }
        var tooBig := serialized.length >= PACKET_DATA_SIZE;
        if tooBig && |instructions| == 1 {
          return false;
        }
        needsSend := tooBig;
      }
      if needsSend {
        instructions, cu := previous, previousCu;
        ok := Send();
        if !ok {
          return;
        }
        instructions, cu := [ix], ix.cu;
        assert [ix][..0] == [];
      } else {
        ok := true;
      }
    }
  }

  /**
   A market's settlements. Without an error the transactions are those of the greedy
   packing; with one, what was sent is the beginning of it.
   */
  method SettlePairs(processor: BatchProcessor, list: seq<Instruction>) returns (ok: bool)
    requires processor.Valid() && processor.instructions == [] && processor.sent == []
    modifies processor
    ensures ok ==> processor.sent == Greedy([], list, Fitting(processor.size)) && processor.instructions == []
    ensures processor.sent <= Greedy([], list, Fitting(processor.size))
  {
    var fits := Fitting(processor.size);
    for i := 0 to |list|
      invariant processor.Valid()
      invariant processor.sent + Greedy(processor.instructions, list[i..], fits) == Greedy([], list, fits)
    {
      PackNext(processor.sent, processor.instructions, list, i, fits);
      ok := processor.AddAndMaybeSend(list[i]);
      if !ok {
        return;
      }
    }
    ok := processor.Send();
  }

  /** One instruction, or within the limits of a transaction. */
  ghost predicate InNumbers(batch: seq<Instruction>, size: seq<Instruction> -> Size) {
    || |batch| == 1
    || (1 < |batch| <= 8 && Cu(batch) < 1_400_000 && size(batch).Bytes? && size(batch).length < 1232)
  }

  /** When an instruction still fits what is held. */
  lemma NextFits(batch: seq<Instruction>, ix: Instruction, size: seq<Instruction> -> Size)
    ensures Fits(batch + [ix], size) <==>
            && |batch| < 8 && Cu(batch) + ix.cu < 1_400_000
            && size(batch + [ix]).Bytes? && size(batch + [ix]).length < 1232
  {
    assert (batch + [ix])[..|batch|] == batch;
  }

  /**
   When adding an instruction ends in an error: the transaction with it cannot be built, it
   is too long on its own, or it does not fit and what is held cannot be built.
   */
  lemma RejectsWhen(batch: seq<Instruction>, ix: Instruction, size: seq<Instruction> -> Size)
    ensures var all := batch + [ix];
            var light := |batch| < 8 && Cu(batch) + ix.cu < 1_400_000;
            Rejects(all, batch, size) <==>
            || (light && size(all).Failed?)
            || (light && batch == [] && size(all).length >= 1232)
            || (batch != [] && size(batch).Failed? && (!light || size(all).Failed? || size(all).length >= 1232))
  {
    assert (batch + [ix])[..|batch|] == batch;
  }

  /** Every transaction of the packing has one instruction or keeps the limits. */
  lemma {:induction false} PackedInNumbers(list: seq<Instruction>, size: seq<Instruction> -> Size)
    ensures forall i :: 0 <= i < |Greedy([], list, Fitting(size))| ==> InNumbers(Greedy([], list, Fitting(size))[i], size)
  {
    GreedyIsLossless([], list, Fitting(size));
  }

  // ---------- the limits are monotone ----------

  lemma {:induction false} CuOfPart(batch: seq<Instruction>, i: nat, j: nat)
    requires i <= j <= |batch|
    ensures Cu(batch[i..j]) <= Cu(batch)
  {
    if i == j {
    } else if j == |batch| {
      CuOfPart(batch[..j - 1], i, j - 1);
      assert batch[i..j][..j - i - 1] == batch[..j - 1][i..j - 1];
    } else {
      CuOfPart(batch[..|batch| - 1], i, j);
      assert batch[i..j] == batch[..|batch| - 1][i..j];
    }
  }

  /** Leaving out instructions at the ends builds a transaction that is not longer. */
  ghost predicate SizeMonotone(size: seq<Instruction> -> Size) {
    forall b, c :: Part(b, c) && size(c).Bytes? ==> size(b).Bytes? && size(b).length <= size(c).length
  }

  lemma FittingIsMonotone(size: seq<Instruction> -> Size)
    requires SizeMonotone(size)
    ensures Monotone(Fitting(size))
  {
    forall b, c | Fitting(size)(c) && Part(b, c) ensures Fitting(size)(b) {
      var i, j :| 0 <= i <= j <= |c| && b == c[i..j];
      CuOfPart(c, i, j);
    }
  }
}
