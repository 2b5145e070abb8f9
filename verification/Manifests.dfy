/** The manifest: which carrier holds which blocks. */
module Manifests {
  import opened Bytes
  import opened Wrappers

  datatype CarrierRange = CarrierRange(chunkIndex: u32, blockStart: nat, blockCount: nat)

  /** One past the last block of the first `n` ranges. */
  function End(manifest: seq<CarrierRange>, n: nat): nat
    requires n <= |manifest|
  {
    if n == 0 then 0 else End(manifest, n - 1) + manifest[n - 1].blockCount
  }

  predicate Placed(manifest: seq<CarrierRange>, i: nat)
    requires i < |manifest|
  {
    manifest[i].blockStart == End(manifest, i) && manifest[i].blockCount > 0
  }

  /** The ranges follow each other from block 0 on, and none is empty. */
  ghost predicate Contiguous(manifest: seq<CarrierRange>) {
    forall i {:trigger Placed(manifest, i)} :: 0 <= i < |manifest| ==> Placed(manifest, i)
  }

  lemma {:induction false} EndMonotone(manifest: seq<CarrierRange>, i: nat, j: nat)
    requires i <= j <= |manifest|
    ensures End(manifest, i) <= End(manifest, j)
  {
    if i < j {
      EndMonotone(manifest, i, j - 1);
    }
  }

  /** Ranges are contiguous when none is empty, the first starts at block 0 and each starts where the
      one before it ends. */
  lemma ContiguousMeans(manifest: seq<CarrierRange>)
    ensures Contiguous(manifest) <==>
      forall i :: 0 <= i < |manifest| ==>
        && manifest[i].blockCount > 0
        && manifest[i].blockStart == if i == 0 then 0 else manifest[i - 1].blockStart + manifest[i - 1].blockCount
    ensures Contiguous(manifest) && manifest != [] ==>
      var last := manifest[|manifest| - 1];
      End(manifest, |manifest|) == last.blockStart + last.blockCount
  {
    if Contiguous(manifest) {
      forall i | 0 <= i < |manifest|
        ensures manifest[i].blockCount > 0
        ensures manifest[i].blockStart == if i == 0 then 0 else manifest[i - 1].blockStart + manifest[i - 1].blockCount
      {
        assert Placed(manifest, i);
        assert i > 0 ==> Placed(manifest, i - 1);
      }
      assert manifest != [] ==> Placed(manifest, |manifest| - 1);
    }
    if forall i :: 0 <= i < |manifest| ==>
      && manifest[i].blockCount > 0
      && manifest[i].blockStart == if i == 0 then 0 else manifest[i - 1].blockStart + manifest[i - 1].blockCount {
      forall i | 0 <= i < |manifest|
        ensures Placed(manifest, i)
      {
        StepsAddUp(manifest, i);
      }
    }
  }

  lemma {:induction false} StepsAddUp(manifest: seq<CarrierRange>, i: nat)
    requires forall j :: 0 <= j < |manifest| ==>
      && manifest[j].blockCount > 0
      && manifest[j].blockStart == if j == 0 then 0 else manifest[j - 1].blockStart + manifest[j - 1].blockCount
    requires i < |manifest|
    ensures Placed(manifest, i)
  {
    if i > 0 {
      StepsAddUp(manifest, i - 1);
    }
  }

  predicate InCarrier(r: CarrierRange, lba: nat) {
    r.blockStart <= lba < r.blockStart + r.blockCount
  }

  /** Every block below the total lies in exactly one range. */
  lemma OneCarrierEach(manifest: seq<CarrierRange>, lba: nat)
    requires Contiguous(manifest)
    ensures lba < End(manifest, |manifest|) <==> exists i :: 0 <= i < |manifest| && InCarrier(manifest[i], lba)
    ensures forall i, j ::
      0 <= i < |manifest| && 0 <= j < |manifest| && InCarrier(manifest[i], lba) && InCarrier(manifest[j], lba) ==>
        i == j
  {
    if lba < End(manifest, |manifest|) {
      var i := Covering(manifest, lba, |manifest|);
    }
    forall i | 0 <= i < |manifest| && InCarrier(manifest[i], lba)
      ensures lba < End(manifest, |manifest|)
    {
      assert Placed(manifest, i);
      EndMonotone(manifest, i + 1, |manifest|);
    }
    forall i, j | 0 <= i < j < |manifest| && InCarrier(manifest[i], lba)
      ensures !InCarrier(manifest[j], lba)
    {
      assert Placed(manifest, i) && Placed(manifest, j);
      EndMonotone(manifest, i + 1, j);
    }
  }

  lemma {:induction false} Covering(manifest: seq<CarrierRange>, lba: nat, n: nat) returns (i: nat)
    requires Contiguous(manifest) && n <= |manifest| && lba < End(manifest, n)
    ensures i < n && InCarrier(manifest[i], lba)
  {
    if lba < End(manifest, n - 1) {
      i := Covering(manifest, lba, n - 1);
    } else {
      i := n - 1;
      assert Placed(manifest, i);
    }
  }

  const MAX_BLOCKS: nat := 0xFFFF_FFFF_FFFF_FFFF

  /** Accept a manifest exactly when its ranges are contiguous, add up to the total and do not
      overflow on the way. */
  method ValidateGeometry(manifest: seq<CarrierRange>, total: u64) returns (r: Result<()>)
    ensures r == if Contiguous(manifest) && End(manifest, |manifest|) == total then Ok(()) else Err(Manifest)
  {
    var next := 0;
    for i := 0 to |manifest|
      invariant next == End(manifest, i) <= MAX_BLOCKS
      invariant forall j {:trigger Placed(manifest, j)} :: 0 <= j < i ==> Placed(manifest, j)
    {
      var range := manifest[i];
      if range.blockStart != next || range.blockCount == 0 {
        assert !Placed(manifest, i);
        return Err(Manifest);
      }
      if next + range.blockCount > MAX_BLOCKS {
        EndMonotone(manifest, i + 1, |manifest|);
        return Err(Manifest);
      }
      next := next + range.blockCount;
    }
    if next != total {
      return Err(Manifest);
    }
    return Ok(());
  }
}
