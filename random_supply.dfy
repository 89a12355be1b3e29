/**
 * The per-context random supply: a 2048-byte block of random bytes and a
 * cursor into it. Requests are served from the block; when a request does not
 * fit, the bytes left in the block are used first and the block is refilled.
 * The operating system's generator is not modelled: each call receives the
 * block a refill would produce as a parameter.
 */
module RandomSupply {
  import opened Bytes

  const RandomBufferSize: nat := 2048

  /** The supply as a value: the current block and the cursor into it. */
  datatype Supply = Supply(block: seq<Byte>, index: nat)

  ghost predicate Coherent(sp: Supply)
  {
    |sp.block| == RandomBufferSize && sp.index <= RandomBufferSize
  }

  /** The bytes of the current block not handed out yet. */
  ghost function Remaining(sp: Supply): seq<Byte>
    requires Coherent(sp)
  {
    sp.block[sp.index..]
  }

  ghost predicate Refills(sp: Supply, count: nat)
  {
    sp.index + count > RandomBufferSize
  }

  /**
   * The bytes a request for count bytes receives: byte k is byte index + k of
   * the current block followed by the new one.
   */
  ghost function Fetched(sp: Supply, count: nat, refill: seq<Byte>): (r: seq<Byte>)
    requires Coherent(sp) && |refill| == RandomBufferSize && count <= RandomBufferSize
    ensures |r| == count
  {
    (sp.block + refill)[sp.index..sp.index + count]
  }

  /** The supply after a request for count bytes. */
  ghost function After(sp: Supply, count: nat, refill: seq<Byte>): (r: Supply)
    requires Coherent(sp) && |refill| == RandomBufferSize && count <= RandomBufferSize
  {
    if Refills(sp, count) then Supply(refill, count - (RandomBufferSize - sp.index))
    else Supply(sp.block, sp.index + count)
  }

  /** Serving a request keeps the supply coherent. */
  lemma AfterCoherent(sp: Supply, count: nat, refill: seq<Byte>)
    requires Coherent(sp) && |refill| == RandomBufferSize && count <= RandomBufferSize
    ensures Coherent(After(sp, count, refill))
  {
  }

  /**
   * No byte is lost or handed out twice: what a request receives followed by
   * what remains afterwards is what remained before, followed by the new block
   * when there was a refill.
   */
  lemma Conservation(sp: Supply, count: nat, refill: seq<Byte>)
    requires Coherent(sp) && |refill| == RandomBufferSize && count <= RandomBufferSize
    ensures Fetched(sp, count, refill) + Remaining(After(sp, count, refill))
      == Remaining(sp) + (if Refills(sp, count) then refill else [])
  {
    var m := sp.index + count;
    if Refills(sp, count) {
      var all := sp.block + refill;
      assert Remaining(After(sp, count, refill)) == all[m..];
      assert all[sp.index..m] + all[m..] == all[sp.index..];
      assert all[sp.index..] == Remaining(sp) + refill;
    } else {
      assert Fetched(sp, count, refill) == sp.block[sp.index..m];
      assert sp.block[sp.index..m] + sp.block[m..] == sp.block[sp.index..];
    }
  }

  /** Without a refill the cursor advances by count and the request is served from the block. */
  lemma AfterWithoutRefill(sp: Supply, count: nat, refill: seq<Byte>)
    requires Coherent(sp) && |refill| == RandomBufferSize && count <= RandomBufferSize
    requires !Refills(sp, count)
    ensures After(sp, count, refill).block == sp.block && After(sp, count, refill).index == sp.index + count
    ensures Fetched(sp, count, refill) == sp.block[sp.index..sp.index + count]
  {
  }

  /**
   * With a refill the request receives every leftover byte and then the start
   * of the new block, which becomes current with the cursor at count minus
   * the leftover.
   */
  lemma AfterWithRefill(sp: Supply, count: nat, refill: seq<Byte>)
    requires Coherent(sp) && |refill| == RandomBufferSize && count <= RandomBufferSize
    requires Refills(sp, count)
    ensures var leftover := RandomBufferSize - sp.index;
      && After(sp, count, refill).block == refill
      && After(sp, count, refill).index == count - leftover
      && Fetched(sp, count, refill) == sp.block[sp.index..] + refill[..count - leftover]
  {
  }

  class RandomBuffer {
    var buffer: array<Byte>
    var index: nat

    ghost function State(): Supply
      reads this, buffer
    {
      Supply(buffer[..], index)
    }

    ghost predicate Valid()
      reads this
    {
      buffer.Length == RandomBufferSize && index <= RandomBufferSize
    }

    /** A fresh supply has its cursor at the end, so the first request refills it. */
    constructor ()
      ensures Valid() && fresh(buffer)
      ensures index == RandomBufferSize
    {
      buffer := new Byte[RandomBufferSize](i => 0);
      index := RandomBufferSize;
    }

    /** `Random.GetBytes(buffer)`: the block is replaced by the next one the generator produces. */
    method Refill(refill: seq<Byte>)
      requires buffer.Length == RandomBufferSize && |refill| == RandomBufferSize
      modifies buffer
      ensures buffer[..] == refill
    {
      forall i | 0 <= i < RandomBufferSize {
        buffer[i] := refill[i];
      }
    }

    /** Writes count random bytes at bytes[offset..] and advances the supply. */
    method GetRandomBytes(bytes: array<Byte>, offset: nat, count: nat, refill: seq<Byte>)
      requires Valid() && bytes != buffer
      requires |refill| == RandomBufferSize && count <= RandomBufferSize
      requires offset + count <= bytes.Length
      modifies this, buffer, bytes
      ensures Valid() && buffer == old(buffer)
      ensures index == After(old(State()), count, refill).index
      ensures buffer[..] == After(old(State()), count, refill).block
      ensures forall j :: offset <= j < offset + count ==> bytes[j] == Fetched(old(State()), count, refill)[j - offset]
      ensures forall j :: 0 <= j < bytes.Length && !(offset <= j < offset + count) ==> bytes[j] == old(bytes[j])
    {
      ghost var sp := State();
      var bufferIndex := index;
      var off, cnt := offset, count;
      if bufferIndex + cnt > RandomBufferSize {
        var leftover := RandomBufferSize - bufferIndex;
        BlockCopy(buffer, bufferIndex, bytes, off, leftover);
        off := off + leftover;
        cnt := cnt - leftover;
        Refill(refill);
        bufferIndex := 0;
      }
      BlockCopy(buffer, bufferIndex, bytes, off, cnt);
      index := bufferIndex + cnt;
      assert buffer[..] == After(sp, count, refill).block;
      if Refills(sp, count) {
        AfterWithRefill(sp, count, refill);
      }
    }
  }

  /**
   * `Buffer.BlockCopy` between two distinct arrays: count bytes of src from
   * srcOffset land at dst[dstOffset..]; nothing else in dst changes.
   */
  method BlockCopy(src: array<Byte>, srcOffset: nat, dst: array<Byte>, dstOffset: nat, count: nat)
    requires src != dst
    requires srcOffset + count <= src.Length && dstOffset + count <= dst.Length
    modifies dst
    ensures forall j :: dstOffset <= j < dstOffset + count ==> dst[j] == src[srcOffset + j - dstOffset]
    ensures forall j :: 0 <= j < dst.Length && !(dstOffset <= j < dstOffset + count) ==> dst[j] == old(dst[j])
  {
    forall i | 0 <= i < count {
      dst[dstOffset + i] := src[srcOffset + i];
    }
  }
}
