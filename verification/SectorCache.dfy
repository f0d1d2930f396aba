/**
 The one-sector write-through cache in front of a block device: byte-granular
 reads and writes through whole sectors, some of them past the cache.
 */
module SectorCache {
  import opened Machine
  import opened Bytes
  import Blocks

  ghost predicate WholeSectors(n: nat, S: nat) {
    0 < S && Blocks.Remainder(n, S) == 0
  }

  lemma {:induction false} SectorFits(offset: nat, size: nat, S: nat)
    requires 0 < S && WholeSectors(size, S) && offset < size
    ensures offset - Blocks.Remainder(offset, S) + S <= size && WholeSectors(offset - Blocks.Remainder(offset, S), S)
  {
    if S <= offset {
      SectorFits(offset - S, size - S, S);
    }
  }

  lemma {:induction false} WholePart(count: nat, S: nat)
    requires 0 < S <= count
    ensures S <= count - Blocks.Remainder(count, S) <= count && WholeSectors(count - Blocks.Remainder(count, S), S)
  {
    if 2 * S <= count {
      WholePart(count - S, S);
    }
  }

  // A device of whole sectors, any of whose transfers may fail. A write that
  // fails may have left anything in the sectors it was to write. `faults`
  // counts the transfers that failed.
  class Device {
    const S: nat
    var image: seq<u8>
    var faults: nat

    ghost predicate Valid()
      reads this
    {
      WholeSectors(|image|, S)
    }

    constructor (S: nat, image: seq<u8>)
      requires WholeSectors(|image|, S)
      ensures Valid() && this.S == S && this.image == image
    {
      this.S, this.image, this.faults := S, image, 0;
    }

    method ReadSectors(base: nat, size: nat) returns (ok: bool, data: seq<u8>)
      requires base + size <= |image|
      modifies this`faults
      ensures ok ==> data == image[base..base + size]
      ensures faults == if ok then old(faults) else old(faults) + 1
    {
      ok := *;
      data := if ok then image[base..base + size] else [];
      faults := if ok then faults else faults + 1;
    }

    method WriteSectors(base: nat, data: seq<u8>) returns (ok: bool)
      requires Valid() && base + |data| <= |image|
      modifies this
      ensures Valid() && |image| == |old(image)|
      ensures ok ==> image == Overlay(old(image), base, data)
      ensures OutsideKept(old(image), image, base, base + |data|)
      ensures faults == if ok then old(faults) else old(faults) + 1
    {
      ok := *;
      faults := if ok then faults else faults + 1;
      if ok {
        image := Overlay(image, base, data);
      } else {
        var torn: seq<u8> :| |torn| == |data|;
        image := Overlay(image, base, torn);
      }
    }
  }

  ghost predicate OutsideKept(image: seq<u8>, image': seq<u8>, lo: nat, hi: nat) {
    |image'| == |image| && forall i :: 0 <= i < |image| && !(lo <= i < hi) ==> image'[i] == image[i]
  }

  class SectorReader {
    const device: Device
    var cache: seq<u8>
    var cachedBase: nat
    var cacheValid: bool

    // Whenever the cache is valid it is the sector it names.
    ghost predicate Valid()
      reads this, device
    {
      && device.Valid()
      && (cacheValid ==> cachedBase + device.S <= |device.image|
                         && cache == device.image[cachedBase..cachedBase + device.S]
                         && WholeSectors(cachedBase, device.S))
    }

    constructor (device: Device)
      requires device.Valid()
      ensures Valid() && this.device == device && !cacheValid
    {
      this.device := device;
      cache, cachedBase, cacheValid := [], 0, false;
    }

    method Invalidate()
      requires Valid()
      modifies this`cacheValid
      ensures Valid() && !cacheValid
    {
      cacheValid := false;
    }

    // The sector at `base`, from the cache or into it.
    method Load(base: nat) returns (ok: bool)
      requires Valid() && base + device.S <= |device.image| && WholeSectors(base, device.S)
      modifies this, device`faults
      ensures Valid() && (ok ==> cacheValid && cachedBase == base)
      ensures old(device.faults) <= device.faults && (ok <==> device.faults == old(device.faults))
    {
      if !cacheValid || cachedBase != base {
        var data;
        ok, data := device.ReadSectors(base, device.S);
        if !ok {
          cacheValid := false;
          return;
        }
        cache, cachedBase, cacheValid := data, base, true;
      }
      ok := true;
    }

    // One round of read(): whole sectors straight into an aligned buffer, or
    // part of one through the cache.
    method ReadRound(offset: nat, count: nat, address: nat) returns (ok: bool, bytes: seq<u8>)
      requires Valid() && 0 < count && offset + count <= |device.image|
      modifies this, device`faults
      ensures Valid() && old(device.faults) <= device.faults && (ok <==> device.faults == old(device.faults))
      ensures ok ==> 0 < |bytes| <= count && bytes == device.image[offset..offset + |bytes|]
    {
      var S := device.S;
      var within := Blocks.Remainder(offset, S);
      SectorFits(offset, |device.image|, S);
      if within == 0 && count >= S && address % 8 == 0 {
        WholePart(count, S);
        ok, bytes := device.ReadSectors(offset, count - Blocks.Remainder(count, S));
        cacheValid := false;
        return;
      }
      var chunk := Min(S - within, count);
      ok := Load(offset - within);
      if !ok {
        return false, [];
      }
      bytes := cache[within..within + chunk];
      SliceOfSlice(device.image, cachedBase, cachedBase + S, within, chunk);
    }

    // read(): success means exactly the device's bytes.
    method Read(offset: nat, count: nat, address: nat) returns (ok: bool, output: seq<u8>)
      requires Valid()
      modifies this, device`faults
      ensures Valid() && device.image == old(device.image)
      ensures ok <==> offset + count <= |device.image| && device.faults == old(device.faults)
      ensures ok ==> output == device.image[offset..offset + count]
    {
      output := [];
      if offset > |device.image| || count > |device.image| - offset {
        return false, [];
      }
      while |output| < count
        invariant Valid() && |output| <= count && output == device.image[offset..offset + |output|]
        invariant device.faults == old(device.faults)
        decreases count - |output|
      {
        var bytes;
        ok, bytes := ReadRound(offset + |output|, count - |output|, address + |output|);
        if !ok {
          return false, [];
        }
        SliceGrow(device.image, offset, |output|, |bytes|);
        output := output + bytes;
      }
      ok := true;
    }

    // Part of one sector, through the cache.
    method WritePart(offset: nat, within: nat, bytes: seq<u8>) returns (ok: bool)
      requires Valid() && within <= offset && within + |bytes| <= device.S
      requires offset - within + device.S <= |device.image| && WholeSectors(offset - within, device.S)
      modifies this, device
      ensures Valid() && OutsideKept(old(device.image), device.image, offset - within, offset - within + device.S)
      ensures old(device.faults) <= device.faults && (ok <==> device.faults == old(device.faults))
      ensures ok ==> device.image == Overlay(old(device.image), offset, bytes)
    {
      var base := offset - within;
      ok := Load(base);
      if !ok {
        return;
      }
      WholeSectorWrite(device.image, base, cache, within, bytes, offset);
      ok := PutSector(base, Overlay(cache, within, bytes));
    }

    // The cached sector with new bytes goes to the device; a failure leaves
    // nothing in the cache.
    method PutSector(base: nat, sector: seq<u8>) returns (ok: bool)
      requires Valid() && cacheValid && cachedBase == base && |sector| == device.S
      modifies this, device
      ensures Valid() && OutsideKept(old(device.image), device.image, base, base + device.S)
      ensures old(device.faults) <= device.faults && (ok <==> device.faults == old(device.faults))
      ensures ok ==> device.image == Overlay(old(device.image), base, sector)
    {
      cache := sector;
      ok := device.WriteSectors(base, cache);
      if !ok {
        cacheValid := false;
      }
    }

    // One round of write(): whole sectors past the cache, or part of one
    // through it.
    method WriteRound(offset: nat, input: seq<u8>, address: nat)
      returns (ok: bool, count: nat, ghost lo: nat, ghost hi: nat)
      requires Valid() && input != [] && offset + |input| <= |device.image|
      modifies this, device
      ensures Valid() && Touched(offset, |input|, device.S, lo, hi)
              && OutsideKept(old(device.image), device.image, lo, hi)
      ensures old(device.faults) <= device.faults && (ok <==> device.faults == old(device.faults))
      ensures ok ==> 0 < count <= |input| && device.image == Overlay(old(device.image), offset, input[..count])
    {
      var S := device.S;
      var within := Blocks.Remainder(offset, S);
      SectorFits(offset, |device.image|, S);
      if within == 0 && |input| >= S && address % 8 == 0 {
        count := |input| - Blocks.Remainder(|input|, S);
        WholePart(|input|, S);
        lo, hi := offset, offset + count;
        ok := device.WriteSectors(offset, input[..count]);
        cacheValid := false;
        return;
      }
      count := Min(S - within, |input|);
      lo, hi := offset - within, offset - within + S;
      ok := WritePart(offset, within, input[..count]);
    }

    // write(): success means exactly the input replaced and nothing else; a
    // failure leaves everything outside the sectors of the request alone.
    method Write(offset: nat, input: seq<u8>, address: nat) returns (ok: bool)
      requires Valid()
      modifies this, device
      ensures Valid() && |device.image| == |old(device.image)|
      ensures ok <==> offset + |input| <= |device.image| && device.faults == old(device.faults)
      ensures offset + |input| > |device.image| ==> device.image == old(device.image)
      ensures ok ==> device.image == Overlay(old(device.image), offset, input)
      ensures forall i :: 0 <= i < |device.image| && (i + device.S <= offset || offset + |input| + device.S <= i) ==>
                device.image[i] == old(device.image)[i]
    {
      if offset > |device.image| || |input| > |device.image| - offset {
        return false;
      }
      var done: nat := 0;
      assert Overlay(device.image, offset, input[..0]) == device.image;
      while done < |input|
        invariant Valid() && 0 <= done <= |input| && |device.image| == |old(device.image)|
        invariant device.image == Overlay(old(device.image), offset, input[..done])
                  && device.faults == old(device.faults)
      {
        var count;
        ghost var lo, hi;
        ok, count, lo, hi := WriteRound(offset + done, input[done..], address + done);
        if !ok {
          return;
        }
        OverlayNext(old(device.image), offset, input, done, count);
        done := done + count;
      }
      assert input[..done] == input;
      ok := true;
    }
  }

  lemma {:induction false} OverlayNext(image: seq<u8>, offset: nat, input: seq<u8>, done: nat, count: nat)
    requires offset + |input| <= |image| && done + count <= |input|
    ensures Overlay(Overlay(image, offset, input[..done]), offset + done, input[done..][..count])
            == Overlay(image, offset, input[..done + count])
  {
    assert input[done..][..count] == input[done..done + count];
    OverlayJoin(image, offset, input[..done], input[done..done + count]);
    assert input[..done] + input[done..done + count] == input[..done + count];
  }

  // The sectors a request reaches into.
  ghost predicate Touched(offset: nat, count: nat, S: nat, lo: nat, hi: nat) {
    offset < lo + S && lo <= offset && hi < offset + count + S
  }

  // A sector rewritten in part is a write of that part.
  lemma {:induction false} WholeSectorWrite(image: seq<u8>, base: nat, sector: seq<u8>, within: nat, bytes: seq<u8>,
                                            at: nat)
    requires base + |sector| <= |image| && sector == image[base..base + |sector|]
    requires within + |bytes| <= |sector| && at == base + within
    ensures Overlay(image, base, Overlay(sector, within, bytes)) == Overlay(image, at, bytes)
  {
    var whole, part := Overlay(image, base, Overlay(sector, within, bytes)), Overlay(image, at, bytes);
    forall i | 0 <= i < |image| ensures whole[i] == part[i] {
      if base <= i < base + |sector| {
        var k := i - base;
        assert whole[i] == whole[base..base + |sector|][k] == Overlay(sector, within, bytes)[k];
        if within <= k < within + |bytes| {
          assert part[i] == part[at..at + |bytes|][k - within];
          assert Overlay(sector, within, bytes)[k]
                 == Overlay(sector, within, bytes)[within..within + |bytes|][k - within];
        }
      }
    }
  }
}
