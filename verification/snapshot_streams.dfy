/** Streams that keep a running checksum. The hash depends only on the bytes, not on how the device splits
    reads and writes. */
module SnapshotStreams {
  import opened Wrappers
  import opened Bytes
  import opened WalCodec

  /** How many bytes the device takes next: at least one, at most what is offered. */
  function Portion(wanted: nat, offered: nat): (n: nat)
    requires offered > 0
    ensures 1 <= n <= offered
  {
    if wanted < 1 then 1 else if wanted > offered then offered else wanted
  }

  /** The hash after some more bytes, one at a time. */
  method Update(hash: u64, bytes: seq<byte>) returns (after: u64)
    ensures after == FnvFrom(hash, bytes)
  {
    hide XorByte;
    after := hash;
    assert bytes[..0] == [];
    for i := 0 to |bytes|
      invariant after == FnvFrom(hash, bytes[..i])
    {
      assert bytes[..i + 1] == bytes[..i] + [bytes[i]];
      FnvConcat(hash, bytes[..i], [bytes[i]]);
      OneByte(after, bytes[i]);
      after := FnvStep(after, bytes[i]);
    }
    assert bytes[..|bytes|] == bytes;
  }

  lemma OneByte(hash: u64, b: byte)
    ensures FnvFrom(hash, [b]) == FnvStep(hash, b)
  {
    hide FnvStep;
    assert [b][1..] == [];
    assert FnvFrom(FnvStep(hash, b), []) == FnvStep(hash, b);
  }

  /** A writer; `device` decides how many bytes each call of the operating system takes. */
  class ChecksumWriter {
    const device: nat -> nat
    var written: seq<byte>
    var hash: u64
    var enabled: bool

    constructor (device: nat -> nat)
      ensures this.device == device && written == [] && hash == FNV_OFFSET_BASIS && enabled
    {
      this.device := device;
      written, hash, enabled := [], FNV_OFFSET_BASIS, true;
    }

    /** One call: a prefix is taken, and only that is hashed. */
    method Write(buffer: seq<byte>) returns (count: nat)
      requires buffer != []
      modifies this`written, this`hash
      ensures 1 <= count <= |buffer| && written == old(written) + buffer[..count]
      ensures hash == if enabled then FnvFrom(old(hash), buffer[..count]) else old(hash)
    {
      count := Portion(device(|written|), |buffer|);
      written := written + buffer[..count];
      if enabled {
        hash := Update(hash, buffer[..count]);
      }
    }

    /** All bytes, however many calls that takes. */
    method WriteAll(buffer: seq<byte>)
      modifies this`written, this`hash
      ensures written == old(written) + buffer
      ensures hash == if enabled then FnvFrom(old(hash), buffer) else old(hash)
    {
      hide FnvFrom;
      var done := 0;
      NothingHashed(hash);
      assert buffer[..0] == [];
      while done < |buffer|
        invariant done <= |buffer| && written == old(written) + buffer[..done]
        invariant hash == if enabled then FnvFrom(old(hash), buffer[..done]) else old(hash)
      {
        var count := Write(buffer[done..]);
        assert buffer[done..][..count] == buffer[done..done + count];
        assert buffer[..done + count] == buffer[..done] + buffer[done..done + count];
        FnvConcat(old(hash), buffer[..done], buffer[done..done + count]);
        done := done + count;
      }
      assert buffer[..done] == buffer;
    }

    /** The hash so far; what follows is not hashed. */
    method FinishHash() returns (h: u64)
      modifies this`enabled
      ensures h == hash && !enabled
    {
      enabled := false;
      h := hash;
    }
  }

  lemma NothingHashed(hash: u64)
    ensures FnvFrom(hash, []) == hash
  {
  }

  /** A reader over the bytes of a file. */
  class ChecksumReader {
    const device: nat -> nat
    const source: seq<byte>
    var offset: nat
    var hash: u64
    var enabled: bool

    ghost predicate Valid()
      reads this
    {
      offset <= |source| && (enabled ==> hash == Checksum(source[..offset]))
    }

    ghost function Rest(): seq<byte>
      requires Valid()
      reads this
    {
      source[offset..]
    }

    constructor (device: nat -> nat, source: seq<byte>)
      ensures Valid() && Rest() == source && enabled && this.source == source
    {
      this.device, this.source := device, source;
      offset, hash, enabled := 0, FNV_OFFSET_BASIS, true;
    }

    /** One call: some of the bytes that are left, none only at the end. */
    method Read(maximum: nat) returns (bytes: seq<byte>)
      requires Valid() && maximum > 0
      modifies this`offset, this`hash
      ensures Valid() && |bytes| <= maximum && bytes <= old(Rest()) && Rest() == old(Rest())[|bytes|..]
      ensures bytes == [] <==> old(Rest()) == []
    {
      hide Checksum, FnvFrom;
      if offset == |source| {
        return [];
      }
      var offered := if maximum < |source| - offset then maximum else |source| - offset;
      var count := Portion(device(offset), offered);
      bytes := source[offset..offset + count];
      DropTaken(source, offset, count);
      if enabled {
        hash := Update(hash, bytes);
        HashedFurther(source, offset, count);
      }
      offset := offset + count;
    }

    /** Exactly so many bytes, however many calls that takes, or an error if the file is shorter. */
    method ReadExact(length: nat) returns (r: Result<seq<byte>>)
      requires Valid()
      modifies this`offset, this`hash
      ensures Valid()
      ensures match Take(old(Rest()), length)
        case Corrupt => r == Failure(CorruptSnapshot)
        case Parsed(bytes, rest) => r == Success(bytes) && Rest() == rest
    {
      var buffer: seq<byte> := [];
      ghost var start := Rest();
      while |buffer| < length
        invariant Valid() && |buffer| <= length && buffer <= start && Rest() == start[|buffer|..]
        decreases length - |buffer|
      {
        ghost var before := Rest();
        var more := Read(length - |buffer|);
        if more == [] {
          return Failure(CorruptSnapshot);
        }
        assert start[..|buffer| + |more|] == buffer + more;
        buffer := buffer + more;
      }
      assert start == buffer + Rest();
      return Success(buffer);
    }

    method FinishHash() returns (h: u64)
      requires Valid() && enabled
      modifies this`enabled
      ensures Valid() && h == Checksum(source[..offset]) && !enabled
    {
      enabled := false;
      h := hash;
    }
  }

  lemma DropTaken(source: seq<byte>, offset: nat, count: nat)
    requires offset + count <= |source|
    ensures source[offset..offset + count] <= source[offset..]
    ensures source[offset..][count..] == source[offset + count..]
  {
  }

  lemma HashedFurther(source: seq<byte>, offset: nat, count: nat)
    requires offset + count <= |source|
    ensures FnvFrom(Checksum(source[..offset]), source[offset..offset + count]) == Checksum(source[..offset + count])
  {
    hide FnvFrom;
    assert source[..offset + count] == source[..offset] + source[offset..offset + count];
    FnvConcat(FNV_OFFSET_BASIS, source[..offset], source[offset..offset + count]);
  }
}
