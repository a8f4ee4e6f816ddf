/** The log file object: opening scans the bytes in a loop, appends and resets change the file in
    place, and any failed write disables the object until the database is reopened. */
module WalFile {
  import opened Wrappers
  import opened Bytes
  import opened WalCodec
  import opened WalLog
  import WalBuffers

  /** How far an append got: `written` bytes reached the file; `ok` says that every call succeeded. */
  datatype AppendIo = AppendIo(written: nat, ok: bool)

  /** How far a reset got: not even truncated, or truncated with some header bytes written. */
  datatype ResetIo = Untouched | Rewritten(written: nat, ok: bool)

  predicate PossibleAppend(io: AppendIo, record: seq<byte>) {
    io.written <= |record| && (io.ok ==> io.written == |record|)
  }

  predicate PossibleReset(io: ResetIo) {
    io.Rewritten? ==> io.written <= WAL_HEADER_BYTES && (io.ok ==> io.written == WAL_HEADER_BYTES)
  }

  /** The file after a reset that got that far. */
  function AfterReset(disk: seq<byte>, io: ResetIo): seq<byte>
    requires PossibleReset(io)
  {
    match io
    case Untouched => disk
    case Rewritten(written, _) => Header()[..written]
  }

  /** What the scan means once `done` records and `length` bytes were accepted. */
  ghost function ContinueScan(done: seq<RecoveryRecord>, length: nat, rest: ScanResult): ScanResult {
    match rest
    case ScanCorrupt => ScanCorrupt
    case Scanned(records, n) => Scanned(done + records, length + n)
  }

  lemma ContinueScanStep(done: seq<RecoveryRecord>, length: nat, record: RecoveryRecord, n: nat, rest: ScanResult)
    ensures ContinueScan(done, length, ContinueScan([record], n, rest)) ==
            ContinueScan(done + [record], length + n, rest)
  {
    if rest.Scanned? {
      assert done + ([record] + rest.records) == done + [record] + rest.records;
    }
  }

  /** Walk the records after the header; stop at the end of the file or at a torn record. */
  method ScanRecords(b: seq<byte>) returns (r: ScanResult)
    ensures r == Scan(b, None)
  {
    hide ReadFrame, DecodeRecord;
    var records: seq<RecoveryRecord> := [];
    var position := 0;
    var previous: Option<u64> := None;
    assert b[0..] == b;
    EmptyScan(Scan(b, None));
    while true
      invariant position <= |b|
      invariant Scan(b, None) == ContinueScan(records, position, Scan(b[position..], previous))
      decreases |b| - position
    {
      match ReadFrame(b[position..]) {
        case End =>
          assert records + [] == records;
          return Scanned(records, position);
        case Torn =>
          assert records + [] == records;
          return Scanned(records, position);
        case Bad =>
          return ScanCorrupt;
        case Whole(body, rest) =>
          WholeConsumes(b[position..]);
          var decoded := WalBuffers.RunDecoder(body);
          if decoded.Failure? {
            return ScanCorrupt;
          }
          var record := decoded.value;
          if previous.Some? && previous.value + 1 != record.sequence {
            return ScanCorrupt;
          }
          assert b[position + (|body| + 12)..] == rest;
          ContinueScanStep(records, position, record, |body| + 12, Scan(rest, Some(record.sequence)));
          records := records + [record];
          previous := Some(record.sequence);
          position := position + (|body| + 12);
      }
    }
  }

  lemma EmptyScan(rest: ScanResult)
    ensures ContinueScan([], 0, rest) == rest
  {
    if rest.Scanned? {
      assert [] + rest.records == rest.records;
    }
  }

  lemma WholeConsumes(b: seq<byte>)
    requires ReadFrame(b).Whole?
    ensures |ReadFrame(b).body| + 12 <= |b| && ReadFrame(b).rest == b[|ReadFrame(b).body| + 12..]
  {
  }

  class WalFile {
    var disk: seq<byte>
    var bytes: nat
    var failed: bool

    constructor (disk: seq<byte>)
      ensures this.disk == disk && bytes == |disk| && !failed
    {
      this.disk := disk;
      bytes := |disk|;
      failed := false;
    }

    /** Append and synchronize one record; the result says whether the log wants a checkpoint. */
    method Append(sequence: u64, operation: seq<byte>, io: AppendIo) returns (r: Result<bool>)
      requires PossibleAppend(io, FrameBody(Le(sequence, 8) + operation))
      modifies this
      ensures
        var body := Le(sequence, 8) + operation;
        if |body| > MAX_WAL_RECORD_BYTES || old(failed) then
          r == Failure(StorageIo) && disk == old(disk) && bytes == old(bytes) && failed == old(failed)
        else if io.ok then
          && disk == old(disk) + FrameBody(body) && !failed
          && bytes == old(bytes) + |FrameBody(body)|
          && r == Success(bytes >= DEFAULT_CHECKPOINT_BYTES)
        else
          && disk == old(disk) + FrameBody(body)[..io.written] && failed
          && bytes == old(bytes) && r == Failure(StorageIo)
    {
      hide Le, Checksum;
      var bodyLength := |operation| + 8;
      if bodyLength > MAX_WAL_RECORD_BYTES {
        return Failure(StorageIo);
      }
      var body := Le(sequence, 8) + operation;
      var record := Le(bodyLength, 4) + (body + Le(Checksum(body), 8));
      if failed {
        return Failure(StorageIo);
      }
      disk := disk + record[..io.written];
      if !io.ok {
        failed := true;
        return Failure(StorageIo);
      }
      assert record[..io.written] == record;
      bytes := bytes + |record|;
      return Success(bytes >= DEFAULT_CHECKPOINT_BYTES);
    }

    /** After the snapshot was saved, start the log afresh. A reset cut short disables the file. */
    method ResetAfterCheckpoint(io: ResetIo) returns (r: Result<()>)
      requires PossibleReset(io)
      modifies this
      ensures
        if old(failed) then r == Failure(StorageIo) && disk == old(disk) && bytes == old(bytes) && failed
        else
          && disk == AfterReset(old(disk), io)
          && if io.Rewritten? && io.ok
             then r.Success? && disk == Header() && bytes == WAL_HEADER_BYTES && !failed
             else r == Failure(StorageIo) && failed && bytes == old(bytes)
    {
      if failed {
        return Failure(StorageIo);
      }
      match io {
        case Untouched =>
          failed := true;
          return Failure(StorageIo);
        case Rewritten(written, ok) =>
          disk := [];
          disk := disk + Header()[..written];
          if !ok {
            failed := true;
            return Failure(StorageIo);
          }
          assert Header()[..written] == Header();
          bytes := WAL_HEADER_BYTES;
          return Success(());
      }
    }
  }

  /** Open a log file: a file without a whole header is started afresh, a torn tail is cut off, and
      anything else that does not read as a log is corrupt. */
  method OpenWal(disk: seq<byte>) returns (r: Result<(WalFile, seq<RecoveryRecord>)>)
    ensures
      match OpenLog(disk)
      case OpenCorrupt => r == Failure(CorruptWal)
      case Opened(records, kept) =>
        && r.Success? && fresh(r.value.0)
        && r.value.0.disk == kept && r.value.0.bytes == |kept| && !r.value.0.failed
        && r.value.1 == records
  {
    hide Scan, Header;
    if |disk| < WAL_HEADER_BYTES {
      var file := new WalFile(Header());
      return Success((file, []));
    }
    if disk[..8] != WAL_MAGIC {
      return Failure(CorruptWal);
    }
    if FromLe(disk[8..12]) != WAL_VERSION {
      return Failure(CorruptWal);
    }
    var scanned := ScanRecords(disk[12..]);
    ScanLength(disk[12..], None);
    match scanned {
      case ScanCorrupt =>
        return Failure(CorruptWal);
      case Scanned(records, length) =>
        var file := new WalFile(disk[..12 + length]);
        return Success((file, records));
    }
  }
}
