/** The log file: record framing, the scan that opens it, and the file object that appends and resets. */
module WalLog {
  import opened Wrappers
  import opened Bytes
  import opened WalCodec

  const WAL_VERSION: u32 := 1
  const WAL_HEADER_BYTES := 12
  const DEFAULT_CHECKPOINT_BYTES := 64 * 1024 * 1024

  /** The signature VECWAL and two zero bytes. */
  const WAL_MAGIC: seq<byte> := [0x56, 0x45, 0x43, 0x57, 0x41, 0x4C, 0, 0]

  function Header(): (h: seq<byte>)
    ensures |h| == WAL_HEADER_BYTES
  {
    WAL_MAGIC + Le(WAL_VERSION, 4)
  }

  function FrameBody(body: seq<byte>): (f: seq<byte>)
    ensures |f| == |body| + 12
  {
    Le(|body|, 4) + (body + Le(Checksum(body), 8))
  }

  function Frame(sequence: u64, op: WalOperation): (f: seq<byte>)
    ensures |f| == |Body(sequence, op)| + 12
  {
    FrameBody(Body(sequence, op))
  }

  /** Operations the log accepts: preparation succeeds and the sequence number still fits the size limit. */
  predicate Appendable(op: WalOperation) {
    Loggable(op) && |EncodeOperation(op)| + 8 <= MAX_WAL_RECORD_BYTES
  }

  /* ----- Opening ----- */

  datatype FrameRead = End | Torn | Bad | Whole(body: seq<byte>, rest: seq<byte>)

  /** Read one frame; a record cut short anywhere is torn, never corrupt. */
  function ReadFrame(b: seq<byte>): (r: FrameRead)
    ensures r.Whole? ==> |b| == |r.body| + 12 + |r.rest|
  {
    if b == [] then End
    else if |b| < 4 then Torn
    else
      var length := FromLe(b[..4]);
      if length < 9 || length > MAX_WAL_RECORD_BYTES then Bad
      else if |b| < 4 + length + 8 then Torn
      else
        var body := b[4..4 + length];
        if Checksum(body) != FromLe(b[4 + length..4 + length + 8]) then Bad
        else Whole(body, b[4 + length + 8..])
  }

  datatype ScanResult = Scanned(records: seq<RecoveryRecord>, length: nat) | ScanCorrupt

  predicate Follows(previous: Option<u64>, sequence: u64) {
    previous.Some? ==> previous.value + 1 == sequence
  }

  function Scan(b: seq<byte>, previous: Option<u64>): ScanResult
    decreases |b|
  {
    match ReadFrame(b)
    case End => Scanned([], 0)
    case Torn => Scanned([], 0)
    case Bad => ScanCorrupt
    case Whole(body, rest) =>
      match DecodeRecord(body)
      case Failure(_) => ScanCorrupt
      case Success(record) =>
        if !Follows(previous, record.sequence) then ScanCorrupt
        else
          match Scan(rest, Some(record.sequence))
          case ScanCorrupt => ScanCorrupt
          case Scanned(records, length) => Scanned([record] + records, |body| + 12 + length)
  }

  lemma ScanLength(b: seq<byte>, previous: Option<u64>)
    ensures Scan(b, previous).Scanned? ==> Scan(b, previous).length <= |b|
    decreases |b|
  {
    hide DecodeRecord, Follows;
    match ReadFrame(b)
    case Whole(body, rest) =>
      if DecodeRecord(body).Success? {
        ScanLength(rest, Some(DecodeRecord(body).value.sequence));
      }
    case _ =>
  }

  /** What opening a log file returns and what it leaves in the file. */
  datatype OpenResult = Opened(records: seq<RecoveryRecord>, disk: seq<byte>) | OpenCorrupt

  function OpenLog(disk: seq<byte>): OpenResult {
    if |disk| < WAL_HEADER_BYTES then Opened([], Header())
    else if disk[..8] != WAL_MAGIC || FromLe(disk[8..12]) != WAL_VERSION then OpenCorrupt
    else
      match Scan(disk[12..], None)
      case ScanCorrupt => OpenCorrupt
      case Scanned(records, length) =>
        ScanLength(disk[12..], None);
        Opened(records, disk[..12 + length])
  }

  /* ----- Frames written one after another ----- */

  function Frames(first: nat, ops: seq<WalOperation>): seq<byte>
    requires first + |ops| <= 0x1_0000_0000_0000_0000
    decreases |ops|
  {
    if ops == [] then [] else Frame(first, ops[0]) + Frames(first + 1, ops[1..])
  }

  function Records(first: nat, ops: seq<WalOperation>): (r: seq<RecoveryRecord>)
    requires first + |ops| <= 0x1_0000_0000_0000_0000
    ensures |r| == |ops|
  {
    seq(|ops|, i requires 0 <= i < |ops| => RecoveryRecord(first + i, ops[i]))
  }

  predicate AllAppendable(ops: seq<WalOperation>) {
    forall i | 0 <= i < |ops| :: Appendable(ops[i])
  }

  predicate AllWithinCaps(ops: seq<WalOperation>) {
    forall i | 0 <= i < |ops| :: WithinCaps(ops[i])
  }

  /** `tail` is what an unfinished append of some record leaves behind. */
  ghost predicate TornTail(tail: seq<byte>) {
    tail == [] || exists sequence, op :: TornFrame(tail, sequence, op)
  }

  predicate TornFrame(tail: seq<byte>, sequence: u64, op: WalOperation) {
    Appendable(op) && tail < Frame(sequence, op)
  }

  lemma Slices(x: seq<byte>, y: seq<byte>, z: seq<byte>, rest: seq<byte>)
    ensures var b := x + (y + z) + rest;
      && b[..|x|] == x
      && b[|x|..|x| + |y|] == y
      && b[|x| + |y|..|x| + |y| + |z|] == z
      && b[|x| + |y| + |z|..] == rest
  {
  }

  lemma FrameParts(body: seq<byte>, rest: seq<byte>)
    ensures var b := FrameBody(body) + rest;
      && b[..4] == Le(|body|, 4)
      && b[4..4 + |body|] == body
      && b[4 + |body|..4 + |body| + 8] == Le(Checksum(body), 8)
      && b[4 + |body| + 8..] == rest
  {
    hide Le, Checksum;
    Slices(Le(|body|, 4), body, Le(Checksum(body), 8), rest);
  }

  lemma ReadFrameWhole(body: seq<byte>, rest: seq<byte>)
    requires 9 <= |body| <= MAX_WAL_RECORD_BYTES
    ensures ReadFrame(FrameBody(body) + rest) == Whole(body, rest)
  {
    FrameParts(body, rest);
    Pow256Values();
    FromLeLe(|body|, 4);
    FromLeLe(Checksum(body), 8);
  }

  lemma ReadFrameTorn(tail: seq<byte>)
    requires TornTail(tail)
    ensures ReadFrame(tail).End? || ReadFrame(tail).Torn?
  {
    if tail != [] && |tail| >= 4 {
      var sequence, op :| TornFrame(tail, sequence, op);
      var body := Body(sequence, op);
      FrameParts(body, []);
      assert FrameBody(body) + [] == FrameBody(body);
      assert tail[..4] == FrameBody(body)[..4];
      Pow256Values();
      FromLeLe(|body|, 4);
    }
  }

  lemma FramesNext(first: nat, ops: seq<WalOperation>, tail: seq<byte>)
    requires ops != [] && first + |ops| <= 0x1_0000_0000_0000_0000
    ensures Frames(first, ops) + tail == Frame(first, ops[0]) + (Frames(first + 1, ops[1..]) + tail)
  {
    Assoc(Frame(first, ops[0]), Frames(first + 1, ops[1..]), tail);
  }

  lemma RecordsNext(first: nat, ops: seq<WalOperation>)
    requires ops != [] && first + |ops| <= 0x1_0000_0000_0000_0000
    ensures Records(first, ops) == [RecoveryRecord(first, ops[0])] + Records(first + 1, ops[1..])
  {
  }

  lemma CapsSplit(ops: seq<WalOperation>)
    requires ops != []
    ensures AllWithinCaps(ops) <==> WithinCaps(ops[0]) && AllWithinCaps(ops[1..])
  {
    assert forall i | 1 <= i < |ops| :: ops[i] == ops[1..][i - 1];
  }

  lemma NoRecords(first: nat, ops: seq<WalOperation>)
    requires ops == [] && first <= 0x1_0000_0000_0000_0000
    ensures AllWithinCaps(ops) && Records(first, ops) == []
  {
  }

  lemma ScanNext(first: nat, op: WalOperation, rest: seq<byte>, previous: Option<u64>)
    requires first < 0x1_0000_0000_0000_0000 && Appendable(op)
    requires previous.Some? ==> previous.value + 1 == first
    ensures Scan(Frame(first, op) + rest, previous) ==
            if !WithinCaps(op) then ScanCorrupt
            else
              match Scan(rest, Some(first))
              case ScanCorrupt => ScanCorrupt
              case Scanned(records, length) =>
                Scanned([RecoveryRecord(first, op)] + records, |Frame(first, op)| + length)
  {
    hide FrameBody, Body, ReadFrame, DecodeRecord, WithinCaps, EncodeOperation;
    ReadFrameWhole(Body(first, op), rest);
    DecodeEncodedRecord(first, op);
  }

  /** Scanning consecutive frames and a torn tail finds exactly those records, in order, provided
      the reader's caps hold for every one of them; one record over a cap makes the scan fail. */
  lemma {:induction false} ScanFrames(
      first: nat, ops: seq<WalOperation>, tail: seq<byte>, previous: Option<u64>)
    requires first + |ops| <= 0x1_0000_0000_0000_0000
    requires AllAppendable(ops) && TornTail(tail)
    requires previous.Some? ==> previous.value + 1 == first
    ensures Scan(Frames(first, ops) + tail, previous) ==
            if AllWithinCaps(ops) then Scanned(Records(first, ops), |Frames(first, ops)|) else ScanCorrupt
    decreases |ops|
  {
    hide Scan, Frame, Appendable, WithinCaps, AllWithinCaps, Records, TornTail;
    if ops == [] {
      assert Frames(first, ops) + tail == tail;
      ScanTorn(tail, previous);
      NoRecords(first, ops);
    } else {
      FramesNext(first, ops, tail);
      ScanNext(first, ops[0], Frames(first + 1, ops[1..]) + tail, previous);
      CapsSplit(ops);
      RecordsNext(first, ops);
      ScanFrames(first + 1, ops[1..], tail, Some(first));
    }
  }

  lemma ScanTorn(tail: seq<byte>, previous: Option<u64>)
    requires TornTail(tail)
    ensures Scan(tail, previous) == Scanned([], 0)
  {
    hide ReadFrame, TornTail;
    ReadFrameTorn(tail);
  }

  lemma HeaderParts(rest: seq<byte>)
    ensures (Header() + rest)[..8] == WAL_MAGIC
    ensures FromLe((Header() + rest)[8..12]) == WAL_VERSION
    ensures (Header() + rest)[12..] == rest
  {
    Pow256Values();
    FromLeLe(WAL_VERSION, 4);
    assert (Header() + rest)[8..12] == Le(WAL_VERSION, 4);
  }

  /** Opening a log that this code wrote, however its last append ended, keeps exactly the whole
      records and cuts the tail off; it fails exactly when a whole record exceeds a reader cap. */
  lemma OpenWrittenLog(first: nat, ops: seq<WalOperation>, tail: seq<byte>)
    requires first + |ops| <= 0x1_0000_0000_0000_0000
    requires AllAppendable(ops) && TornTail(tail)
    ensures OpenLog(Header() + (Frames(first, ops) + tail)) ==
            if AllWithinCaps(ops) then Opened(Records(first, ops), Header() + Frames(first, ops))
            else OpenCorrupt
  {
    hide Header, Frames, Scan, Records, AllWithinCaps;
    HeaderParts(Frames(first, ops) + tail);
    ScanFrames(first, ops, tail, None);
    assert (Header() + (Frames(first, ops) + tail))[..12 + |Frames(first, ops)|] ==
           Header() + Frames(first, ops);
  }

  /* ----- Cutting the file at an arbitrary byte ----- */

  /** How many whole frames fit in the first `n` bytes. */
  function Contained(first: nat, ops: seq<WalOperation>, n: nat): (k: nat)
    requires first + |ops| <= 0x1_0000_0000_0000_0000
    ensures k <= |ops|
    decreases |ops|
  {
    if ops == [] || |Frame(first, ops[0])| > n then 0
    else 1 + Contained(first + 1, ops[1..], n - |Frame(first, ops[0])|)
  }

  lemma FramesFirst(first: nat, ops: seq<WalOperation>, k: nat)
    requires 0 < k <= |ops| && first + |ops| <= 0x1_0000_0000_0000_0000
    ensures Frames(first, ops[..k]) == Frame(first, ops[0]) + Frames(first + 1, ops[1..][..k - 1])
  {
    hide Frame;
    assert ops[..k][1..] == ops[1..][..k - 1];
  }

  lemma CutAfter(head: seq<byte>, rest: seq<byte>, n: nat)
    requires |head| <= n <= |head| + |rest|
    ensures (head + rest)[..n] == head + rest[..n - |head|]
  {
  }

  /** `tail` completes the first `k` frames to the first `n` bytes, and the next frame does not fit. */
  ghost predicate IsCut(first: nat, ops: seq<WalOperation>, n: nat, k: nat, tail: seq<byte>)
    requires first + |ops| <= 0x1_0000_0000_0000_0000 && n <= |Frames(first, ops)|
  {
    && k <= |ops|
    && TornTail(tail)
    && Frames(first, ops)[..n] == Frames(first, ops[..k]) + tail
    && |Frames(first, ops[..k])| <= n
    && (k < |ops| ==> |Frames(first, ops[..k + 1])| > n)
  }

  lemma CutInFirst(first: nat, ops: seq<WalOperation>, n: nat)
    requires ops != [] && first + |ops| <= 0x1_0000_0000_0000_0000
    requires Appendable(ops[0]) && n < |Frame(first, ops[0])|
    ensures n <= |Frames(first, ops)| && IsCut(first, ops, n, 0, Frame(first, ops[0])[..n])
  {
    hide Frame, Appendable;
    var tail := Frame(first, ops[0])[..n];
    assert Frames(first, ops)[..n] == tail;
    assert Frames(first, ops[..0]) + tail == tail;
    assert TornFrame(tail, first, ops[0]);
    FramesFirst(first, ops, 1);
  }

  lemma CutLater(first: nat, ops: seq<WalOperation>, n: nat, k: nat, tail: seq<byte>)
    requires ops != [] && first + |ops| <= 0x1_0000_0000_0000_0000
    requires |Frame(first, ops[0])| <= n <= |Frames(first, ops)|
    requires IsCut(first + 1, ops[1..], n - |Frame(first, ops[0])|, k, tail)
    ensures IsCut(first, ops, n, k + 1, tail)
  {
    hide Frame, Appendable, TornTail;
    var head, rest := Frame(first, ops[0]), Frames(first + 1, ops[1..]);
    CutAfter(head, rest, n);
    FramesFirst(first, ops, k + 1);
    Assoc(head, Frames(first + 1, ops[1..][..k]), tail);
    if k + 1 < |ops| {
      FramesFirst(first, ops, k + 2);
    }
  }

  /** The cut keeps the whole frames before it and leaves a torn tail. */
  lemma {:induction false} CutFrames(first: nat, ops: seq<WalOperation>, n: nat) returns (tail: seq<byte>)
    requires first + |ops| <= 0x1_0000_0000_0000_0000
    requires AllAppendable(ops) && n <= |Frames(first, ops)|
    ensures IsCut(first, ops, n, Contained(first, ops, n), tail)
    decreases |ops|
  {
    hide Frame, Appendable, IsCut, Frames, Contained;
    if ops == [] {
      tail := [];
      NoFrames(first);
    } else if |Frame(first, ops[0])| > n {
      tail := Frame(first, ops[0])[..n];
      FramesStep(first, ops, n);
      CutInFirst(first, ops, n);
    } else {
      FramesStep(first, ops, n);
      var rest := n - |Frame(first, ops[0])|;
      tail := CutFrames(first + 1, ops[1..], rest);
      CutLater(first, ops, n, Contained(first + 1, ops[1..], rest), tail);
    }
  }

  lemma FramesStep(first: nat, ops: seq<WalOperation>, n: nat)
    requires ops != [] && first + |ops| <= 0x1_0000_0000_0000_0000
    ensures |Frames(first, ops)| == |Frame(first, ops[0])| + |Frames(first + 1, ops[1..])|
    ensures Contained(first, ops, n) ==
            if |Frame(first, ops[0])| > n then 0
            else 1 + Contained(first + 1, ops[1..], n - |Frame(first, ops[0])|)
  {
    hide Frame;
  }

  lemma NoFrames(first: nat)
    requires first <= 0x1_0000_0000_0000_0000
    ensures Frames(first, []) == [] && Contained(first, [], 0) == 0 && IsCut(first, [], 0, 0, [])
  {
    assert Frames(first, []) == [];
  }

  lemma ReopenIsStable(first: nat, ops: seq<WalOperation>)
    requires first + |ops| <= 0x1_0000_0000_0000_0000
    requires AllAppendable(ops) && AllWithinCaps(ops)
    ensures OpenLog(Header() + Frames(first, ops)) ==
            Opened(Records(first, ops), Header() + Frames(first, ops))
  {
    hide OpenLog, Frames, Header;
    OpenWrittenLog(first, ops, []);
    assert Frames(first, ops) + [] == Frames(first, ops);
  }

  lemma PrefixWithinCaps(ops: seq<WalOperation>, k: nat)
    requires k <= |ops| && AllAppendable(ops)
    ensures AllAppendable(ops[..k])
    ensures AllWithinCaps(ops) ==> AllWithinCaps(ops[..k])
  {
  }

  lemma OpenShort(first: nat, ops: seq<WalOperation>, n: nat)
    requires first + |ops| <= 0x1_0000_0000_0000_0000 && n < WAL_HEADER_BYTES
    ensures OpenLog((Header() + Frames(first, ops))[..n]) == Opened([], Header())
    ensures Header() + Frames(first, ops[..0]) == Header() && Records(first, ops[..0]) == []
  {
    hide Header;
    assert Frames(first, ops[..0]) == [];
  }

  lemma OpenCut(first: nat, ops: seq<WalOperation>, n: nat)
    requires first + |ops| <= 0x1_0000_0000_0000_0000
    requires AllAppendable(ops) && AllWithinCaps(ops) && n <= |Frames(first, ops)|
    ensures var kept := ops[..Contained(first, ops, n)];
      OpenLog((Header() + Frames(first, ops))[..12 + n]) ==
      Opened(Records(first, kept), Header() + Frames(first, kept))
  {
    hide Header, Frames, Contained, OpenLog, Records, AllAppendable, AllWithinCaps;
    var k := Contained(first, ops, n);
    PrefixWithinCaps(ops, k);
    var tail := CutFrames(first, ops, n);
    CutAfter(Header(), Frames(first, ops), 12 + n);
    OpenWrittenLog(first, ops[..k], tail);
  }

  /** Prefix safety: whatever byte a written log is cut at, opening it returns exactly the records
      that lie wholly before the cut, cuts the file to their end, and opening again changes nothing. */
  lemma PrefixSafety(first: nat, ops: seq<WalOperation>, n: nat)
    requires first + |ops| <= 0x1_0000_0000_0000_0000
    requires AllAppendable(ops) && AllWithinCaps(ops)
    requires n <= WAL_HEADER_BYTES + |Frames(first, ops)|
    ensures var cut := (Header() + Frames(first, ops))[..n];
      var k := if n < WAL_HEADER_BYTES then 0 else Contained(first, ops, n - WAL_HEADER_BYTES);
      && OpenLog(cut) == Opened(Records(first, ops[..k]), Header() + Frames(first, ops[..k]))
      && OpenLog(OpenLog(cut).disk) == OpenLog(cut)
  {
    hide OpenLog, Frames, Header, Contained, Records;
    if n < WAL_HEADER_BYTES {
      OpenShort(first, ops, n);
      PrefixWithinCaps(ops, 0);
      ReopenIsStable(first, ops[..0]);
    } else {
      OpenCut(first, ops, n - WAL_HEADER_BYTES);
      var k := Contained(first, ops, n - WAL_HEADER_BYTES);
      PrefixWithinCaps(ops, k);
      ReopenIsStable(first, ops[..k]);
    }
  }

  lemma {:induction false} FramesAppend(first: nat, ops: seq<WalOperation>, op: WalOperation)
    requires first + |ops| + 1 <= 0x1_0000_0000_0000_0000
    ensures Frames(first, ops + [op]) == Frames(first, ops) + Frame(first + |ops|, op)
    decreases |ops|
  {
    hide Frame;
    if ops == [] {
      assert [op][1..] == [] && ops + [op] == [op];
      assert Frames(first, [op]) == Frame(first, op) + [];
    } else {
      assert (ops + [op])[1..] == ops[1..] + [op];
      FramesAppend(first + 1, ops[1..], op);
      Assoc(Frame(first, ops[0]), Frames(first + 1, ops[1..]), Frame(first + |ops|, op));
    }
  }
}
