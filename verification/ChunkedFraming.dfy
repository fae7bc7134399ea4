/** The aws-chunked wire format: header grammar, signature chain and the encoder it inverts. */
module ChunkedFraming {
  import opened Bytes

  const MAX_HEADER_BYTES := 8192
  const MAX_CHUNK_BYTES := 0x4000000
  const SPOOL_BLOCK := 32768

  /** ";chunk-signature=" */
  const MARKER: seq<byte> :=
    [59, 99, 104, 117, 110, 107, 45, 115, 105, 103, 110, 97, 116, 117, 114, 101, 61]

  /** A 32-byte HMAC-SHA256 value. */
  type Sig = s: seq<byte> | |s| == 32 witness seq(32, _ => 0)

  /** Signed verifies the chain; Unsigned is the unsigned-trailer mode; Anonymous has no signing context. */
  datatype Mode = Signed | Unsigned | Anonymous

  /** What can happen to a block while its chunk is staged. */
  datatype BlockFault = NoFault | CanceledBefore | WriteFailed

  /**
   * What goes wrong around the decoder, by chunk and block: the request context is seen cancelled at the head
   * of a pass, a chunk's temporary file cannot be created, secured or rewound, a block of it is not staged,
   * and reading it back fails at a block.
   */
  datatype Faults = Faults(
    canceled: nat -> bool,
    unusable: nat -> bool,
    block: (nat, nat) -> BlockFault,
    unwound: nat -> bool,
    readBack: nat -> Option<nat>)

  const NO_FAULTS := Faults(k => false, k => false, (k, b) => NoFault, k => false, k => None)

  /** Nothing goes wrong before a verified chunk is copied to the destination. */
  ghost predicate StagesCleanly(f: Faults) {
    && (forall k: nat :: !f.canceled(k) && !f.unusable(k) && !f.unwound(k))
    && (forall k: nat, b: nat :: f.block(k, b) == NoFault)
  }

  ghost predicate ReadsBack(f: Faults) {
    forall k: nat :: f.readBack(k) == None
  }

  /**
   * One decoding request. mac(previous, data) stands for the HMAC over the string to sign, which
   * covers the previous signature and the digest of data. decodedLength is -1 when not declared and
   * room is what the destination spool accepts.
   */
  datatype Request = Request(
    mode: Mode, mac: (Sig, seq<byte>) -> Sig, decodedLength: int, trailers: bool, room: nat, faults: Faults)

  /** SpoolFailed: the destination refused a block. StageFailed, ReadBackFailed: the chunk's temporary file failed. */
  datatype Error =
    | IncompleteBody | BadFraming | SignatureMismatch | BadLength | TrailingData | Canceled
    | StageFailed | ReadBackFailed | SpoolFailed

  datatype Header = Header(size: nat, supplied: seq<byte>)

  // ---- decoding one header line ----

  /** Splits off the text up to and including the first LF, as readAWSLine does. */
  datatype LineResult = Line(text: seq<byte>, rest: seq<byte>) | NoLine(error: Error)

  function TakeLine(w: seq<byte>): LineResult {
    var i := FirstIndex(w, [LF], 0);
    if i < 0 then NoLine(if |w| > MAX_HEADER_BYTES then BadFraming else IncompleteBody)
    else if i + 1 > MAX_HEADER_BYTES then NoLine(BadFraming)
    else Line(w[..i + 1], w[i + 1..])
  }

  function ParseSize(text: seq<byte>, supplied: seq<byte>): Option<Header> {
    if CanonicalHex(text) then Some(Header(HexNumber(text), supplied)) else None
  }

  /** The text after the marker must be exactly one 64-digit signature. */
  function SignatureText(line: seq<byte>, i: nat): Option<seq<byte>>
    requires MatchAt(line, MARKER, i)
  {
    var supplied := line[i + |MARKER|..];
    if FirstIndex(supplied, [SEMICOLON], 0) >= 0 then None
    else if |supplied| == 64 && AllHex(supplied) then Some(supplied)
    else None
  }

  function ParseHeader(mode: Mode, line: seq<byte>): (r: Option<Header>)
    ensures mode.Signed? && r.Some? ==> |r.value.supplied| == 64 && AllHex(r.value.supplied)
  {
    var i := FirstIndex(line, MARKER, 0);
    if mode.Signed? || (mode.Anonymous? && i >= 1) then
      if i < 1 then None
      else
        match SignatureText(line, i)
        case None => None
        case Some(supplied) => ParseSize(line[..i], supplied)
    else if FirstIndex(line, [SEMICOLON], 0) >= 0 then None
    else ParseSize(line, [])
  }

  /** The signature the chain continues with when supplied authenticates data. */
  function Authenticate(r: Request, prev: Sig, supplied: seq<byte>, data: seq<byte>): Option<Sig>
    requires r.mode.Signed? ==> |supplied| == 64 && AllHex(supplied)
  {
    if !r.mode.Signed? then Some(prev)
    else if UnhexBytes(supplied) == r.mac(prev, data) then Some(r.mac(prev, data))
    else None
  }

  // ---- decoding a body ----

  datatype Event =
    | Fail(error: Error)
    | End(last: Sig)
    | Chunk(data: seq<byte>, next: Sig, rest: seq<byte>)

  function FinalChunk(r: Request, prev: Sig, supplied: seq<byte>, rest: seq<byte>, total: nat): Event
    requires r.mode.Signed? ==> |supplied| == 64 && AllHex(supplied)
  {
    match Authenticate(r, prev, supplied, [])
    case None => Fail(SignatureMismatch)
    case Some(last) =>
      if r.decodedLength >= 0 && total < r.decodedLength then Fail(IncompleteBody)
      else if r.decodedLength >= 0 && total > r.decodedLength then Fail(BadLength)
      else if r.trailers || rest == [] || rest == CRLF then End(last)
      else Fail(TrailingData)
  }

  predicate EndsRun(e: Error) { e == SpoolFailed || e == ReadBackFailed }

  /** Why a chunk k with left bytes still to stage, of which avail are there, cannot be staged from block b on. */
  function StageFault(f: Faults, k: nat, b: nat, left: nat, avail: nat): (e: Option<Error>)
    ensures e.None? ==> left <= avail
    ensures e.Some? ==> !EndsRun(e.value)
    decreases left
  {
    var n := Min(SPOOL_BLOCK, left);
    if left == 0 then None
    else if f.block(k, b) == CanceledBefore then Some(Canceled)
    else if avail > 0 && f.block(k, b) == WriteFailed then Some(StageFailed)
    else if avail < n then Some(IncompleteBody)
    else StageFault(f, k, b + 1, left - n, avail - n)
  }

  /** A staged chunk has to end in CRLF and to carry the next signature of the chain. */
  function StagedChunk(r: Request, prev: Sig, h: Header, rest: seq<byte>, done: nat): Event
    requires r.mode.Signed? ==> |h.supplied| == 64 && AllHex(h.supplied)
    requires h.size <= |rest|
  {
    if !StartsWith(rest[h.size..], CRLF) then Fail(BadFraming)
    else
      match Authenticate(r, prev, h.supplied, rest[..h.size])
      case None => Fail(SignatureMismatch)
      case Some(next) =>
        if r.faults.unwound(done) then Fail(StageFailed) else Chunk(rest[..h.size], next, rest[h.size + 2..])
  }

  function DataChunk(r: Request, prev: Sig, h: Header, rest: seq<byte>, total: nat, done: nat): (e: Event)
    requires r.mode.Signed? ==> |h.supplied| == 64 && AllHex(h.supplied)
    ensures e.Chunk? ==> |e.rest| < |rest|
    ensures e.Fail? ==> !EndsRun(e.error)
  {
    if h.size > MAX_CHUNK_BYTES then Fail(BadLength)
    else if r.decodedLength >= 0 && h.size > r.decodedLength - total then Fail(BadLength)
    else if r.faults.unusable(done) then Fail(StageFailed)
    else
      match StageFault(r.faults, done, 0, h.size, |rest|)
      case Some(error) => Fail(error)
      case None => StagedChunk(r, prev, h, rest, done)
  }

  /** What the decode loop does in one iteration, starting with done chunks and total bytes behind it. */
  function NextEvent(r: Request, prev: Sig, w: seq<byte>, total: nat, done: nat): (e: Event)
    ensures e.Chunk? ==> |e.rest| < |w|
    ensures e.Fail? ==> !EndsRun(e.error)
  {
    if r.faults.canceled(done) then Fail(Canceled)
    else
      match TakeLine(w)
      case NoLine(err) => Fail(err)
      case Line(text, rest) =>
        if |text| < 3 || text[|text| - 2..] != CRLF then Fail(BadFraming)
        else
          match ParseHeader(r.mode, text[..|text| - 2])
          case None => Fail(BadFraming)
          case Some(h) =>
            if h.size == 0 then FinalChunk(r, prev, h.supplied, rest, total)
            else DataChunk(r, prev, h, rest, total, done)
  }

  /** How far a verified chunk got, and what stopped it. */
  datatype Copied = Copied(written: seq<byte>, stop: Option<Error>)

  /**
   * A verified chunk reaches the destination block by block; reading a block back may fail, also the read
   * that would find the end, and a block that does not fit is refused whole.
   */
  function CopyOut(fault: Option<nat>, b: nat, room: nat, data: seq<byte>): (c: Copied)
    ensures |c.written| <= |data| && c.written == data[..|c.written|]
    ensures |c.written| <= room
    ensures c.stop.None? ==> c.written == data
    ensures c.stop.Some? ==> EndsRun(c.stop.value)
    decreases |data|
  {
    var n := Min(SPOOL_BLOCK, |data|);
    if fault == Some(b) then Copied([], Some(ReadBackFailed))
    else if n == 0 then Copied([], None)
    else if n > room then Copied([], Some(SpoolFailed))
    else
      var later := CopyOut(fault, b + 1, room - n, data[n..]);
      assert data[..n] + data[n..][..|later.written|] == data[..n + |later.written|];
      Copied(data[..n] + later.written, later.stop)
  }

  datatype Verdict = Accepted | Rejected(error: Error)

  /** chunks are the verified chunks in order, dst what reached the destination, total the count kept. */
  datatype Outcome = Outcome(
    chunks: seq<seq<byte>>, dst: seq<byte>, total: nat, final: Sig, verdict: Verdict)

  function Decode(r: Request, prev: Sig, w: seq<byte>, total: nat, done: nat): Outcome
    requires total <= r.room
    decreases |w|
  {
    match NextEvent(r, prev, w, total, done)
    case Fail(e) => Outcome([], [], 0, prev, Rejected(e))
    case End(last) => Outcome([], [], 0, last, Accepted)
    case Chunk(data, next, rest) =>
      var copied := CopyOut(r.faults.readBack(done), 0, r.room - total, data);
      if copied.stop.Some? then Outcome([data], copied.written, 0, next, Rejected(copied.stop.value))
      else
        var o := Decode(r, next, rest, total + |data|, done + 1);
        Outcome([data] + o.chunks, data + o.dst, |data| + o.total, o.final, o.verdict)
  }

  // ---- encoding ----

  function Concat(chunks: seq<seq<byte>>): seq<byte> {
    if chunks == [] then [] else chunks[0] + Concat(chunks[1..])
  }

  /** The signature after a list of chunks: each one signs its data and the signature before it. */
  function Chain(r: Request, prev: Sig, chunks: seq<seq<byte>>): Sig
    decreases |chunks|
  {
    if chunks == [] then prev else Chain(r, r.mac(prev, chunks[0]), chunks[1..])
  }

  function HeaderText(r: Request, prev: Sig, data: seq<byte>): seq<byte> {
    HexText(|data|) + MARKER + HexBytes(r.mac(prev, data))
  }

  function EncodeChunk(r: Request, prev: Sig, data: seq<byte>): seq<byte> {
    HeaderText(r, prev, data) + CRLF + data + CRLF
  }

  function EncodeChunks(r: Request, prev: Sig, chunks: seq<seq<byte>>): seq<byte>
    decreases |chunks|
  {
    if chunks == [] then []
    else EncodeChunk(r, prev, chunks[0]) + EncodeChunks(r, r.mac(prev, chunks[0]), chunks[1..])
  }

  /** A whole signed body: the chunks, then the signed zero-size chunk. */
  function EncodeBody(r: Request, prev: Sig, chunks: seq<seq<byte>>): seq<byte> {
    EncodeChunks(r, prev, chunks) + HeaderText(r, Chain(r, prev, chunks), []) + CRLF
  }

  predicate LegalChunks(chunks: seq<seq<byte>>) {
    forall i :: 0 <= i < |chunks| ==> 0 < |chunks[i]| <= MAX_CHUNK_BYTES
  }

  /** What may follow the last chunk: anything where trailers are read next, otherwise at most one CRLF. */
  predicate TailOk(r: Request, tail: seq<byte>) {
    !r.trailers ==> tail == [] || tail == [CR, LF]
  }

  /** w is the signed encoding of chunks with a proper tail, and the length matches. */
  ghost predicate Encodes(r: Request, seed: Sig, w: seq<byte>, chunks: seq<seq<byte>>, total: nat) {
    && LegalChunks(chunks)
    && StartsWith(w, EncodeBody(r, seed, chunks)) && TailOk(r, w[|EncodeBody(r, seed, chunks)|..])
    && (r.decodedLength >= 0 ==> total + |Concat(chunks)| == r.decodedLength)
  }
}
