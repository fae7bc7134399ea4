/** The bounded reader of a browser form upload, with the delimiter scanner beneath it. */
module PostWireReader {
  import opened Bytes
  import opened Integers
  import opened PostScanner
  import opened PostScannerTheorems
  import opened PostScannerAccepts

  datatype WireError = EntityTooLarge | IncompleteBody | Malformed | StreamingCanceled

  datatype Status = Fine | EndOfFile | Failed(error: WireError)

  /** What one read of the request body yields. */
  datatype Chunk = Chunk(data: seq<byte>, status: Status)

  const BUFFER := 32 * 1024

  /** The bytes are a form whose body holds nothing that closes it early or breaks its framing. */
  ghost predicate IsForm(b: seq<byte>, data: seq<byte>) {
    exists lines, body, pad, tail :: Form(b, data, lines, body, pad, tail) && Clean(b, body)
  }

  /** The bytes are the beginning of a form that has been opened and not closed. */
  ghost predicate IsOpenForm(b: seq<byte>, data: seq<byte>) {
    exists lines, u :: BreaksOff(b, data, lines, u)
  }

  /** What the k-th read of the body returns, given room for n bytes. */
  function ReadOf(body: (nat, nat) -> Chunk, k: nat, n: nat): Chunk { body(k, n) }

  /** What the reads of the body yielded, in order, given the room each had. */
  function Yielded(body: (nat, nat) -> Chunk, rooms: seq<nat>): seq<byte> {
    if rooms == [] then [] else Yielded(body, rooms[..|rooms| - 1]) + ReadOf(body, |rooms| - 1, rooms[|rooms| - 1]).data
  }

  lemma YieldedNext(body: (nat, nat) -> Chunk, rooms: seq<nat>, room: nat)
    ensures Yielded(body, rooms + [room]) == Yielded(body, rooms) + ReadOf(body, |rooms|, room).data
  {
    assert (rooms + [room])[..|rooms|] == rooms;
  }

  class WireReader {
    const boundary: seq<byte>
    const fileLimit: int

    /** The request body: what the k-th read returns, given room for that many bytes. */
    const body: (nat, nat) -> Chunk

    var calls: nat
    var read: int
    var limit: int
    var fileBytes: int
    var fileRecognized: bool
    var scanner: Scanner

    /** Every byte read so far, and the room each read had. */
    ghost var seen: seq<byte>
    ghost var rooms: seq<nat>

    ghost predicate Valid()
      reads this
    {
      && Boundary(boundary)
      && 0 <= fileLimit <= MAX_INT64
      && (forall k: nat, n: nat :: |ReadOf(body, k, n).data| <= n)
      && 0 <= fileBytes <= fileLimit
      && (!fileRecognized ==> limit == BEFORE_FILE)
      && (fileRecognized && !scanner.tooLarge ==> limit == fileLimit + FORM_OVERHEAD <= MAX_INT64)
      && 0 <= limit <= MAX_INT64
      && 0 <= read <= Max(limit, BEFORE_FILE) + 1
      && |rooms| == calls && seen == Yielded(body, rooms)
      && (!scanner.tooLarge ==> read == |seen| && scanner == Observe(boundary, INITIAL, seen))
    }

    constructor (body: (nat, nat) -> Chunk, boundary: seq<byte>, fileLimit: int)
      requires Boundary(boundary) && fileLimit <= MAX_INT64
      requires forall k: nat, n: nat :: |ReadOf(body, k, n).data| <= n
      ensures Valid() && seen == [] && fileBytes == 0 && !fileRecognized
      ensures this.boundary == boundary && this.fileLimit == Max(0, fileLimit)
    {
      this.body, this.boundary, this.fileLimit := body, boundary, if fileLimit < 0 then 0 else fileLimit;
      calls, read, limit, fileBytes, fileRecognized, scanner := 0, 0, BEFORE_FILE, 0, false, INITIAL;
      seen, rooms := [], [];
    }

    /** The last read met the end of the body, within the limit. */
    ghost predicate Ended()
      reads this
    {
      && !scanner.tooLarge && read <= limit && 0 < calls == |rooms|
      && ReadOf(body, calls - 1, rooms[calls - 1]).status == EndOfFile
    }

    /** From the file part on, the body may hold the file and the form's overhead. */
    method RecognizeFile() returns (error: Option<WireError>)
      requires Valid()
      modifies this`fileRecognized, this`limit, this`scanner
      ensures Valid() && fileRecognized
      ensures error.Some? <==> !old(fileRecognized) && fileLimit > MAX_INT64 - FORM_OVERHEAD
      ensures error.Some? ==> scanner.tooLarge
      ensures error.None? ==> scanner == old(scanner)
    {
      if fileRecognized {
        return None;
      }
      fileRecognized := true;
      if fileLimit > MAX_INT64 - FORM_OVERHEAD {
        scanner := scanner.(tooLarge := true);
        return Some(EntityTooLarge);
      }
      limit := fileLimit + FORM_OVERHEAD;
      return None;
    }

    /** Counts bytes the file part yields. */
    method AddFileBytes(n: int) returns (error: Option<WireError>)
      requires Valid()
      modifies this`fileBytes
      ensures Valid()
      ensures error.None? <==> n >= 0 && fileRecognized && old(fileBytes) + n <= fileLimit
      ensures fileBytes == old(fileBytes) + if error.None? then n else 0
    {
      if n < 0 || !fileRecognized || fileBytes > fileLimit || n > fileLimit - fileBytes {
        return Some(EntityTooLarge);
      }
      fileBytes := fileBytes + n;
      return None;
    }

    /** The scanner's loop over the bytes of one read. */
    method Scan(data: seq<byte>)
      modifies this`scanner
      ensures scanner == Observe(boundary, old(scanner), data)
    {
      var i := 0;
      while i < |data|
        invariant 0 <= i <= |data|
        invariant Observe(boundary, old(scanner), data) == Observe(boundary, scanner, data[i..])
      {
        scanner := Step(boundary, scanner, data[i]);
        assert data[i..][1..] == data[i + 1..];
        if scanner.tooLarge {
          return;
        }
        i := i + 1;
      }
    }

    /** One bounded read: at most one byte beyond the limit is ever taken from the body. */
    method Read(n: nat) returns (data: seq<byte>, status: Status)
      requires Valid()
      modifies this`calls, this`read, this`scanner, this`seen, this`rooms
      ensures Valid()
      ensures seen == old(seen) + data && read == old(read) + |data| <= Max(old(read), limit + 1)
      ensures n > 0 && status == Fine ==> data != [] && read <= limit
      ensures n > 0 ==> (status == EndOfFile ==> Ended()) && (status.Failed? ==> !Ended())
      ensures n > 0 && (old(scanner).tooLarge || old(read) > limit) ==> data == [] && status == Failed(EntityTooLarge)
      ensures n > 0 && !old(scanner).tooLarge && old(read) <= limit ==>
        var chunk := ReadOf(body, old(calls), Min(n, limit - old(read) + 1));
        && data == chunk.data && calls == old(calls) + 1
        && (scanner.tooLarge <==> read > limit || (data != [] && Observe(boundary, old(scanner), data).tooLarge))
        && status == if scanner.tooLarge then Failed(EntityTooLarge)
                     else if chunk == Chunk([], Fine) then Failed(IncompleteBody)
                     else chunk.status
    {
      hide ReadOf, Yielded, Observe, Boundary;
      if n == 0 {
        return [], Fine;
      }
      if scanner.tooLarge {
        return [], Failed(EntityTooLarge);
      }
      var remaining := limit - read;
      if remaining < 0 {
        return [], Failed(EntityTooLarge);
      }
      var room := Min(n, remaining + 1);
      var chunk := ReadOf(body, calls, room);
      YieldedNext(body, rooms, room);
      calls, rooms, data := calls + 1, rooms + [room], chunk.data;
      assert seen + [] == seen;
      seen := seen + data;
      if |data| > 0 {
        read := read + |data|;
        ObserveSplit(boundary, INITIAL, old(seen), data);
        Scan(data);
        if read > limit {
          scanner := scanner.(tooLarge := true);
          return data, Failed(EntityTooLarge);
        }
      }
      if scanner.tooLarge {
        return data, Failed(EntityTooLarge);
      }
      if data == [] && chunk.status == Fine {
        return [], Failed(IncompleteBody);
      }
      return data, chunk.status;
    }

    /**
     * Drains the body and judges it. Once the body has ended, success means exactly that all its bytes together
     * are a form and that all but the overhead was the file; a form that was not closed is incomplete, and anything
     * else is malformed.
     */
    method Finish() returns (error: Option<WireError>)
      requires Valid()
      modifies this
      ensures old(seen) <= seen && seen == Yielded(body, rooms)
      ensures !Ended() ==> error.Some?
      ensures Ended() ==>
        error == if IsForm(boundary, seen) then
                   if |seen| - old(fileBytes) <= FORM_OVERHEAD then None else Some(EntityTooLarge)
                 else if IsOpenForm(boundary, seen) then Some(IncompleteBody)
                 else Some(Malformed)
    {
      var status := Fine;
      while status == Fine
        invariant Valid() && old(seen) <= seen && fileBytes == old(fileBytes)
        invariant status == Fine || (status == EndOfFile && Ended())
        decreases Max(limit, BEFORE_FILE) + 1 - read, status == Fine
      {
        var data;
        data, status := Read(BUFFER);
        if status.Failed? {
          return Some(status.error);
        }
      }
      ClosedNotPending(boundary, INITIAL, seen);
      FramedIff(boundary, seen);
      UnfinishedIff(boundary, seen);
      if scanner.invalid {
        return Some(Malformed);
      }
      if !scanner.isOpen {
        return Some(Malformed);
      }
      if !scanner.isClosed && !scanner.close.pending {
        return Some(IncompleteBody);
      }
      if scanner.close.pending && (scanner.close.cr || scanner.close.bareLF) {
        return Some(Malformed);
      }
      if scanner.line.pendingCR {
        return Some(Malformed);
      }
      if read - fileBytes > FORM_OVERHEAD {
        return Some(EntityTooLarge);
      }
      return None;
    }
  }
}
