/** Spooling the file of a browser form upload under its length window and the byte budget. */
module PostSpool {
  import opened Bytes
  import opened Integers
  import opened SpoolManager
  import PostPolicy

  const BUFFER := 32 * 1024
  const DEFAULT_LIMIT := 5 * 0x4000_0000

  datatype SpoolError =
    | StreamingCanceled | RequestExpired | EntityTooLarge | EntityTooSmall | IncompleteBody | FormMalformed
    | SpoolFailed | OverLimit | OverCapacity | BadChecksum

  datatype ReadStatus = More | Eof | Broken(error: SpoolError)

  datatype Chunk = Chunk(data: seq<byte>, status: ReadStatus)

  /**
   * The file part as its reads yield it: at most give(k) bytes of the content at read k, and after its last byte
   * the end, or an error that cut it off, together with that byte or at the read after it.
   */
  datatype Part = Part(content: seq<byte>, give: nat -> nat, atOnce: bool, fault: Option<SpoolError>)

  function GivenAt(part: Part, k: nat): nat { part.give(k) }

  /** Read k of the part, pos bytes in, into a buffer with room. */
  function ReadPart(part: Part, k: nat, pos: nat, room: nat): (c: Chunk)
    requires pos <= |part.content|
    ensures pos + |c.data| <= |part.content| && c.data == part.content[pos..pos + |c.data|] && |c.data| <= room
    ensures c.status != More ==> pos + |c.data| == |part.content|
    ensures c.status == Eof ==> part.fault.None?
    ensures c.status.Broken? ==> part.fault == Some(c.status.error)
    ensures c == Chunk([], More) && room > 0 ==> GivenAt(part, k) == 0
  {
    var n := Min(Min(GivenAt(part, k), room), |part.content| - pos);
    var last := pos + n == |part.content| && (part.atOnce || n == 0);
    Chunk(part.content[pos..pos + n],
          if !last then More else if part.fault.Some? then Broken(part.fault.value) else Eof)
  }

  /** What the surroundings do: the file part, and the answers of clock, disk and parser. */
  datatype Surroundings = Surroundings(
    part: Part,
    canceled: nat -> bool,
    expired: nat -> bool,
    written: nat -> bool,
    created: bool,
    finished: Option<SpoolError>,
    checksum: bool,
    rewound: bool)

  predicate CanceledAt(s: Surroundings, k: nat) { s.canceled(k) }

  predicate ExpiredAt(s: Surroundings, k: nat) { s.expired(k) }

  predicate WrittenAt(s: Surroundings, k: nat) { s.written(k) }

  /** The upload's window from its policy, its wire limit and the configured limit at its arrival. */
  datatype Upload = Upload(minimum: int, maximum: int, wireLimit: int, configured: int)

  datatype Result = Stored(reservation: Reservation, length: int) | Failed(error: SpoolError)

  function Smallest(values: seq<int>): (r: int)
    requires values != []
    ensures r in values && forall v :: v in values ==> r <= v
  {
    assert values == values[..|values| - 1] + [values[|values| - 1]];
    if |values| == 1 then values[0] else Min(Smallest(values[..|values| - 1]), values[|values| - 1])
  }

  /** The length is inside the window and every limit. */
  predicate WithinLimits(u: Upload, limit: int, length: int) {
    && u.minimum <= length <= u.maximum
    && length <= u.wireLimit
    && length <= DEFAULT_LIMIT
    && (limit > 0 ==> length <= limit)
    && (u.configured > 0 ==> length <= u.configured)
  }

  function MaximumLength(u: Upload, limit: int): int {
    var requested := if limit <= 0 then DEFAULT_LIMIT else limit;
    var maximum := Smallest([Smallest([u.maximum, u.wireLimit]), requested, DEFAULT_LIMIT]);
    if u.configured > 0 then Smallest([maximum, u.configured]) else maximum
  }

  lemma MaximumIsLimit(u: Upload, limit: int, n: int)
    ensures n <= MaximumLength(u, limit) <==>
      && n <= u.maximum && n <= u.wireLimit && n <= DEFAULT_LIMIT
      && (limit > 0 ==> n <= limit) && (u.configured > 0 ==> n <= u.configured)
  {
    var a := Smallest([u.maximum, u.wireLimit]);
    var l := if limit <= 0 then DEFAULT_LIMIT else limit;
    var m := Smallest([a, l, DEFAULT_LIMIT]);
    assert u.maximum in [u.maximum, u.wireLimit] && u.wireLimit in [u.maximum, u.wireLimit];
    assert a in [a, l, DEFAULT_LIMIT] && l in [a, l, DEFAULT_LIMIT] && DEFAULT_LIMIT in [a, l, DEFAULT_LIMIT];
    assert m in [m, u.configured] && u.configured in [m, u.configured];
  }

  function Classified(e: Error): SpoolError
    requires e != NoError
  {
    match e
    case Canceled => StreamingCanceled
    case Capacity => OverCapacity
    case RequestLimit => OverLimit
  }

  /** Nothing interferes, and every read makes progress. */
  ghost predicate Undisturbed(s: Surroundings) {
    && (forall k: nat :: !CanceledAt(s, k) && !ExpiredAt(s, k) && WrittenAt(s, k) && GivenAt(s.part, k) > 0)
    && s.created && s.finished.None? && s.checksum && s.rewound && s.part.fault.None?
  }

  /** At neither check around read k was the request cancelled or late. */
  predicate PassQuiet(s: Surroundings, k: nat) {
    !CanceledAt(s, 2 * k + 1) && !CanceledAt(s, 2 * k + 2) && !ExpiredAt(s, 3 * k) && !ExpiredAt(s, 3 * k + 1)
  }

  /** Nor at any read that the content needed. */
  ghost predicate QuietThrough(s: Surroundings, passes: nat) {
    1 <= passes && |s.part.content| <= passes * BUFFER && forall k :: 1 <= k <= passes ==> PassQuiet(s, k)
  }

  /** What an error says about the surroundings, or about the length and the budget. */
  ghost predicate Reason(s: Surroundings, u: Upload, limit: int, left: int, e: SpoolError) {
    || s.finished == Some(e)
    || s.part.fault == Some(e)
    || match e
       case StreamingCanceled => exists k: nat :: CanceledAt(s, k)
       case RequestExpired => exists k: nat :: ExpiredAt(s, k)
       case EntityTooLarge => |s.part.content| > MaximumLength(u, limit)
       case EntityTooSmall => |s.part.content| < u.minimum
       case IncompleteBody => exists k: nat :: GivenAt(s.part, k) == 0
       case SpoolFailed => !s.created || !s.rewound || exists k: nat :: !WrittenAt(s, k)
       case OverCapacity => |s.part.content| > left
       case BadChecksum => !s.checksum
       case _ => false
  }

  /**
   * Spools the file. A stored file is the content of the file part, lies inside the window and every limit and is
   * charged exactly its length; a refused one is charged nothing and refused for a reason. When nothing interferes
   * it is stored exactly if its length is allowed and the budget has room for it.
   */
  method SpoolFile(s: Surroundings, u: Upload, manager: Manager, limit: int) returns (r: Result, file: seq<byte>)
    requires manager.Valid()
    requires Int64(u.minimum) && Int64(u.maximum) && Int64(u.wireLimit) && Int64(u.configured) && Int64(limit)
    modifies manager
    ensures manager.Valid() && manager.capacity == old(manager.capacity)
    ensures r.Stored? ==> fresh(r.reservation) && r.reservation.manager == manager && r.reservation.Valid()
    ensures r.Stored? ==> WithinLimits(u, limit, r.length)
    ensures r.Stored? ==> file == s.part.content && s.part.fault.None?
    ensures r.Stored? ==> s.finished.None? && s.checksum && s.created && s.rewound
    ensures r.Stored? ==> !CanceledAt(s, 0) && !CanceledAt(s, 1) && !CanceledAt(s, 2) && !ExpiredAt(s, 0)
    ensures r.Stored? ==> exists passes :: QuietThrough(s, passes)
    ensures r.Stored? ==> r.length == |file| == r.reservation.used && !r.reservation.released
    ensures r.Failed? ==> Reason(s, u, limit, manager.capacity - old(manager.current), r.error)
    ensures Undisturbed(s) ==>
      (r.Stored? <==> && WithinLimits(u, limit, |s.part.content|)
                      && old(manager.current) + |s.part.content| <= manager.capacity)
    ensures manager.current == old(manager.current) + if r.Stored? then r.length else 0
  {
    hide Sum, MaximumLength, Reason, Undisturbed, CanceledAt, ExpiredAt, WrittenAt, GivenAt;
    file := [];
    Reasons(s, u, limit, manager.capacity - manager.current);
    if CanceledAt(s, 0) {
      return Failed(StreamingCanceled), file;
    }
    var maximum := MaximumLength(u, limit);
    MaximumIsLimit(u, limit, maximum);
    MaximumIsLimit(u, limit, |s.part.content|);
    if maximum < 0 {
      return Failed(EntityTooLarge), file;
    }
    var reservation, error := manager.Acquire(CanceledAt(s, 1), 0, maximum);
    if reservation == null {
      return Failed(Classified(error)), file;
    }
    var failed: Option<SpoolError>;
    failed, file := SpoolReserved(s, u, limit, reservation, maximum);
    r := if failed.Some? then Failed(failed.value) else Stored(reservation, |file|);
  }

  /** Copies and judges the file; a reservation that is of no use is given back. */
  method SpoolReserved(s: Surroundings, u: Upload, ghost limit: int, reservation: Reservation, maximum: int)
    returns (failed: Option<SpoolError>, file: seq<byte>)
    requires reservation.Valid() && !reservation.released && reservation.used == 0 && reservation.limit == maximum
    requires maximum == MaximumLength(u, limit)
    modifies reservation, reservation.manager`current, reservation.manager`charges
    ensures reservation.Valid()
    ensures failed.None? ==> file == s.part.content && s.part.fault.None?
    ensures failed.None? ==> s.finished.None? && s.checksum && s.created && s.rewound
    ensures failed.None? ==> !CanceledAt(s, 2) && !ExpiredAt(s, 0) && exists passes :: QuietThrough(s, passes)
    ensures failed.None? ==> u.minimum <= |file| == reservation.used <= maximum && !reservation.released
    ensures var left := reservation.manager.capacity - old(reservation.manager.current);
            && (failed.Some? ==> Reason(s, u, limit, left, failed.value))
            && (failed.Some? ==> !(Undisturbed(s) && u.minimum <= |s.part.content| <= Min(maximum, left)))
            && (failed.None? ==> |file| <= left)
    ensures reservation.manager.current == old(reservation.manager.current) + if failed.None? then |file| else 0
  {
    hide Sum, MaximumLength, Reason, Undisturbed, CanceledAt, ExpiredAt, WrittenAt, GivenAt;
    Reasons(s, u, limit, reservation.manager.capacity - reservation.manager.current);
    ghost var passes;
    failed, file, passes := CopyFile(s, u, limit, reservation, maximum);
    if failed.None? {
      failed := JudgeFile(s, u, |file|);
    }
    if failed.Some? {
      reservation.Release();
    }
  }

  /** The checks after the last byte. */
  method JudgeFile(s: Surroundings, u: Upload, length: int) returns (failed: Option<SpoolError>)
    ensures failed.None? <==>
      && s.finished.None? && !CanceledAt(s, 2) && !ExpiredAt(s, 0) && length >= u.minimum && s.checksum && s.rewound
    ensures s.finished.Some? ==> failed == s.finished
    ensures failed == Some(EntityTooSmall) ==> s.finished == failed || length < u.minimum
    ensures failed.Some? && failed != s.finished ==>
      failed.value in {StreamingCanceled, RequestExpired, EntityTooSmall, BadChecksum, SpoolFailed}
    ensures failed == Some(StreamingCanceled) ==> s.finished == failed || CanceledAt(s, 2)
    ensures failed == Some(RequestExpired) ==> s.finished == failed || ExpiredAt(s, 0)
    ensures failed == Some(BadChecksum) ==> s.finished == failed || !s.checksum
    ensures failed == Some(SpoolFailed) ==> s.finished == failed || !s.rewound
  {
    if s.finished.Some? {
      return s.finished;
    }
    if CanceledAt(s, 2) {
      return Some(StreamingCanceled);
    }
    if ExpiredAt(s, 0) {
      return Some(RequestExpired);
    }
    if length < u.minimum {
      return Some(EntityTooSmall);
    }
    if !s.checksum {
      return Some(BadChecksum);
    }
    if !s.rewound {
      return Some(SpoolFailed);
    }
    return None;
  }

  /** The copy loop: every byte is charged before it is written, and what was written is what was read, in order. */
  method CopyFile(s: Surroundings, ghost u: Upload, ghost limit: int, reservation: Reservation, maximum: int)
    returns (failed: Option<SpoolError>, file: seq<byte>, ghost passes: nat)
    requires reservation.Valid() && !reservation.released && reservation.used == 0 && reservation.limit == maximum
    requires maximum == MaximumLength(u, limit)
    modifies reservation`used, reservation.manager`current, reservation.manager`charges
    ensures reservation.Valid()
    ensures file <= s.part.content
    ensures failed.None? ==> file == s.part.content && s.part.fault.None? && s.created && QuietThrough(s, passes)
    ensures failed.None? ==> |file| == reservation.used <= maximum
    ensures failed.Some? ==>
      Reason(s, u, limit, reservation.manager.capacity - old(reservation.manager.current), failed.value)
    ensures var room := reservation.manager.capacity - old(reservation.manager.current);
            Undisturbed(s) && |s.part.content| <= Min(maximum, room) ==> failed.None?
    ensures reservation.manager.current == old(reservation.manager.current) + reservation.used
  {
    hide MaximumLength, Sum, Reason, Undisturbed, CanceledAt, ExpiredAt, WrittenAt, GivenAt, PassQuiet;
    file, passes := [], 0;
    Reasons(s, u, limit, reservation.manager.capacity - reservation.manager.current);
    if !s.created {
      return Some(SpoolFailed), file, 0;
    }
    var k := 0;
    while true
      invariant |file| <= k * BUFFER && forall j :: 1 <= j <= k ==> PassQuiet(s, j)
      invariant reservation.Valid() && |file| == reservation.used <= maximum
      invariant |file| <= |s.part.content| && file == s.part.content[..|file|]
      invariant reservation.manager.current == old(reservation.manager.current) + reservation.used
      decreases maximum - |file|
    {
      k := k + 1;
      var block, last;
      failed, block, last := CopyBlock(s, u, limit, k, |file|, reservation, maximum);
      Grown(s.part.content, file, block);
      file, passes := file + block, k;
      if failed.Some? || last {
        return;
      }
    }
  }

  lemma Grown(content: seq<byte>, file: seq<byte>, block: seq<byte>)
    requires |file| + |block| <= |content|
    requires file == content[..|file|] && block == content[|file|..|file| + |block|]
    ensures file + block == content[..|file| + |block|]
  {
  }

  /** One pass: reads the next block after pos bytes, charges it and writes it. */
  method CopyBlock(s: Surroundings, ghost u: Upload, ghost limit: int, k: nat, pos: nat, reservation: Reservation,
                   maximum: int)
    returns (failed: Option<SpoolError>, block: seq<byte>, last: bool)
    requires reservation.Valid() && !reservation.released && reservation.limit == maximum == MaximumLength(u, limit)
    requires pos == reservation.used && pos <= |s.part.content|
    modifies reservation`used, reservation.manager`current, reservation.manager`charges
    ensures reservation.Valid()
    ensures pos + |block| <= |s.part.content| && block == s.part.content[pos..pos + |block|]
    ensures failed.None? ==> reservation.used == pos + |block| <= maximum && |block| <= BUFFER && PassQuiet(s, k)
    ensures failed.None? && last ==> pos + |block| == |s.part.content| && s.part.fault.None?
    ensures failed.None? && !last ==> |block| > 0
    ensures var left := pos + reservation.manager.capacity - old(reservation.manager.current);
            failed.Some? ==>
              && Reason(s, u, limit, left, failed.value)
              && !(Undisturbed(s) && |s.part.content| <= Min(maximum, left))
    ensures reservation.manager.current - old(reservation.manager.current) == reservation.used - pos
  {
    hide MaximumLength, Sum, Reason, Undisturbed, ReadPart, CanceledAt, ExpiredAt, WrittenAt, GivenAt;
    Reasons(s, u, limit, pos + reservation.manager.capacity - reservation.manager.current);
    block, last := [], false;
    failed := Interrupted(s, 2 * k + 1, 3 * k);
    if failed.Some? {
      return;
    }
    var remaining := maximum - pos;
    var chunk := ReadPart(s.part, k, pos, if remaining < BUFFER then remaining + 1 else BUFFER);
    if chunk.status == Broken(StreamingCanceled) {
      return Some(StreamingCanceled), [], false;
    }
    failed := Interrupted(s, 2 * k + 2, 3 * k + 1);
    if failed.Some? {
      return;
    }
    if |chunk.data| > 0 {
      failed := Charge(s, k, |chunk.data|, remaining, reservation);
      if failed.Some? {
        return;
      }
      block := chunk.data;
    }
    if chunk.status.Broken? {
      return Some(chunk.status.error), block, false;
    }
    if chunk.status == Eof {
      return None, block, true;
    }
    if |chunk.data| == 0 {
      return Some(IncompleteBody), block, false;
    }
  }

  /** The request's cancellation and its deadline, in this order. */
  method Interrupted(s: Surroundings, cancel: nat, deadline: nat) returns (failed: Option<SpoolError>)
    ensures failed == if CanceledAt(s, cancel) then Some(StreamingCanceled)
                      else if ExpiredAt(s, deadline) then Some(RequestExpired)
                      else None
  {
    if CanceledAt(s, cancel) {
      return Some(StreamingCanceled);
    }
    if ExpiredAt(s, deadline) {
      return Some(RequestExpired);
    }
    return None;
  }

  /** Charges n bytes read and writes them. */
  method Charge(s: Surroundings, k: nat, n: nat, remaining: int, reservation: Reservation)
    returns (failed: Option<SpoolError>)
    requires reservation.Valid() && !reservation.released && remaining == reservation.limit - reservation.used
    requires n <= BUFFER
    modifies reservation`used, reservation.manager`current, reservation.manager`charges
    ensures reservation.Valid()
    ensures failed == if n > remaining then Some(EntityTooLarge)
                      else if ExpiredAt(s, 3 * k + 2) then Some(RequestExpired)
                      else if n > reservation.manager.capacity - old(reservation.manager.current)
                      then Some(OverCapacity)
                      else if !WrittenAt(s, k) then Some(SpoolFailed)
                      else None
    ensures failed.None? ==> reservation.used == old(reservation.used) + n
    ensures reservation.manager.current - old(reservation.manager.current) == reservation.used - old(reservation.used)
  {
    hide Sum, CanceledAt, ExpiredAt, WrittenAt, GivenAt;
    if n > remaining {
      return Some(EntityTooLarge);
    }
    if ExpiredAt(s, 3 * k + 2) {
      return Some(RequestExpired);
    }
    var error := reservation.Grow(n);
    if error != NoError {
      return Some(Classified(error));
    }
    if !WrittenAt(s, k) {
      return Some(SpoolFailed);
    }
    return None;
  }

  /** The reasons one by one, and that none of them holds when nothing interferes. */
  lemma Reasons(s: Surroundings, u: Upload, limit: int, left: int)
    ensures forall k: nat :: CanceledAt(s, k) ==> Reason(s, u, limit, left, StreamingCanceled) && !Undisturbed(s)
    ensures forall k: nat :: ExpiredAt(s, k) ==> Reason(s, u, limit, left, RequestExpired) && !Undisturbed(s)
    ensures forall k: nat :: !WrittenAt(s, k) ==> Reason(s, u, limit, left, SpoolFailed) && !Undisturbed(s)
    ensures forall k: nat :: GivenAt(s.part, k) == 0 ==> Reason(s, u, limit, left, IncompleteBody) && !Undisturbed(s)
    ensures !s.created || !s.rewound ==> Reason(s, u, limit, left, SpoolFailed) && !Undisturbed(s)
    ensures s.part.fault.Some? ==> Reason(s, u, limit, left, s.part.fault.value) && !Undisturbed(s)
    ensures s.finished.Some? ==> Reason(s, u, limit, left, s.finished.value) && !Undisturbed(s)
    ensures |s.part.content| > MaximumLength(u, limit) ==> Reason(s, u, limit, left, EntityTooLarge)
    ensures |s.part.content| < u.minimum ==> Reason(s, u, limit, left, EntityTooSmall)
    ensures |s.part.content| > left ==> Reason(s, u, limit, left, OverCapacity)
    ensures !s.checksum ==> Reason(s, u, limit, left, BadChecksum) && !Undisturbed(s)
  {
    hide MaximumLength, CanceledAt, ExpiredAt, WrittenAt, GivenAt;
  }

  /** Policy and spool together: a stored file is one the signed policy allows, form and length. */
  method AcceptUpload(conditions: seq<PostPolicy.Condition>, form: PostPolicy.Form, s: Surroundings,
                      wireLimit: int, configured: int, manager: Manager, limit: int)
    returns (outcome: PostPolicy.Outcome, r: Result, file: seq<byte>)
    requires manager.Valid() && Int64(wireLimit) && Int64(configured) && Int64(limit)
    modifies manager
    ensures manager.Valid() && manager.capacity == old(manager.capacity)
    ensures r.Stored? ==> PostPolicy.Allows(conditions, form) && PostPolicy.Admissible(conditions, r.length)
    ensures r.Stored? ==> outcome.Accepted?
    ensures r.Stored? ==> WithinLimits(Upload(outcome.minimum, outcome.maximum, wireLimit, configured), limit, r.length)
    ensures r.Stored? ==> fresh(r.reservation) && r.reservation.manager == manager && r.reservation.Valid()
    ensures r.Stored? ==> file == s.part.content && s.part.fault.None? && s.finished.None? && s.checksum
    ensures r.Stored? ==> r.length == |file| == r.reservation.used && !r.reservation.released
    ensures var n := |s.part.content|;
            Undisturbed(s) ==>
      (r.Stored? <==>
         && PostPolicy.Allows(conditions, form) && PostPolicy.Admissible(conditions, n)
         && 0 <= n <= wireLimit && n <= DEFAULT_LIMIT
         && (limit > 0 ==> n <= limit) && (configured > 0 ==> n <= configured)
         && old(manager.current) + n <= manager.capacity)
    ensures manager.current == old(manager.current) + if r.Stored? then r.length else 0
  {
    hide Undisturbed;
    outcome := PostPolicy.MatchConditions(conditions, form);
    if outcome.Refused? {
      return outcome, Failed(FormMalformed), [];
    }
    PostPolicy.WindowBounds(conditions, outcome.minimum, outcome.maximum);
    r, file := SpoolFile(s, Upload(outcome.minimum, outcome.maximum, wireLimit, configured), manager, limit);
  }
}
