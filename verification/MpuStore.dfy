/** The state record of one encrypted multipart upload and the atomic scripts that change it. */
module MpuStore {
  import opened Bytes

  /** The keyed commitment to a part's exact plaintext, taken as collision-free. */
  datatype Claim = Claim(part: nat, plain: seq<byte>)

  datatype Status = Reserved(lease: int) | Committed(etag: string, encLen: nat, chunks: nat)

  datatype PartRecord = PartRecord(claim: Claim, token: nat, status: Status)

  datatype Phase = Open | Completing | Completed | Aborting | Aborted

  datatype Upload = Upload(phase: Phase, revision: nat, parts: map<nat, PartRecord>)

  /** The hash under the upload's key; None once it is deleted or has expired. */
  type Store = Option<Upload>

  datatype ReserveCode =
    NotFound | WrongPhase | Conflict | Mismatch | InProgress | AlreadyDone(etag: string) | Fresh | Reacquired

  function ReservePart(s: Store, claim: Claim, token: nat, revision: nat, now: int, lease: nat): (Store, ReserveCode) {
    if s.None? then (s, NotFound)
    else
      var u := s.value;
      var taken := claim.part in u.parts;
      if u.phase != Open then (s, WrongPhase)
      else if u.revision != revision then (s, Conflict)
      else if taken && u.parts[claim.part].claim != claim then (s, Mismatch)
      else if taken && u.parts[claim.part].status.Committed? then
        (s, AlreadyDone(u.parts[claim.part].status.etag))
      else if taken && u.parts[claim.part].status.lease > now then (s, InProgress)
      else
        var record := PartRecord(claim, token, Reserved(now + lease));
        (Some(Upload(Open, u.revision + 1, u.parts[claim.part := record])), if taken then Reacquired else Fresh)
  }

  predicate Owns(u: Upload, part: nat, token: nat) {
    part in u.parts && u.parts[part].status.Reserved? && u.parts[part].token == token
  }

  function RenewPart(s: Store, part: nat, token: nat, revision: nat, now: int, lease: nat): (Store, bool) {
    if s.Some? && s.value.phase == Open && s.value.revision == revision && Owns(s.value, part, token) then
      var record := s.value.parts[part].(status := Reserved(now + lease));
      (Some(s.value.(parts := s.value.parts[part := record])), true)
    else (s, false)
  }

  /** Deletes the part's field outright, claim included. */
  function ReleasePart(s: Store, part: nat, token: nat, revision: nat): (Store, bool) {
    if s.Some? && s.value.phase == Open && s.value.revision == revision && Owns(s.value, part, token) then
      (Some(Upload(Open, revision + 1, s.value.parts - {part})), true)
    else (s, false)
  }

  function CommitPart(s: Store, claim: Claim, token: nat, done: Status, revision: nat): (Store, bool)
    requires done.Committed?
  {
    if s.None? || s.value.phase != Open || s.value.revision != revision || claim.part !in s.value.parts then (s, false)
    else
      var record := s.value.parts[claim.part];
      if record.claim != claim || record.token != token then (s, false)
      else if record.status.Committed? then (s, record.status == done)
      else (Some(Upload(Open, revision + 1, s.value.parts[claim.part := record.(status := done)])), true)
  }

  /** The revision-guarded phase changes: begin-abort, reopen and both finalizations. */
  function Transition(s: Store, from: Phase, to: Phase, revision: nat): (Store, bool) {
    if s.Some? && s.value.phase == from && s.value.revision == revision then
      (Some(s.value.(phase := to, revision := revision + 1)), true)
    else (s, false)
  }

  datatype Selected = Selected(part: nat, etag: string)

  /** Part numbers strictly ascending in 1..10000, each committed under the selected ETag. */
  predicate SelectionMatches(u: Upload, selected: seq<Selected>, previous: nat) {
    selected == [] ||
    (var p := selected[0].part;
     && previous < p <= 10000
     && p in u.parts
     && u.parts[p].status.Committed?
     && u.parts[p].status.etag == selected[0].etag
     && SelectionMatches(u, selected[1..], p))
  }

  function BeginComplete(s: Store, selected: seq<Selected>, revision: nat): (Store, bool) {
    if && s.Some? && s.value.phase == Open && s.value.revision == revision
       && selected != [] && SelectionMatches(s.value, selected, 0)
    then (Some(s.value.(phase := Completing, revision := revision + 1)), true)
    else (s, false)
  }

  /** The snapshot BeginComplete hands to the manifest writer. */
  function Snapshot(u: Upload, selected: seq<Selected>): seq<PartRecord>
    requires forall i :: 0 <= i < |selected| ==> selected[i].part in u.parts
  {
    seq(|selected|, i requires 0 <= i < |selected| => u.parts[selected[i].part])
  }
}
