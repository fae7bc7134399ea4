/**
 * Concurrent UploadPart and UploadPartCopy workers over one upload record. A part's nonces are a
 * function of the upload, the part number and the chunk index alone, so at most one plaintext may ever be
 * encrypted and sent for a part.
 */
module MpuProtocol {
  import opened Bytes
  import opened MpuStore

  /** Owned: reserved, backend call not begun. Calling: inside the call, which may have taken effect. */
  datatype Stage =
    | Buffered
    | Owned(token: nat, reacquired: bool)
    | Calling(token: nat)
    | Returned(token: nat)
    | Finished

  datatype Worker = Worker(claim: Claim, stage: Stage)

  /** sent holds every plaintext whose ciphertext was ever handed to the backend for this upload. */
  datatype State = State(store: Store, now: nat, nextToken: nat, workers: map<nat, Worker>, sent: set<Claim>)

  /**
   * Which reservations the deferred cleanup releases: those a worker created, those it re-acquired, and those of a
   * worker whose backend call panics. UploadPart releases all three kinds, UploadPartCopy the first two.
   */
  datatype Cleanup = Cleanup(created: bool, reacquired: bool, calling: bool)

  const HANDLER_CLEANUP := Cleanup(true, true, true)

  /**
   * revision is the one the Go client read before running the script; lost means that a script took effect
   * but its reply did not arrive.
   */
  datatype Action =
    | Arrive(id: nat, claim: Claim)
    | Reserve(id: nat, revision: nat, lease: nat, lost: bool)
    | Renew(id: nat, revision: nat, lease: nat)
    | FailBeforeUpload(id: nat, revision: nat)
    | Crash(id: nat)
    | Send(id: nat)
    | Return(id: nat)
    | Panic(id: nat, revision: nat)
    | Commit(id: nat, revision: nat, done: Status)
    | Lifecycle(from: Phase, to: Phase, revision: nat)
    | Complete(selected: seq<Selected>, revision: nat)
    | Remove
    | Tick(ms: nat)

  function Init(): State {
    State(Some(Upload(Open, 1, map[])), 0, 0, map[], {})
  }

  function SetStage(s: State, id: nat, stage: Stage): State
    requires id in s.workers
  {
    s.(workers := s.workers[id := s.workers[id].(stage := stage)])
  }

  predicate LegalTransition(from: Phase, to: Phase) {
    || (from == Open && to == Aborting)
    || ((from == Completing || from == Aborting) && to == Open)
    || (from == Completing && to == Completed)
    || (from == Aborting && to == Aborted)
  }

  function DoReserve(s: State, id: nat, revision: nat, lease: nat, lost: bool): State
    requires id in s.workers
  {
    var (store, code) := ReservePart(s.store, s.workers[id].claim, s.nextToken, revision, s.now, lease);
    var t := s.(store := store, nextToken := s.nextToken + 1);
    match code
    case Conflict => t
    case Fresh => SetStage(t, id, if lost then Finished else Owned(s.nextToken, false))
    case Reacquired => SetStage(t, id, if lost then Finished else Owned(s.nextToken, true))
    case _ => SetStage(t, id, Finished)
  }

  predicate Releases(c: Cleanup, stage: Stage) {
    match stage
    case Owned(_, reacquired) => if reacquired then c.reacquired else c.created
    case Calling(_) => c.calling
    case _ => false
  }

  function DoFail(c: Cleanup, s: State, id: nat, revision: nat): State
    requires id in s.workers && (s.workers[id].stage.Owned? || s.workers[id].stage.Calling?)
  {
    var w := s.workers[id];
    var store := if Releases(c, w.stage) then ReleasePart(s.store, w.claim.part, w.stage.token, revision).0
                 else s.store;
    SetStage(s.(store := store), id, Finished)
  }

  /** One step; an action that is not enabled changes nothing. */
  function Apply(c: Cleanup, s: State, a: Action): State {
    match a
    case Arrive(id, claim) =>
      if id in s.workers then s else s.(workers := s.workers[id := Worker(claim, Buffered)])
    case Reserve(id, revision, lease, lost) =>
      if id in s.workers && s.workers[id].stage.Buffered? then DoReserve(s, id, revision, lease, lost) else s
    case Renew(id, revision, lease) =>
      if id in s.workers && s.workers[id].stage.Owned? then
        s.(store := RenewPart(s.store, s.workers[id].claim.part, s.workers[id].stage.token, revision, s.now, lease).0)
      else s
    case FailBeforeUpload(id, revision) =>
      if id in s.workers && s.workers[id].stage.Owned? then DoFail(c, s, id, revision) else s
    case Crash(id) => if id in s.workers then SetStage(s, id, Finished) else s
    case Send(id) =>
      if id in s.workers && s.workers[id].stage.Owned? then
        SetStage(s.(sent := s.sent + {s.workers[id].claim}), id, Calling(s.workers[id].stage.token))
      else s
    case Return(id) =>
      if id in s.workers && s.workers[id].stage.Calling? then
        SetStage(s, id, Returned(s.workers[id].stage.token))
      else s
    case Panic(id, revision) =>
      if id in s.workers && s.workers[id].stage.Calling? then DoFail(c, s, id, revision) else s
    case Commit(id, revision, done) =>
      if id in s.workers && s.workers[id].stage.Returned? && done.Committed? then
        s.(store := CommitPart(s.store, s.workers[id].claim, s.workers[id].stage.token, done, revision).0)
      else s
    case Lifecycle(from, to, revision) =>
      if LegalTransition(from, to) then s.(store := Transition(s.store, from, to, revision).0) else s
    case Complete(selected, revision) => s.(store := BeginComplete(s.store, selected, revision).0)
    case Remove => s.(store := None)
    case Tick(ms) => s.(now := s.now + ms)
  }

  function Run(c: Cleanup, s: State, actions: seq<Action>): State
    decreases |actions|
  {
    if actions == [] then s else Run(c, Apply(c, s, actions[0]), actions[1..])
  }

  /** No part number was ever sent with two plaintexts. */
  ghost predicate NonceSafe(s: State) {
    forall a, b :: a in s.sent && b in s.sent && a.part == b.part ==> a == b
  }

  // ---- the inductive invariant ----

  predicate IsOwner(s: State, id: nat) {
    id in s.workers && s.workers[id].stage.Owned?
  }

  /** Sent, or reserved by a worker that may still send it. */
  ghost predicate Exposed(s: State, claim: Claim) {
    claim in s.sent || exists id :: IsOwner(s, id) && s.workers[id].claim == claim
  }

  ghost predicate Agreement(s: State) {
    forall a, b :: Exposed(s, a) && Exposed(s, b) && a.part == b.part ==> a == b
  }

  /** While the record exists it still holds the claim of every exposed plaintext. */
  ghost predicate Covered(s: State) {
    s.store.Some? ==>
      forall a :: Exposed(s, a) ==> a.part in s.store.value.parts && s.store.value.parts[a.part].claim == a
  }

  ghost predicate TokensDistinct(s: State) {
    && (forall id :: IsOwner(s, id) ==> s.workers[id].stage.token < s.nextToken)
    && (forall i, j :: IsOwner(s, i) && IsOwner(s, j) && s.workers[i].stage.token == s.workers[j].stage.token ==>
                         i == j)
    && (s.store.Some? ==> forall p :: p in s.store.value.parts ==> s.store.value.parts[p].token < s.nextToken)
  }

  /** A worker that created the record it still holds is alone with it, and nothing was sent. */
  ghost predicate FreshOwnerAlone(s: State) {
    s.store.Some? ==>
      forall id :: IsOwner(s, id) && !s.workers[id].stage.reacquired
                   && Owns(s.store.value, s.workers[id].claim.part, s.workers[id].stage.token) ==>
                     && s.workers[id].claim !in s.sent
                     && forall other :: IsOwner(s, other) && s.workers[other].claim == s.workers[id].claim ==>
                                          other == id
  }

  ghost predicate CommittedWasSent(s: State) {
    s.store.Some? ==>
      forall p :: p in s.store.value.parts && s.store.value.parts[p].status.Committed? ==>
                    s.store.value.parts[p].claim in s.sent
  }

  ghost predicate StartedWasSent(s: State) {
    forall id :: id in s.workers && (s.workers[id].stage.Calling? || s.workers[id].stage.Returned?) ==>
                   s.workers[id].claim in s.sent
  }

  ghost predicate RecordsFiled(s: State) {
    s.store.Some? ==> forall p :: p in s.store.value.parts ==> s.store.value.parts[p].claim.part == p
  }

  ghost predicate Inv(s: State) {
    && Agreement(s) && Covered(s) && TokensDistinct(s) && FreshOwnerAlone(s)
    && CommittedWasSent(s) && StartedWasSent(s) && RecordsFiled(s)
  }
}
