/** When concurrent part uploads keep one plaintext a part, and when they do not. */
module MpuTheorems {
  import opened Bytes
  import opened MpuStore
  import opened MpuProtocol

  // ---- steps that add no claim and no owner ----

  /** t has no record, or the same parts with the same claims, tokens and kinds as s. */
  ghost predicate SameClaims(s: Store, t: Store) {
    t.Some? ==>
      && s.Some?
      && t.value.parts.Keys == s.value.parts.Keys
      && forall p :: p in t.value.parts ==>
                       && t.value.parts[p].claim == s.value.parts[p].claim
                       && t.value.parts[p].token == s.value.parts[p].token
                       && t.value.parts[p].status.Reserved? == s.value.parts[p].status.Reserved?
  }

  lemma NoNewOwnerKeeps(s: State, t: State)
    requires Inv(s) && SameClaims(s.store, t.store)
    requires t.sent == s.sent && t.nextToken >= s.nextToken
    requires forall id :: IsOwner(t, id) ==> IsOwner(s, id) && t.workers[id] == s.workers[id]
    requires StartedWasSent(t)
    ensures Inv(t)
  {
    assert forall a :: Exposed(t, a) ==> Exposed(s, a);
  }

  // ---- the four steps that touch claims ----

  /** t is s after a reservation for claim took effect; owner is the worker that learned of it, if any. */
  ghost predicate Took(s: State, t: State, claim: Claim, owner: Option<nat>, taken: bool) {
    && s.store.Some? && t.store.Some?
    && (exists lease :: t.store.value.parts ==
                        s.store.value.parts[claim.part := PartRecord(claim, s.nextToken, Reserved(lease))])
    && (if taken then claim.part in s.store.value.parts && s.store.value.parts[claim.part].claim == claim
        else claim.part !in s.store.value.parts)
    && t.sent == s.sent && t.nextToken == s.nextToken + 1
    && (forall i :: IsOwner(t, i) ==>
                      if owner == Some(i) then t.workers[i] == Worker(claim, Owned(s.nextToken, taken))
                      else IsOwner(s, i) && t.workers[i] == s.workers[i])
    && StartedWasSent(t)
  }

  lemma TookExposes(s: State, t: State, claim: Claim, owner: Option<nat>, taken: bool)
    requires Took(s, t, claim, owner, taken) && Covered(s) && Agreement(s)
    ensures forall a :: Exposed(t, a) && a != claim ==> Exposed(s, a)
    ensures forall a :: Exposed(s, a) && a.part == claim.part ==> taken && a == claim
    ensures Covered(t) && Agreement(t)
  {
    assert forall a :: Exposed(t, a) && a != claim ==> Exposed(s, a);
  }

  lemma TookTokens(s: State, t: State, claim: Claim, owner: Option<nat>, taken: bool)
    requires Took(s, t, claim, owner, taken) && TokensDistinct(s)
    ensures TokensDistinct(t)
  {
  }

  lemma TookAlone(s: State, t: State, claim: Claim, owner: Option<nat>, taken: bool)
    requires Took(s, t, claim, owner, taken) && Inv(s)
    ensures FreshOwnerAlone(t)
  {
    TookExposes(s, t, claim, owner, taken);
    forall id | IsOwner(t, id) && !t.workers[id].stage.reacquired
                && Owns(t.store.value, t.workers[id].claim.part, t.workers[id].stage.token)
      ensures t.workers[id].claim !in t.sent
      ensures forall other :: IsOwner(t, other) && t.workers[other].claim == t.workers[id].claim ==> other == id
    {
      if owner == Some(id) {
        assert !Exposed(s, claim);
      } else if t.workers[id].claim.part == claim.part {
        assert false;
      } else {
        assert Owns(s.store.value, s.workers[id].claim.part, s.workers[id].stage.token);
      }
    }
  }

  lemma TookKeeps(s: State, t: State, claim: Claim, owner: Option<nat>, taken: bool)
    requires Took(s, t, claim, owner, taken) && Inv(s)
    ensures Inv(t)
  {
    TookExposes(s, t, claim, owner, taken);
    TookTokens(s, t, claim, owner, taken);
    TookAlone(s, t, claim, owner, taken);
  }

  lemma ReserveKeeps(s: State, id: nat, revision: nat, lease: nat, lost: bool)
    requires Inv(s) && id in s.workers && s.workers[id].stage.Buffered?
    ensures Inv(DoReserve(s, id, revision, lease, lost))
  {
    hide Agreement, Covered, TokensDistinct, FreshOwnerAlone, CommittedWasSent, RecordsFiled;
    var claim := s.workers[id].claim;
    var t := DoReserve(s, id, revision, lease, lost);
    var code := ReservePart(s.store, claim, s.nextToken, revision, s.now, lease).1;
    assert forall i :: i != id ==> (IsOwner(t, i) <==> IsOwner(s, i));
    if code.Fresh? || code.Reacquired? {
      assert t.store.value.parts ==
             s.store.value.parts[claim.part := PartRecord(claim, s.nextToken, Reserved(s.now + lease))];
      TookKeeps(s, t, claim, if lost then None else Some(id), code.Reacquired?);
    } else {
      NoNewOwnerKeeps(s, t);
    }
  }

  lemma SendKeeps(s: State, id: nat)
    requires Inv(s) && IsOwner(s, id)
    ensures Inv(Apply(HANDLER_CLEANUP, s, Send(id)))
  {
    var t := Apply(HANDLER_CLEANUP, s, Send(id));
    assert Exposed(s, s.workers[id].claim);
    assert forall i :: IsOwner(t, i) ==> i != id && IsOwner(s, i) && t.workers[i] == s.workers[i];
    assert forall a :: Exposed(t, a) ==> Exposed(s, a);
    assert Agreement(t) && Covered(t) && TokensDistinct(t);
  }

  lemma CommitKeeps(s: State, id: nat, revision: nat, done: Status)
    requires Inv(s) && id in s.workers && s.workers[id].stage.Returned? && done.Committed?
    ensures Inv(Apply(HANDLER_CLEANUP, s, Commit(id, revision, done)))
  {
    hide Agreement, Covered, TokensDistinct, FreshOwnerAlone, CommittedWasSent, RecordsFiled;
    var t := Apply(HANDLER_CLEANUP, s, Commit(id, revision, done));
    if t.store == s.store {
      assert t == s;
    } else {
      SealedKeeps(s, t, s.workers[id].claim.part, done);
    }
  }

  /** Turning a reserved record of a sent claim into a committed one. */
  lemma SealedKeeps(s: State, t: State, part: nat, done: Status)
    requires Inv(s) && s.store.Some? && t.store.Some? && done.Committed?
    requires part in s.store.value.parts && s.store.value.parts[part].claim in s.sent
    requires t.store.value.parts == s.store.value.parts[part := s.store.value.parts[part].(status := done)]
    requires t.workers == s.workers && t.sent == s.sent && t.nextToken == s.nextToken
    ensures Inv(t)
  {
    assert forall i :: IsOwner(t, i) <==> IsOwner(s, i);
    assert forall a :: Exposed(t, a) <==> Exposed(s, a);
  }

  /** Releasing a record its owner created, or leaving the record alone. */
  lemma FailKeeps(c: Cleanup, s: State, id: nat, revision: nat)
    requires Inv(s) && IsOwner(s, id)
    requires s.workers[id].stage.reacquired ==> !c.reacquired
    ensures Inv(DoFail(c, s, id, revision))
  {
    var t := DoFail(c, s, id, revision);
    var w := s.workers[id];
    assert forall i :: IsOwner(t, i) ==> i != id && IsOwner(s, i) && t.workers[i] == s.workers[i];
    if t.store == s.store {
      NoNewOwnerKeeps(s, t);
    } else {
      assert Exposed(s, w.claim);
      assert !Exposed(t, w.claim);
      DroppedKeeps(s, t, w.claim);
    }
  }

  /** Dropping the record of a claim that nobody holds any more. */
  lemma DroppedKeeps(s: State, t: State, claim: Claim)
    requires Inv(s) && s.store.Some? && t.store.Some? && Exposed(s, claim) && !Exposed(t, claim)
    requires t.store.value.parts == s.store.value.parts - {claim.part}
    requires t.sent == s.sent && t.nextToken == s.nextToken && StartedWasSent(t)
    requires forall i :: IsOwner(t, i) ==> IsOwner(s, i) && t.workers[i] == s.workers[i]
    ensures Inv(t)
  {
    assert forall a :: Exposed(t, a) ==> Exposed(s, a) && a.part != claim.part;
  }

  // ---- every step, every run ----

  /**
   * The one kind of step the invariant does not survive: releasing a reservation taken over from another worker, or
   * one whose plaintext is being sent.
   */
  ghost predicate ReleasesExposed(c: Cleanup, s: State, a: Action) {
    || (a.FailBeforeUpload? && IsOwner(s, a.id) && s.workers[a.id].stage.reacquired && c.reacquired)
    || (a.Panic? && a.id in s.workers && s.workers[a.id].stage.Calling? && c.calling)
  }

  /** Steps that neither reserve nor send, commit or release. */
  lemma QuietStepKeeps(c: Cleanup, s: State, a: Action)
    requires Inv(s) && !(a.Reserve? || a.FailBeforeUpload? || a.Send? || a.Commit?) && (a.Panic? ==> !c.calling)
    ensures Inv(Apply(c, s, a))
  {
    hide Agreement, Covered, TokensDistinct, FreshOwnerAlone, CommittedWasSent, RecordsFiled;
    hide ReservePart, ReleasePart, CommitPart, SelectionMatches;
    var t := Apply(c, s, a);
    assert forall i :: IsOwner(t, i) ==> IsOwner(s, i) && t.workers[i] == s.workers[i];
    NoNewOwnerKeeps(s, t);
  }

  lemma StepKeeps(c: Cleanup, s: State, a: Action)
    requires Inv(s) && !ReleasesExposed(c, s, a)
    ensures Inv(Apply(c, s, a))
  {
    hide Agreement, Covered, TokensDistinct, FreshOwnerAlone, CommittedWasSent, RecordsFiled;
    hide ReservePart, RenewPart, ReleasePart, CommitPart, BeginComplete, Transition, StartedWasSent, Exposed;
    var t := Apply(c, s, a);
    if t == s {
      return;
    }
    match a
    case Reserve(id, revision, lease, lost) => ReserveKeeps(s, id, revision, lease, lost);
    case FailBeforeUpload(id, revision) => FailKeeps(c, s, id, revision);
    case Send(id) => SendKeeps(s, id);
    case Commit(id, revision, done) => CommitKeeps(s, id, revision, done);
    case _ => QuietStepKeeps(c, s, a);
  }

  lemma InvSafe(s: State)
    requires Inv(s)
    ensures NonceSafe(s)
  {
    assert forall a :: a in s.sent ==> Exposed(s, a);
  }

  ghost predicate NeverReleasesExposed(c: Cleanup, s: State, actions: seq<Action>)
    decreases |actions|
  {
    actions == [] ||
    (!ReleasesExposed(c, s, actions[0]) && NeverReleasesExposed(c, Apply(c, s, actions[0]), actions[1..]))
  }

  /** Every interleaving in which no exposed plaintext loses its reservation keeps one plaintext a part. */
  lemma {:induction false} RunSafe(c: Cleanup, s: State, actions: seq<Action>)
    requires Inv(s) && NeverReleasesExposed(c, s, actions)
    ensures Inv(Run(c, s, actions)) && NonceSafe(Run(c, s, actions))
    decreases |actions|
  {
    hide Inv, Apply;
    if actions == [] {
      InvSafe(s);
    } else {
      StepKeeps(c, s, actions[0]);
      RunSafe(c, Apply(c, s, actions[0]), actions[1..]);
    }
  }

  lemma {:induction false} KeepingMeansNever(c: Cleanup, s: State, actions: seq<Action>)
    requires !c.reacquired && !c.calling
    ensures NeverReleasesExposed(c, s, actions)
    decreases |actions|
  {
    if actions != [] {
      KeepingMeansNever(c, Apply(c, s, actions[0]), actions[1..]);
    }
  }

  lemma InitInv()
    ensures Inv(Init())
  {
  }

  // ---- the run that breaks it ----

  const FIRST := Claim(1, [1])
  const CHANGED := Claim(1, [2])

  /** Send, expiry, takeover by an identical retry that then fails, and a changed part. */
  function ReplacingRun(): seq<Action> {
    [Arrive(0, FIRST), Reserve(0, 1, 1000, false), Send(0), Tick(1000),
     Arrive(1, FIRST), Reserve(1, 2, 1000, false), FailBeforeUpload(1, 3),
     Arrive(2, CHANGED), Reserve(2, 4, 1000, false), Send(2)]
  }

  lemma Unroll(c: Cleanup, s: State, a: Action, rest: seq<Action>)
    ensures Run(c, s, [a] + rest) == Run(c, Apply(c, s, a), rest)
  {
    assert ([a] + rest)[1..] == rest;
  }

  function AfterFirst(): State {
    State(Some(Upload(Open, 2, map[1 := PartRecord(FIRST, 0, Reserved(1000))])), 1000, 1,
          map[0 := Worker(FIRST, Calling(0))], {FIRST})
  }

  /** The first worker's ciphertext is on its way and its lease has run out. */
  lemma FirstSends(c: Cleanup)
    ensures Run(c, Init(), ReplacingRun()[..4]) == AfterFirst()
  {
    var all := ReplacingRun();
    var s1 := Apply(c, Init(), all[0]);
    assert s1 == Init().(workers := map[0 := Worker(FIRST, Buffered)]);
    var s2 := Apply(c, s1, all[1]);
    assert s2.store == Some(Upload(Open, 2, map[1 := PartRecord(FIRST, 0, Reserved(1000))]));
    assert s2.workers == map[0 := Worker(FIRST, Owned(0, false))];
    var s3 := Apply(c, s2, all[2]);
    assert s3.workers == map[0 := Worker(FIRST, Calling(0))];
    assert Apply(c, s3, all[3]) == AfterFirst();
    assert all[..4] == [all[0]] + ([all[1]] + ([all[2]] + ([all[3]] + [])));
    Unroll(c, Init(), all[0], [all[1]] + ([all[2]] + ([all[3]] + [])));
    Unroll(c, s1, all[1], [all[2]] + ([all[3]] + []));
    Unroll(c, s2, all[2], [all[3]] + []);
    Unroll(c, s3, all[3], []);
  }

  /** The retry takes the reservation over, fails before its own upload and erases the claim. */
  lemma RetryErases(c: Cleanup)
    requires c.reacquired
    ensures var s := Run(c, AfterFirst(), ReplacingRun()[4..7]);
            s.store == Some(Upload(Open, 4, map[])) && s.sent == {FIRST} && s.now == 1000 && 2 !in s.workers
  {
    var all := ReplacingRun();
    var s1 := Apply(c, AfterFirst(), all[4]);
    var s2 := Apply(c, s1, all[5]);
    assert s1.workers[1] == Worker(FIRST, Buffered);
    assert s2.store.value.parts[1] == PartRecord(FIRST, 1, Reserved(2000));
    assert s2.store.value.parts.Keys == {1};
    assert s2.workers[1] == Worker(FIRST, Owned(1, true));
    var s3 := Apply(c, s2, all[6]);
    assert s3.store.value.parts == map[];
    assert all[4..7] == [all[4]] + ([all[5]] + ([all[6]] + []));
    Unroll(c, AfterFirst(), all[4], [all[5]] + ([all[6]] + []));
    Unroll(c, s1, all[5], [all[6]] + []);
    Unroll(c, s2, all[6], []);
  }

  lemma ChangedPartSent(c: Cleanup, s: State)
    requires s.store == Some(Upload(Open, 4, map[])) && s.now == 1000 && 2 !in s.workers
    ensures Run(c, s, ReplacingRun()[7..]).sent == s.sent + {CHANGED}
  {
    var all := ReplacingRun();
    var s1 := Apply(c, s, all[7]);
    var s2 := Apply(c, s1, all[8]);
    assert s2.workers[2] == Worker(CHANGED, Owned(s.nextToken, false));
    assert all[7..] == [all[7]] + ([all[8]] + ([all[9]] + []));
    Unroll(c, s, all[7], [all[8]] + ([all[9]] + []));
    Unroll(c, s1, all[8], [all[9]] + []);
    Unroll(c, s2, all[9], []);
  }

  lemma {:induction false} RunSplit(c: Cleanup, s: State, front: seq<Action>, back: seq<Action>)
    ensures Run(c, s, front + back) == Run(c, Run(c, s, front), back)
    decreases |front|
  {
    if front == [] {
      assert front + back == back;
    } else {
      assert (front + back)[1..] == front[1..] + back;
      RunSplit(c, Apply(c, s, front[0]), front[1..], back);
    }
  }

  /** The design's promise that changed plaintext stays rejected is not kept by this run. */
  lemma ReplacingRunUnsafe(c: Cleanup)
    requires c.reacquired
    ensures !NonceSafe(Run(c, Init(), ReplacingRun()))
  {
    var all := ReplacingRun();
    assert all == all[..4] + (all[4..7] + all[7..]);
    RunSplit(c, Init(), all[..4], all[4..7] + all[7..]);
    FirstSends(c);
    RunSplit(c, AfterFirst(), all[4..7], all[7..]);
    RetryErases(c);
    var s := Run(c, AfterFirst(), all[4..7]);
    ChangedPartSent(c, s);
    var last := Run(c, Init(), all);
    assert FIRST in last.sent && CHANGED in last.sent && FIRST != CHANGED;
  }

  /** A panic inside the backend call, and a changed part. */
  function PanickingRun(): seq<Action> {
    [Arrive(0, FIRST), Reserve(0, 1, 1000, false), Send(0), Panic(0, 2),
     Arrive(1, CHANGED), Reserve(1, 3, 1000, false), Send(1)]
  }

  lemma PanicErases(c: Cleanup)
    requires c.calling
    ensures var s := Run(c, Init(), PanickingRun()[..4]);
            s.store == Some(Upload(Open, 3, map[])) && s.sent == {FIRST} && 1 !in s.workers
  {
    var all := PanickingRun();
    var s1 := Apply(c, Init(), all[0]);
    assert s1 == Init().(workers := map[0 := Worker(FIRST, Buffered)]);
    var s2 := Apply(c, s1, all[1]);
    assert s2.store == Some(Upload(Open, 2, map[1 := PartRecord(FIRST, 0, Reserved(1000))]));
    assert s2.workers == map[0 := Worker(FIRST, Owned(0, false))];
    var s3 := Apply(c, s2, all[2]);
    assert s3.workers == map[0 := Worker(FIRST, Calling(0))];
    var s4 := Apply(c, s3, all[3]);
    assert s4.store.value.parts == map[];
    assert all[..4] == [all[0]] + ([all[1]] + ([all[2]] + ([all[3]] + [])));
    Unroll(c, Init(), all[0], [all[1]] + ([all[2]] + ([all[3]] + [])));
    Unroll(c, s1, all[1], [all[2]] + ([all[3]] + []));
    Unroll(c, s2, all[2], [all[3]] + []);
    Unroll(c, s3, all[3], []);
  }

  /** A panicking call that releases its reservation lets a changed part follow what may have been sent. */
  lemma PanickingRunUnsafe(c: Cleanup)
    requires c.calling
    ensures !NonceSafe(Run(c, Init(), PanickingRun()))
  {
    var all := PanickingRun();
    assert all == all[..4] + all[4..];
    RunSplit(c, Init(), all[..4], all[4..]);
    PanicErases(c);
    var s := Run(c, Init(), all[..4]);
    var s1 := Apply(c, s, all[4]);
    var s2 := Apply(c, s1, all[5]);
    assert s2.workers[1] == Worker(CHANGED, Owned(s.nextToken, false));
    assert all[4..] == [all[4]] + ([all[5]] + ([all[6]] + []));
    Unroll(c, s, all[4], [all[5]] + ([all[6]] + []));
    Unroll(c, s1, all[5], [all[6]] + []);
    Unroll(c, s2, all[6], []);
    var last := Run(c, Init(), all);
    assert FIRST in last.sent && CHANGED in last.sent && FIRST != CHANGED;
  }

  /**
   * All interleavings keep one plaintext a part exactly when cleanup leaves alone the reservations that were taken
   * over, which a handler can tell from the Reacquired flag of its own, and those whose backend call has begun.
   */
  lemma NonceSafetyIff(c: Cleanup)
    ensures (forall actions: seq<Action> :: NonceSafe(Run(c, Init(), actions))) <==> !c.reacquired && !c.calling
  {
    if c.reacquired {
      ReplacingRunUnsafe(c);
    } else if c.calling {
      PanickingRunUnsafe(c);
    } else {
      forall actions: seq<Action> ensures NonceSafe(Run(c, Init(), actions)) {
        InitInv();
        KeepingMeansNever(c, Init(), actions);
        RunSafe(c, Init(), actions);
      }
    }
  }

  // ---- what the lifecycle keeps ----

  /** The revision never goes back, and an upload that is not open is frozen while it stands still. */
  lemma StepRevision(c: Cleanup, s: State, a: Action)
    requires s.store.Some? && Apply(c, s, a).store.Some?
    ensures var u, v := s.store.value, Apply(c, s, a).store.value;
            && u.revision <= v.revision
            && (u.revision == v.revision && u.phase != Open ==> v == u)
  {
  }

  lemma {:induction false} RemovedForGood(c: Cleanup, s: State, actions: seq<Action>)
    requires s.store.None?
    ensures Run(c, s, actions).store.None?
    decreases |actions|
  {
    if actions != [] {
      RemovedForGood(c, Apply(c, s, actions[0]), actions[1..]);
    }
  }

  lemma {:induction false} RunRevision(c: Cleanup, s: State, actions: seq<Action>)
    requires s.store.Some? && Run(c, s, actions).store.Some?
    ensures var u, v := s.store.value, Run(c, s, actions).store.value;
            && u.revision <= v.revision
            && (u.revision == v.revision && u.phase != Open ==> v == u)
    decreases |actions|
  {
    hide Apply;
    if actions != [] {
      var t := Apply(c, s, actions[0]);
      if t.store.None? {
        RemovedForGood(c, t, actions[1..]);
      } else {
        StepRevision(c, s, actions[0]);
        RunRevision(c, t, actions[1..]);
      }
    }
  }

  lemma StepCommitted(c: Cleanup, s: State, a: Action, part: nat)
    requires s.store.Some? && Apply(c, s, a).store.Some?
    requires part in s.store.value.parts && s.store.value.parts[part].status.Committed?
    ensures part in Apply(c, s, a).store.value.parts
    ensures Apply(c, s, a).store.value.parts[part] == s.store.value.parts[part]
  {
  }

  /** A committed part keeps its claim and its ETag for as long as the upload exists. */
  lemma {:induction false} CommittedForever(c: Cleanup, s: State, actions: seq<Action>, part: nat)
    requires s.store.Some? && Run(c, s, actions).store.Some?
    requires part in s.store.value.parts && s.store.value.parts[part].status.Committed?
    ensures part in Run(c, s, actions).store.value.parts
    ensures Run(c, s, actions).store.value.parts[part] == s.store.value.parts[part]
    decreases |actions|
  {
    hide Apply;
    if actions != [] {
      var t := Apply(c, s, actions[0]);
      if t.store.None? {
        RemovedForGood(c, t, actions[1..]);
      } else {
        StepCommitted(c, s, actions[0], part);
        CommittedForever(c, t, actions[1..], part);
      }
    }
  }

  lemma {:induction false} SelectionCommitted(u: Upload, selected: seq<Selected>, previous: nat)
    requires SelectionMatches(u, selected, previous)
    ensures forall i :: 0 <= i < |selected| ==>
                          && previous < selected[i].part <= 10000
                          && selected[i].part in u.parts
                          && u.parts[selected[i].part].status.Committed?
                          && u.parts[selected[i].part].status.etag == selected[i].etag
    ensures forall i, j :: 0 <= i < j < |selected| ==> selected[i].part < selected[j].part
    decreases |selected|
  {
    if selected != [] {
      var rest := selected[1..];
      SelectionCommitted(u, rest, selected[0].part);
      assert forall i :: 0 < i < |selected| ==> selected[i] == rest[i - 1];
    }
  }

  /** What every step keeps whatever cleanup releases: committed parts were sent, records are filed by part. */
  ghost predicate Recorded(s: State) {
    CommittedWasSent(s) && StartedWasSent(s) && RecordsFiled(s)
  }

  lemma StepRecorded(c: Cleanup, s: State, a: Action)
    requires Recorded(s)
    ensures Recorded(Apply(c, s, a))
  {
    hide CommittedWasSent, StartedWasSent, RecordsFiled, Apply;
    StepCommittedSent(c, s, a);
    StepStartedSent(c, s, a);
    StepFiled(c, s, a);
  }

  lemma StepCommittedSent(c: Cleanup, s: State, a: Action)
    requires CommittedWasSent(s) && StartedWasSent(s)
    ensures CommittedWasSent(Apply(c, s, a))
  {
  }

  lemma StepStartedSent(c: Cleanup, s: State, a: Action)
    requires StartedWasSent(s)
    ensures StartedWasSent(Apply(c, s, a))
  {
    hide ReservePart, RenewPart, ReleasePart, CommitPart, BeginComplete, Transition;
  }

  lemma StepFiled(c: Cleanup, s: State, a: Action)
    requires RecordsFiled(s)
    ensures RecordsFiled(Apply(c, s, a))
  {
  }

  lemma {:induction false} RunRecorded(c: Cleanup, s: State, actions: seq<Action>)
    requires Recorded(s)
    ensures Recorded(Run(c, s, actions))
    decreases |actions|
  {
    hide Recorded, Apply;
    if actions != [] {
      StepRecorded(c, s, actions[0]);
      RunRecorded(c, Apply(c, s, actions[0]), actions[1..]);
    }
  }
}
