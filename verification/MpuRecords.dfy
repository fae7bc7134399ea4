/** What the upload's record holds after any run: who committed it, who holds a lease, and who gets through. */
module MpuRecords {
  import opened Bytes
  import opened MpuStore
  import opened MpuProtocol
  import opened MpuTheorems

  // ---- where a committed record comes from ----

  /** In s the step a is a commit, by a worker with the record's claim and token, of what the record says. */
  ghost predicate CommitsAs(s: State, a: Action, record: PartRecord) {
    && a.Commit? && a.id in s.workers
    && s.workers[a.id] == Worker(record.claim, Returned(record.token))
    && a.done == record.status
  }

  predicate HoldsCommitted(s: State, record: PartRecord) {
    && s.store.Some? && record.claim.part in s.store.value.parts && record.status.Committed?
    && s.store.value.parts[record.claim.part] == record
  }

  lemma StepCommits(c: Cleanup, s: State, a: Action, record: PartRecord)
    requires HoldsCommitted(Apply(c, s, a), record)
    ensures HoldsCommitted(s, record) || CommitsAs(s, a, record)
  {
  }

  /** A record committed in a run is exactly what some commit in that run said. */
  lemma {:induction false} RunCommits(c: Cleanup, s: State, actions: seq<Action>, record: PartRecord) returns (i: nat)
    requires HoldsCommitted(Run(c, s, actions), record) && !HoldsCommitted(s, record)
    ensures i < |actions| && CommitsAs(Run(c, s, actions[..i]), actions[i], record)
    decreases |actions|
  {
    hide Apply, CommitsAs, HoldsCommitted;
    var t := Apply(c, s, actions[0]);
    if HoldsCommitted(t, record) {
      StepCommits(c, s, actions[0], record);
      assert actions[..0] == [];
      i := 0;
    } else {
      var j := RunCommits(c, t, actions[1..], record);
      i := j + 1;
      assert actions[..i] == [actions[0]] + actions[1..][..j];
      Unroll(c, s, actions[0], actions[1..][..j]);
    }
  }

  /** Some step of the run from the start committed the record. */
  ghost predicate SaidBefore(c: Cleanup, actions: seq<Action>, record: PartRecord) {
    exists i :: 0 <= i < |actions| && CommitsAs(Run(c, Init(), actions[..i]), actions[i], record)
  }

  /** In every run every committed part was committed as it is recorded. */
  lemma CommittedAsSaid(c: Cleanup, actions: seq<Action>, part: nat)
    requires var s := Run(c, Init(), actions);
             s.store.Some? && part in s.store.value.parts && s.store.value.parts[part].status.Committed?
    ensures var record := Run(c, Init(), actions).store.value.parts[part];
            record.claim.part == part && SaidBefore(c, actions, record)
  {
    hide Run, CommitsAs;
    var record := Run(c, Init(), actions).store.value.parts[part];
    RunRecorded(c, Init(), actions);
    var i := RunCommits(c, Init(), actions, record);
  }

  /**
   * Complete is atomic over interleavings: in every run, under every cleanup, a finalization accepted at the
   * revision that BeginComplete returned finds exactly the parts that were snapshotted, each one sent, committed
   * as some earlier commit said, and in ascending order.
   */
  lemma CompletionSeesSnapshot(c: Cleanup, before: seq<Action>, selected: seq<Selected>, revision: nat,
                               between: seq<Action>)
    requires BeginComplete(Run(c, Init(), before).store, selected, revision).1
    requires var t := Run(c, Apply(c, Run(c, Init(), before), Complete(selected, revision)), between);
             Transition(t.store, Completing, Completed, revision + 1).1
    ensures var s := Run(c, Init(), before);
            var t := Run(c, Apply(c, s, Complete(selected, revision)), between);
            && t.store.value.parts == s.store.value.parts
            && (forall i :: 0 <= i < |selected| ==> selected[i].part in s.store.value.parts)
            && Snapshot(t.store.value, selected) == Snapshot(s.store.value, selected)
            && (forall i :: 0 <= i < |selected| ==>
                              && Snapshot(t.store.value, selected)[i].status.Committed?
                              && Snapshot(t.store.value, selected)[i].claim.part == selected[i].part
                              && Snapshot(t.store.value, selected)[i].claim in s.sent
                              && SaidBefore(c, before, Snapshot(t.store.value, selected)[i]))
            && (forall i, j :: 0 <= i < j < |selected| ==> selected[i].part < selected[j].part)
  {
    hide Run, SaidBefore;
    var s := Run(c, Init(), before);
    RunRecorded(c, Init(), before);
    forall i | 0 <= i < |selected| && selected[i].part in s.store.value.parts
               && s.store.value.parts[selected[i].part].status.Committed?
      ensures SaidBefore(c, before, s.store.value.parts[selected[i].part])
    {
      CommittedAsSaid(c, before, selected[i].part);
    }
    SelectionCommitted(s.store.value, selected, 0);
    RunRevision(c, Apply(c, s, Complete(selected, revision)), between);
  }

  // ---- commits and completions that take effect ----

  /** A worker whose reservation still stands commits, and changes nothing else. */
  lemma StandingReservationCommits(c: Cleanup, s: State, id: nat, done: Status)
    requires s.store.Some? && s.store.value.phase == Open && done.Committed?
    requires id in s.workers && s.workers[id].stage.Returned?
    requires var w := s.workers[id];
             && Owns(s.store.value, w.claim.part, w.stage.token)
             && s.store.value.parts[w.claim.part].claim == w.claim
    ensures var u, w := s.store.value, s.workers[id];
            var t := Apply(c, s, Commit(id, u.revision, done));
            && t == s.(store := t.store) && t.store.Some?
            && t.store.value.phase == Open && t.store.value.revision > u.revision
            && t.store.value.parts == u.parts[w.claim.part := PartRecord(w.claim, w.stage.token, done)]
  {
  }

  function UploadSteps(id: nat, claim: Claim, revision: nat, lease: nat, done: Status): seq<Action> {
    [Arrive(id, claim), Reserve(id, revision, lease, false), Send(id), Return(id), Commit(id, revision + 1, done)]
  }

  /** A new part of an open upload that nobody disturbs is reserved, sent and committed. */
  lemma UndisturbedUploadCommits(c: Cleanup, s: State, id: nat, claim: Claim, lease: nat, done: Status)
    requires s.store.Some? && s.store.value.phase == Open && claim.part !in s.store.value.parts
    requires id !in s.workers && done.Committed?
    ensures var u, t := s.store.value, Run(c, s, UploadSteps(id, claim, s.store.value.revision, lease, done));
            var record := PartRecord(claim, s.nextToken, done);
            && t.store == Some(Upload(Open, u.revision + 2, u.parts[claim.part := record]))
            && t.sent == s.sent + {claim}
  {
    var u, all := s.store.value, UploadSteps(id, claim, s.store.value.revision, lease, done);
    var s1 := Apply(c, s, all[0]);
    var s2 := Apply(c, s1, all[1]);
    assert s2.store.value.parts == u.parts[claim.part := PartRecord(claim, s.nextToken, Reserved(s.now + lease))];
    assert s2.workers[id] == Worker(claim, Owned(s.nextToken, false));
    var s3 := Apply(c, s2, all[2]);
    assert s3.workers[id] == Worker(claim, Calling(s.nextToken));
    var s4 := Apply(c, s3, all[3]);
    StandingReservationCommits(c, s4, id, done);
    var s5 := Apply(c, s4, all[4]);
    assert s5.store.value.parts == u.parts[claim.part := PartRecord(claim, s.nextToken, done)];
    hide Apply;
    assert all == [all[0]] + ([all[1]] + ([all[2]] + ([all[3]] + ([all[4]] + []))));
    Unroll(c, s, all[0], [all[1]] + ([all[2]] + ([all[3]] + ([all[4]] + []))));
    Unroll(c, s1, all[1], [all[2]] + ([all[3]] + ([all[4]] + [])));
    Unroll(c, s2, all[2], [all[3]] + ([all[4]] + []));
    Unroll(c, s3, all[3], [all[4]] + []);
    Unroll(c, s4, all[4], []);
  }

  /** The selections that match, said part by part. */
  ghost predicate GoodSelection(u: Upload, selected: seq<Selected>, previous: nat) {
    && (forall i :: 0 <= i < |selected| ==>
                      && previous < selected[i].part <= 10000
                      && selected[i].part in u.parts
                      && u.parts[selected[i].part].status.Committed?
                      && u.parts[selected[i].part].status.etag == selected[i].etag)
    && (forall i, j :: 0 <= i < j < |selected| ==> selected[i].part < selected[j].part)
  }

  lemma {:induction false} SelectionIff(u: Upload, selected: seq<Selected>, previous: nat)
    ensures SelectionMatches(u, selected, previous) <==> GoodSelection(u, selected, previous)
    decreases |selected|
  {
    if selected != [] {
      var rest := selected[1..];
      SelectionIff(u, rest, selected[0].part);
      if SelectionMatches(u, selected, previous) {
        SelectionCommitted(u, selected, previous);
      }
      if GoodSelection(u, selected, previous) {
        assert forall i :: 0 <= i < |rest| ==> rest[i] == selected[i + 1];
      }
    }
  }

  /** Completion begins exactly for good selections of an open upload at its revision, and can then be finished. */
  lemma CompletionBeginsIff(c: Cleanup, s: State, selected: seq<Selected>, revision: nat)
    ensures var t, begun := Apply(c, s, Complete(selected, revision)), BeginComplete(s.store, selected, revision).1;
            if s.store.Some? && s.store.value.phase == Open && s.store.value.revision == revision
               && selected != [] && GoodSelection(s.store.value, selected, 0)
            then && begun
                 && t.store == Some(Upload(Completing, revision + 1, s.store.value.parts))
                 && Apply(c, t, Lifecycle(Completing, Completed, revision + 1)).store
                    == Some(Upload(Completed, revision + 2, s.store.value.parts))
            else !begun && t == s
  {
    if s.store.Some? {
      SelectionIff(s.store.value, selected, 0);
    }
    hide SelectionMatches, GoodSelection;
  }

  /** A completed or aborted upload never changes again. */
  lemma {:induction false} FinalForever(c: Cleanup, s: State, actions: seq<Action>)
    requires s.store.Some? && (s.store.value.phase == Completed || s.store.value.phase == Aborted)
    ensures var t := Run(c, s, actions); t.store.None? || t.store == s.store
    decreases |actions|
  {
    if actions != [] {
      FinalStep(c, s, actions[0]);
      var t := Apply(c, s, actions[0]);
      hide Apply;
      if t.store.None? {
        RemovedForGood(c, t, actions[1..]);
      } else {
        FinalForever(c, t, actions[1..]);
      }
    }
  }

  lemma FinalStep(c: Cleanup, s: State, a: Action)
    requires s.store.Some? && (s.store.value.phase == Completed || s.store.value.phase == Aborted)
    ensures var t := Apply(c, s, a); t.store.None? || t.store == s.store
  {
    hide SelectionMatches;
  }

  // ---- leases ----

  function TokenOf(w: Worker): Option<nat> {
    match w.stage
    case Owned(t, _) => Some(t)
    case Calling(t) => Some(t)
    case Returned(t) => Some(t)
    case _ => None
  }

  predicate SameToken(v: Worker, w: Worker) {
    TokenOf(v).Some? && TokenOf(v) == TokenOf(w)
  }

  /** Whatever cleanup releases, a token belongs to one worker at most, and the next one is unused. */
  ghost predicate TokensUnique(s: State) {
    && (forall i :: i in s.workers && TokenOf(s.workers[i]).Some? ==> TokenOf(s.workers[i]).value < s.nextToken)
    && (forall i, j :: i in s.workers && j in s.workers && SameToken(s.workers[i], s.workers[j]) ==> i == j)
  }

  /** s to t: only worker id changed, and it keeps its token, drops it or takes the next one. */
  lemma OneWorkerTokens(s: State, t: State, id: nat)
    requires TokensUnique(s) && id in t.workers && t.workers.Keys == s.workers.Keys + {id}
    requires forall i :: i in s.workers && i != id ==> t.workers[i] == s.workers[i]
    requires || TokenOf(t.workers[id]) == None
             || (id in s.workers && TokenOf(t.workers[id]) == TokenOf(s.workers[id]))
             || (TokenOf(t.workers[id]) == Some(s.nextToken) && t.nextToken == s.nextToken + 1)
    requires t.nextToken >= s.nextToken
    ensures TokensUnique(t)
  {
  }

  lemma StepTokens(c: Cleanup, s: State, a: Action)
    requires TokensUnique(s)
    ensures TokensUnique(Apply(c, s, a))
  {
    hide ReservePart, RenewPart, ReleasePart, CommitPart, BeginComplete, Transition, TokensUnique;
    var t := Apply(c, s, a);
    if t.workers == s.workers && t.nextToken == s.nextToken {
      SameWorkersTokens(s, t);
    } else {
      OneWorkerTokens(s, t, a.id);
    }
  }

  lemma SameWorkersTokens(s: State, t: State)
    requires TokensUnique(s) && t.workers == s.workers && t.nextToken == s.nextToken
    ensures TokensUnique(t)
  {
  }

  lemma {:induction false} RunTokens(c: Cleanup, s: State, actions: seq<Action>)
    requires TokensUnique(s)
    ensures TokensUnique(Run(c, s, actions))
    decreases |actions|
  {
    hide TokensUnique, Apply;
    if actions != [] {
      StepTokens(c, s, actions[0]);
      RunTokens(c, Apply(c, s, actions[0]), actions[1..]);
    }
  }

  /** Nobody but worker id has the token, now or later. */
  ghost predicate OnlyHolder(s: State, id: nat, token: nat) {
    token < s.nextToken && forall i :: i in s.workers && TokenOf(s.workers[i]) == Some(token) ==> i == id
  }

  lemma StepHolder(c: Cleanup, s: State, a: Action, id: nat, token: nat)
    requires OnlyHolder(s, id, token)
    ensures OnlyHolder(Apply(c, s, a), id, token)
  {
    hide ReservePart, RenewPart, ReleasePart, CommitPart, BeginComplete, Transition;
  }

  predicate HasRecord(s: State, record: PartRecord) {
    && s.store.Some? && record.claim.part in s.store.value.parts
    && s.store.value.parts[record.claim.part] == record
  }

  /** The steps in which a worker uses its token on the record. */
  predicate UsesToken(a: Action, id: nat) {
    (a.Renew? || a.FailBeforeUpload? || a.Commit? || a.Panic?) && a.id == id
  }

  predicate NeverUses(actions: seq<Action>, id: nat) {
    forall i :: 0 <= i < |actions| ==> !UsesToken(actions[i], id)
  }

  lemma LeaseStep(c: Cleanup, s: State, a: Action, id: nat, record: PartRecord)
    requires OnlyHolder(s, id, record.token) && HasRecord(s, record) && record.status.Reserved?
    requires s.now < record.status.lease && !UsesToken(a, id)
    ensures Apply(c, s, a).store.None? || HasRecord(Apply(c, s, a), record)
  {
    hide SelectionMatches;
  }

  lemma {:induction false} LeaseRun(c: Cleanup, s: State, actions: seq<Action>, id: nat, record: PartRecord)
    requires OnlyHolder(s, id, record.token) && HasRecord(s, record) && record.status.Reserved?
    requires NeverUses(actions, id) && Run(c, s, actions).now < record.status.lease
    ensures s.now < record.status.lease
    ensures Run(c, s, actions).store.None? || HasRecord(Run(c, s, actions), record)
    decreases |actions|
  {
    hide OnlyHolder, HasRecord, Apply;
    if actions != [] {
      var t := Apply(c, s, actions[0]);
      TimeOnlyGrows(c, s, actions);
      StepHolder(c, s, actions[0], id, record.token);
      LeaseStep(c, s, actions[0], id, record);
      if t.store.None? {
        RemovedForGood(c, t, actions[1..]);
      } else {
        LeaseRun(c, t, actions[1..], id, record);
      }
    }
  }

  lemma StepTime(c: Cleanup, s: State, a: Action)
    ensures Apply(c, s, a).now == s.now + if a.Tick? then a.ms else 0
  {
    hide ReservePart, RenewPart, ReleasePart, CommitPart, BeginComplete, Transition;
  }

  lemma {:induction false} TimeOnlyGrows(c: Cleanup, s: State, actions: seq<Action>)
    ensures s.now <= Run(c, s, actions).now
    decreases |actions|
  {
    hide Apply;
    if actions != [] {
      StepTime(c, s, actions[0]);
      TimeOnlyGrows(c, Apply(c, s, actions[0]), actions[1..]);
    }
  }

  /**
   * A lease is exclusive: in every run, under every cleanup, the reservation of a worker stays as it is until its
   * lease has passed or the worker itself renews, commits or releases it, or the whole upload disappears.
   */
  lemma LeaseIsExclusive(c: Cleanup, before: seq<Action>, between: seq<Action>, id: nat, record: PartRecord)
    requires var s := Run(c, Init(), before);
             && id in s.workers && TokenOf(s.workers[id]) == Some(record.token)
             && HasRecord(s, record) && record.status.Reserved?
    requires NeverUses(between, id) && Run(c, Init(), before + between).now < record.status.lease
    ensures var t := Run(c, Init(), before + between);
            t.store.None? || HasRecord(t, record)
  {
    hide Run, HasRecord, NeverUses;
    RunTokens(c, Init(), before);
    RunSplit(c, Init(), before, between);
    var s := Run(c, Init(), before);
    assert OnlyHolder(s, id, record.token);
    LeaseRun(c, s, between, id, record);
  }

  // ---- what the scripts answer ----

  /** What reserving answers, by what the record holds; only a fresh or taken-over reservation changes it. */
  lemma ReserveReplies(s: Store, claim: Claim, token: nat, revision: nat, now: int, lease: nat)
    ensures var (t, code) := ReservePart(s, claim, token, revision, now, lease);
            var taken := PartRecord(claim, token, Reserved(now + lease));
            if s.None? then t == s && code == NotFound
            else if s.value.phase != Open then t == s && code == WrongPhase
            else if s.value.revision != revision then t == s && code == Conflict
            else if claim.part !in s.value.parts then
              code == Fresh && t == Some(Upload(Open, revision + 1, s.value.parts[claim.part := taken]))
            else
              match s.value.parts[claim.part]
              case PartRecord(other, _, Committed(etag, _, _)) =>
                t == s && code == if other == claim then AlreadyDone(etag) else Mismatch
              case PartRecord(other, _, Reserved(until)) =>
                if other != claim then t == s && code == Mismatch
                else if now < until then t == s && code == InProgress
                else code == Reacquired && t == Some(Upload(Open, revision + 1, s.value.parts[claim.part := taken]))
  {
  }

  predicate OpenAt(s: Store, revision: nat) {
    s.Some? && s.value.phase == Open && s.value.revision == revision
  }

  /** A commit that reports success has left exactly that record, and one that does not has changed nothing. */
  lemma CommitReplies(s: Store, claim: Claim, token: nat, done: Status, revision: nat)
    requires done.Committed?
    ensures var (t, ok) := CommitPart(s, claim, token, done, revision);
            var record := PartRecord(claim, token, done);
            && (ok ==> t.Some? && claim.part in t.value.parts && t.value.parts[claim.part] == record)
            && (ok ==> t.value.parts - {claim.part} == s.value.parts - {claim.part})
            && (!ok ==> t == s)
            && (ok <==> OpenAt(s, revision) && claim.part in s.value.parts
                        && var was := s.value.parts[claim.part];
                           was.claim == claim && was.token == token && (was.status.Reserved? || was.status == done))
  {
  }

  /** Renewing and releasing succeed exactly for the holder of a reservation in an open upload. */
  lemma HolderReplies(s: Store, part: nat, token: nat, revision: nat, now: int, lease: nat)
    ensures var holds := OpenAt(s, revision) && part in s.value.parts
                         && s.value.parts[part].status.Reserved? && s.value.parts[part].token == token;
            && (var (t, ok) := RenewPart(s, part, token, revision, now, lease);
                ok == holds && (!ok ==> t == s)
                && (ok ==> t == Some(Upload(Open, revision, s.value.parts[part :=
                                       PartRecord(s.value.parts[part].claim, token, Reserved(now + lease))]))))
            && (var (t, ok) := ReleasePart(s, part, token, revision);
                ok == holds && (!ok ==> t == s)
                && (ok ==> t == Some(Upload(Open, revision + 1, s.value.parts - {part}))))
  {
  }

  /** A phase change that reports success has happened, at its revision, and left the parts alone. */
  lemma TransitionReplies(s: Store, from: Phase, to: Phase, revision: nat)
    ensures var (t, ok) := Transition(s, from, to, revision);
            && (ok <==> s.Some? && s.value.phase == from && s.value.revision == revision)
            && t == if ok then Some(Upload(to, revision + 1, s.value.parts)) else s
  {
  }

  /** The phases an upload goes through. */
  const PHASE_MOVES: set<(Phase, Phase)> :=
    {(Open, Completing), (Open, Aborting), (Completing, Open), (Aborting, Open), (Completing, Completed),
     (Aborting, Aborted)}

  /** No step leaves the phases' order, and every move in it is made by its own request at the right revision. */
  lemma PhaseMoves(c: Cleanup, s: State, a: Action)
    requires s.store.Some?
    ensures var u, t := s.store.value, Apply(c, s, a);
            && (t.store.Some? && t.store.value.phase != u.phase ==> (u.phase, t.store.value.phase) in PHASE_MOVES)
            && (a.Lifecycle? && a.from == u.phase && a.revision == u.revision && a.from != a.to
                && (a.from, a.to) in PHASE_MOVES && a.to != Completing ==>
                  t.store == Some(Upload(a.to, u.revision + 1, u.parts)))
  {
    hide SelectionMatches;
  }

  // ---- workers ----

  function Rank(stage: Stage): nat {
    match stage
    case Buffered => 0
    case Owned(_, _) => 1
    case Calling(_) => 2
    case Returned(_) => 3
    case Finished => 4
  }

  /** The step is one that worker id can take where it is. */
  predicate Enabled(s: State, a: Action, id: nat)
    requires id in s.workers
  {
    match a
    case Reserve(i, _, _, _) => i == id && s.workers[id].stage.Buffered?
    case FailBeforeUpload(i, _) => i == id && s.workers[id].stage.Owned?
    case Send(i) => i == id && s.workers[id].stage.Owned?
    case Return(i) => i == id && s.workers[id].stage.Calling?
    case Panic(i, _) => i == id && s.workers[id].stage.Calling?
    case Crash(i) => i == id && !s.workers[id].stage.Finished?
    case _ => false
  }

  /**
   * A worker keeps its claim and never goes back: each of its steps takes it on, except a reservation that found
   * another revision; a failed, crashed or refused worker is finished, and a finished one changes nothing.
   */
  lemma WorkersOnlyAdvance(c: Cleanup, s: State, a: Action, id: nat)
    requires id in s.workers
    ensures var t := Apply(c, s, a);
            && id in t.workers && t.workers[id].claim == s.workers[id].claim
            && (if Enabled(s, a, id) then Advances(s, t, a, id) else t.workers[id] == s.workers[id])
  {
    hide RenewPart, ReleasePart, CommitPart, BeginComplete, Transition;
  }

  predicate Advances(s: State, t: State, a: Action, id: nat)
    requires id in s.workers && id in t.workers
  {
    var before, after := s.workers[id].stage, t.workers[id].stage;
    match a
    case Reserve(_, revision, lease, lost) =>
      var (_, code) := ReservePart(s.store, s.workers[id].claim, s.nextToken, revision, s.now, lease);
      if code == Conflict then after == before
      else if lost || !(code.Fresh? || code.Reacquired?) then after == Finished
      else after == Owned(s.nextToken, code.Reacquired?)
    case Send(_) => Rank(after) == Rank(before) + 1
    case Return(_) => Rank(after) == Rank(before) + 1
    case _ => after == Finished
  }
}
