/** Gateway-mode CORS policies across the creation and deletion of their buckets. */
module CorsLifecycle {
  /** A call may be carried out, be refused, or be carried out and still be reported as failed. */
  datatype Outcome = Done | NotDone | DoneButFailed

  predicate TookEffect(o: Outcome) { o != NotDone }

  predicate Succeeded(o: Outcome) { o == Done }

  /** A policy and the incarnation of its bucket that it was written in. */
  datatype Policy = Policy(text: string, epoch: nat)

  /** epochs counts the incarnations of a bucket. */
  datatype State = State(live: set<string>, epochs: map<string, nat>, policies: map<string, Policy>)

  /** A request with the outcomes of the calls it may make; reachable: the existence probe gets an answer. */
  datatype Request =
    | CreateBucket(bucket: string, reachable: bool, cleanup: Outcome, backend: Outcome)
    | DeleteBucket(bucket: string, backend: Outcome, cleanup: Outcome)
    | PutCors(bucket: string, reachable: bool, text: string, valid: bool, store: Outcome)
    | DeleteCors(bucket: string, reachable: bool, store: Outcome)

  function Epoch(s: State, b: string): nat { if b in s.epochs then s.epochs[b] else 0 }

  /** The backend creates the bucket unless it exists. */
  function Created(s: State, b: string, o: Outcome): State {
    if TookEffect(o) && b !in s.live
    then State(s.live + {b}, s.epochs[b := Epoch(s, b) + 1], s.policies) else s
  }

  function Dropped(s: State, b: string, o: Outcome): State {
    if TookEffect(o) then State(s.live, s.epochs, s.policies - {b}) else s
  }

  /** One handler, run to its end. */
  function Handle(s: State, r: Request): State {
    match r
    case CreateBucket(b, reachable, cleanup, backend) =>
      if !reachable then s
      else if b in s.live then Created(s, b, backend)
      else
        var t := Dropped(s, b, cleanup);
        if Succeeded(cleanup) then Created(t, b, backend) else t
    case DeleteBucket(b, backend, cleanup) =>
      var t := if TookEffect(backend) then State(s.live - {b}, s.epochs, s.policies) else s;
      if Succeeded(backend) then Dropped(t, b, cleanup) else t
    case PutCors(b, reachable, text, valid, store) =>
      if !reachable || b !in s.live || !valid || !TookEffect(store) then s
      else State(s.live, s.epochs, s.policies[b := Policy(text, Epoch(s, b))])
    case DeleteCors(b, reachable, store) =>
      if !reachable || b !in s.live then s else Dropped(s, b, store)
  }

  function Run(s: State, requests: seq<Request>): State
    decreases |requests|
  {
    if requests == [] then s else Run(Handle(s, requests[0]), requests[1..])
  }

  /** The policy of a bucket that exists was written since the bucket was last created. */
  predicate Current(s: State) {
    forall b :: b in s.live && b in s.policies ==> s.policies[b].epoch == Epoch(s, b)
  }

  /** Whatever fails, and whatever fails after it took effect, no policy outlives its bucket. */
  lemma {:induction false} PoliciesStayCurrent(s: State, requests: seq<Request>)
    requires Current(s)
    ensures Current(Run(s, requests))
    decreases |requests|
  {
    if requests != [] {
      assert Current(Handle(s, requests[0]));
      PoliciesStayCurrent(Handle(s, requests[0]), requests[1..]);
    }
  }

  /** A bucket comes into being with a new incarnation and goes only by its own requests. */
  lemma HandledBucket(s: State, r: Request, b: string)
    ensures var t := Handle(s, r);
            var made := r.CreateBucket? && r.bucket == b && r.reachable && r.cleanup == Done && r.backend != NotDone;
            var gone := r.DeleteBucket? && r.bucket == b && r.backend != NotDone;
            && (b in t.live <==> (b in s.live && !gone) || made)
            && Epoch(t, b) == Epoch(s, b) + if b in t.live && b !in s.live then 1 else 0
  {
  }

  // ---- which policy is stored ----

  /** The request reaches the store with a valid policy for a bucket that exists, and the store keeps it. */
  predicate Writes(s: State, r: Request, b: string) {
    r.PutCors? && r.bucket == b && r.reachable && b in s.live && r.valid && r.store != NotDone
  }

  /** The request has the policy of b dropped: by name, with its bucket, or before its bucket is made again. */
  predicate Drops(s: State, r: Request, b: string) {
    match r
    case CreateBucket(c, reachable, cleanup, _) => c == b && reachable && b !in s.live && cleanup != NotDone
    case DeleteBucket(c, backend, cleanup) => c == b && backend == Done && cleanup != NotDone
    case DeleteCors(c, reachable, store) => c == b && reachable && b in s.live && store != NotDone
    case _ => false
  }

  lemma HandledPolicy(s: State, r: Request, b: string)
    ensures var t := Handle(s, r);
            if Writes(s, r, b) then b in t.policies && t.policies[b].text == r.text
            else if Drops(s, r, b) then b !in t.policies
            else (b in t.policies <==> b in s.policies) && (b in s.policies ==> t.policies[b] == s.policies[b])
  {
  }

  /** No request of the run writes or drops the policy of b. */
  ghost predicate LeavesAlone(s: State, requests: seq<Request>, b: string)
    decreases |requests|
  {
    requests == [] ||
    (!Writes(s, requests[0], b) && !Drops(s, requests[0], b) && LeavesAlone(Handle(s, requests[0]), requests[1..], b))
  }

  lemma {:induction false} PolicyStays(s: State, requests: seq<Request>, b: string)
    requires LeavesAlone(s, requests, b)
    ensures var t := Run(s, requests);
            (b in t.policies <==> b in s.policies) && (b in s.policies ==> t.policies[b] == s.policies[b])
    decreases |requests|
  {
    if requests != [] {
      HandledPolicy(s, requests[0], b);
      PolicyStays(Handle(s, requests[0]), requests[1..], b);
    }
  }

  lemma Unroll(s: State, r: Request, rest: seq<Request>)
    ensures Run(s, [r] + rest) == Run(Handle(s, r), rest)
  {
    assert ([r] + rest)[1..] == rest;
  }

  /** Request i of the run wrote what is stored, and nothing since then touched it. */
  ghost predicate LastWrite(s: State, requests: seq<Request>, i: nat, b: string) {
    && i < |requests|
    && Writes(Run(s, requests[..i]), requests[i], b)
    && LeavesAlone(Handle(Run(s, requests[..i]), requests[i]), requests[i + 1..], b)
  }

  /**
   * After any run the policy of a bucket is the text of the last request that wrote one and was not undone; without
   * such a request there is none, if there was none before.
   */
  lemma {:induction false} PolicyIsLastWritten(s: State, requests: seq<Request>, b: string)
    requires b !in s.policies
    ensures b in Run(s, requests).policies <==> exists i: nat :: LastWrite(s, requests, i, b)
    ensures forall i: nat :: LastWrite(s, requests, i, b) ==>
      b in Run(s, requests).policies && Run(s, requests).policies[b].text == requests[i].text
  {
    forall i: nat | LastWrite(s, requests, i, b)
      ensures b in Run(s, requests).policies && Run(s, requests).policies[b].text == requests[i].text
    {
      WrittenStays(s, requests, i, b);
    }
    if b in Run(s, requests).policies {
      var i := FindWrite(s, requests, b);
    }
  }

  lemma {:induction false} RunSplit(s: State, front: seq<Request>, back: seq<Request>)
    ensures Run(s, front + back) == Run(Run(s, front), back)
    decreases |front|
  {
    if front == [] {
      assert front + back == back;
    } else {
      assert (front + back)[1..] == front[1..] + back;
      RunSplit(Handle(s, front[0]), front[1..], back);
    }
  }

  lemma WrittenStays(s: State, requests: seq<Request>, i: nat, b: string)
    requires LastWrite(s, requests, i, b)
    ensures b in Run(s, requests).policies && Run(s, requests).policies[b].text == requests[i].text
  {
    var t := Run(s, requests[..i]);
    assert requests == requests[..i] + ([requests[i]] + requests[i + 1..]);
    RunSplit(s, requests[..i], [requests[i]] + requests[i + 1..]);
    Unroll(t, requests[i], requests[i + 1..]);
    HandledPolicy(t, requests[i], b);
    PolicyStays(Handle(t, requests[i]), requests[i + 1..], b);
  }

  lemma {:induction false} FindWrite(s: State, requests: seq<Request>, b: string) returns (i: nat)
    requires b in Run(s, requests).policies && (b in s.policies ==> !LeavesAlone(s, requests, b))
    ensures LastWrite(s, requests, i, b)
    decreases |requests|
  {
    hide Handle;
    var r, rest := requests[0], requests[1..];
    var t := Handle(s, r);
    HandledPolicy(s, r, b);
    if b in t.policies && LeavesAlone(t, rest, b) {
      i := 0;
      assert requests[..0] == [];
    } else {
      var j := FindWrite(t, rest, b);
      i := j + 1;
      assert requests[..i] == [r] + rest[..j] && requests[i + 1..] == rest[j + 1..];
      Unroll(s, r, rest[..j]);
    }
  }
}
