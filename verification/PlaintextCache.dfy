/** The plaintext cache, filled from complete responses and validated by the backend's ETag on every use. */
module PlaintextCache {
  import opened Bytes

  // ---- capturing a response body ----

  /** A response on its way: bytes sent, and what the bounded capture beside it holds. */
  datatype Fill = Fill(sent: nat, data: seq<byte>, overflow: bool)

  const START := Fill(0, [], false)

  /** p is sent, and kept unless that would take the capture over its limit, now or before. */
  function Offered(f: Fill, p: seq<byte>, limit: int): Fill {
    var overflow := f.overflow || |f.data| + |p| > limit;
    Fill(f.sent + |p|, if overflow then f.data else f.data + p, overflow)
  }

  /** Up to n more bytes of the plaintext. */
  function Pumped(content: seq<byte>, f: Fill, n: nat, limit: int): Fill
    requires f.sent <= |content|
  {
    Offered(f, content[f.sent..f.sent + Min(n, |content| - f.sent)], limit)
  }

  predicate Eligible(plainSize: int, limit: int) {
    0 <= plainSize <= limit && limit > 0
  }

  /** The guard before a capture is stored. */
  predicate Complete(f: Fill, plainSize: int) {
    !f.overflow && f.sent == plainSize && |f.data| == plainSize
  }

  /** What a capture that did not overflow holds. */
  predicate Genuine(content: seq<byte>, f: Fill) {
    f.sent <= |content| && (!f.overflow ==> f.data == content[..f.sent])
  }

  lemma PumpKeeps(content: seq<byte>, f: Fill, n: nat, limit: int)
    requires Genuine(content, f)
    ensures Genuine(content, Pumped(content, f, n, limit))
  {
    var k := Min(n, |content| - f.sent);
    assert content[..f.sent] + content[f.sent..f.sent + k] == content[..f.sent + k];
  }

  class Capture {
    const limit: int
    var data: seq<byte>
    var overflow: bool

    constructor (limit: int)
      ensures data == [] && !overflow && this.limit == limit
    {
      this.limit, data, overflow := limit, [], false;
    }

    /** Keeps all of what is offered, or gives up for good. */
    method Write(p: seq<byte>)
      modifies this
      ensures overflow == (old(overflow) || |old(data)| + |p| > limit)
      ensures data == if overflow then old(data) else old(data) + p
    {
      if overflow || |data| + |p| > limit {
        overflow := true;
        return;
      }
      if |p| == 0 {
        return;
      }
      data := data + p;
    }
  }

  function PumpAll(content: seq<byte>, f: Fill, cuts: seq<nat>, limit: int): (g: Fill)
    requires Genuine(content, f)
    ensures Genuine(content, g)
    decreases |cuts|
  {
    if cuts == [] then f
    else
      var k := |cuts| - 1;
      PumpKeeps(content, PumpAll(content, f, cuts[..k], limit), cuts[k], limit);
      Pumped(content, PumpAll(content, f, cuts[..k], limit), cuts[k], limit)
  }

  lemma NoCuts(content: seq<byte>, cuts: seq<nat>, limit: int)
    ensures PumpAll(content, START, cuts[..0], limit) == START
  {
  }

  lemma PumpNext(content: seq<byte>, cuts: seq<nat>, i: nat, limit: int)
    requires i < |cuts|
    ensures PumpAll(content, START, cuts[..i], limit).sent <= |content|
    ensures PumpAll(content, START, cuts[..i + 1], limit)
         == Pumped(content, PumpAll(content, START, cuts[..i], limit), cuts[i], limit)
  {
    assert cuts[..i + 1][..i] == cuts[..i];
  }

  /** What the capture of a stream holds, and when it overflows. */
  lemma {:induction false} CaptureIs(content: seq<byte>, cuts: seq<nat>, limit: int)
    ensures var f := PumpAll(content, START, cuts, limit);
            && f.sent <= |content|
            && (!f.overflow ==> f.data == content[..f.sent])
            && (f.sent <= limit ==> !f.overflow)
    decreases |cuts|
  {
    if cuts != [] {
      CaptureIs(content, cuts[..|cuts| - 1], limit);
    }
  }

  /**
   * Streams a body through the capture in any cuts, up to its end or a failure. Whatever size was declared, a
   * capture is stored exactly when that many bytes were sent without failure and fit; it is what was sent.
   */
  method Stream(content: seq<byte>, cuts: seq<nat>, failed: bool, plainSize: int, limit: int)
    returns (sent: nat, cached: Option<seq<byte>>)
    ensures var f := PumpAll(content, START, cuts, limit);
            && sent == f.sent
            && cached == if Eligible(plainSize, limit) && !failed && Complete(f, plainSize) then Some(f.data) else None
    ensures sent <= |content|
    ensures cached.Some? <==> 0 <= plainSize <= limit && limit > 0 && !failed && sent == plainSize
    ensures cached.Some? ==> cached.value == content[..sent]
  {
    hide PumpAll, Genuine;
    var capture := new Capture(limit);
    sent := 0;
    NoCuts(content, cuts, limit);
    for i := 0 to |cuts|
      invariant fresh(capture) && capture.limit == limit
      invariant Fill(sent, capture.data, capture.overflow) == PumpAll(content, START, cuts[..i], limit)
    {
      PumpNext(content, cuts, i, limit);
      var n := Min(cuts[i], |content| - sent);
      capture.Write(content[sent..sent + n]);
      sent := sent + n;
    }
    assert cuts[..|cuts|] == cuts;
    CaptureIs(content, cuts, limit);
    var complete := Complete(Fill(sent, capture.data, capture.overflow), plainSize);
    return sent, if Eligible(plainSize, limit) && !failed && complete then Some(capture.data) else None;
  }

  // ---- interleaved requests ----

  /** A cached plaintext with its length and the ETag of the version it came from. */
  datatype Entry = Entry(etag: string, data: seq<byte>, size: int)

  /**
   * plain is what an ETag identifies, declared the length its metadata gives; cutShort: a stream may end early
   * without an error.
   */
  datatype World = World(plain: string -> seq<byte>, declared: string -> int, cutShort: bool)

  datatype Worker =
    | Idle
    | Filling(key: string, etag: string, limit: int, fill: Fill)
    | Checked(key: string, etag: string)

  datatype State = State(backend: map<string, string>, cache: map<string, Entry>, workers: map<nat, Worker>)

  const INITIAL := State(map[], map[], map[])

  datatype Step =
    | Invalidate(key: string)
    | Put(key: string, etag: string)
    | Remove(key: string)
    | StartFill(worker: nat, key: string, limit: int)
    | Pump(worker: nat, n: nat)
    | Fail(worker: nat)
    | FinishFill(worker: nat)
    | Head(worker: nat, key: string)
    | Serve(worker: nat)

  function At(s: State, w: nat): Worker { if w in s.workers then s.workers[w] else Idle }

  function SetWorker(s: State, w: nat, worker: Worker): State {
    State(s.backend, s.cache, s.workers[w := worker])
  }

  /** The stream has ended without an error. */
  predicate Ended(world: World, w: Worker) {
    w.Filling? && (world.cutShort || w.fill.sent == |world.plain(w.etag)|)
  }

  /** The entry a finished fill leaves, if the capture is the declared length of a version with an ETag. */
  function Filled(world: World, w: Worker): Option<Entry>
    requires w.Filling?
  {
    var size := world.declared(w.etag);
    if Eligible(size, w.limit) && Complete(w.fill, size) && w.etag != "" then Some(Entry(w.etag, w.fill.data, size))
    else None
  }

  predicate Usable(entry: Entry, etag: string) {
    entry.etag != "" && entry.etag == etag && |entry.data| == entry.size
  }

  function Apply(world: World, s: State, step: Step): State {
    match step
    case Invalidate(k) => State(s.backend, s.cache - {k}, s.workers)
    case Put(k, e) => State(s.backend[k := e], s.cache, s.workers)
    case Remove(k) => State(s.backend - {k}, s.cache, s.workers)
    case StartFill(w, k, limit) =>
      if k in s.backend then SetWorker(s, w, Filling(k, s.backend[k], limit, START)) else s
    case Pump(w, n) =>
      var a := At(s, w);
      if a.Filling? && a.fill.sent <= |world.plain(a.etag)|
      then SetWorker(s, w, Filling(a.key, a.etag, a.limit, Pumped(world.plain(a.etag), a.fill, n, a.limit))) else s
    case Fail(w) => SetWorker(s, w, Idle)
    case FinishFill(w) =>
      var a := At(s, w);
      if !Ended(world, a) then s
      else
        var entry := Filled(world, a);
        State(s.backend, if entry.Some? then s.cache[a.key := entry.value] else s.cache, s.workers[w := Idle])
    case Head(w, k) =>
      if k in s.backend then SetWorker(s, w, Checked(k, s.backend[k]))
      else State(s.backend, s.cache - {k}, s.workers[w := Idle])
    case Serve(w) =>
      var a := At(s, w);
      if a.Checked? && a.key in s.cache && !Usable(s.cache[a.key], a.etag)
      then State(s.backend, s.cache - {a.key}, s.workers[w := Idle]) else SetWorker(s, w, Idle)
  }

  /** The body a step serves from the cache, if any. */
  function Served(s: State, step: Step): Option<seq<byte>> {
    if step.Serve? && At(s, step.worker).Checked? && At(s, step.worker).key in s.cache
       && Usable(s.cache[At(s, step.worker).key], At(s, step.worker).etag)
    then Some(s.cache[At(s, step.worker).key].data) else None
  }

  /** Every body served from the cache is the plaintext of the version that the request's own probe saw. */
  ghost predicate ServesSeen(world: World, s: State, steps: seq<Step>)
    decreases |steps|
  {
    steps == [] ||
    (&& (Served(s, steps[0]).Some? ==> Served(s, steps[0]).value == world.plain(At(s, steps[0].worker).etag))
     && ServesSeen(world, Apply(world, s, steps[0]), steps[1..]))
  }

  /** What every step keeps: captures under way are prefixes of their version, cached bodies are whole. */
  ghost predicate Faithful(world: World, s: State) {
    && (forall w :: w in s.workers && s.workers[w].Filling? ==>
          Genuine(world.plain(s.workers[w].etag), s.workers[w].fill))
    && (forall k :: k in s.cache ==> s.cache[k].data == world.plain(s.cache[k].etag))
  }

  /** No version's metadata declares less than its plaintext, or no stream ends early unnoticed. */
  ghost predicate Trustworthy(world: World) {
    !world.cutShort || forall e :: e != "" && world.declared(e) >= 0 ==> world.declared(e) >= |world.plain(e)|
  }

  lemma FilledIsWhole(world: World, w: Worker)
    requires Trustworthy(world) && w.Filling? && Ended(world, w) && Genuine(world.plain(w.etag), w.fill)
    ensures Filled(world, w).Some? ==> Filled(world, w).value.data == world.plain(w.etag)
  {
    var content := world.plain(w.etag);
    assert content[..|content|] == content;
  }

  lemma StepFaithful(world: World, s: State, step: Step)
    requires Trustworthy(world) && Faithful(world, s)
    ensures Faithful(world, Apply(world, s, step))
  {
    hide Filled, Pumped, Trustworthy;
    if step.Pump? && At(s, step.worker).Filling? {
      var a := At(s, step.worker);
      PumpKeeps(world.plain(a.etag), a.fill, step.n, a.limit);
    } else if step.StartFill? && step.key in s.backend {
      StartGenuine(world.plain(s.backend[step.key]));
    } else if step.FinishFill? && At(s, step.worker).Filling? && Ended(world, At(s, step.worker)) {
      FilledIsWhole(world, At(s, step.worker));
      FilledTag(world, At(s, step.worker));
    }
  }

  lemma StartGenuine(content: seq<byte>)
    ensures Genuine(content, START)
  {
  }

  lemma FilledTag(world: World, w: Worker)
    requires w.Filling?
    ensures Filled(world, w).Some? ==> Filled(world, w).value.etag == w.etag
  {
  }

  lemma {:induction false} RunServesSeen(world: World, s: State, steps: seq<Step>)
    requires Trustworthy(world) && Faithful(world, s)
    ensures ServesSeen(world, s, steps)
    decreases |steps|
  {
    hide Faithful, Apply;
    if steps != [] {
      StepFaithful(world, s, steps[0]);
      RunServesSeen(world, Apply(world, s, steps[0]), steps[1..]);
      ServedIsWhole(world, s, steps[0]);
    }
  }

  lemma ServedIsWhole(world: World, s: State, step: Step)
    requires Faithful(world, s)
    ensures Served(s, step).Some? ==> Served(s, step).value == world.plain(At(s, step.worker).etag)
  {
  }

  /** A version whose stream ends after size bytes, cached within limit and served. */
  function FillAndServe(e: string, size: nat, limit: nat): (run: seq<Step>)
    ensures |run| == 6
  {
    [Put("k", e), StartFill(0, "k", limit), Pump(0, size), FinishFill(0), Head(1, "k"), Serve(1)]
  }

  function Run(world: World, s: State, steps: seq<Step>): State
    decreases |steps|
  {
    if steps == [] then s else Run(world, Apply(world, s, steps[0]), steps[1..])
  }

  lemma Unroll(world: World, s: State, step: Step, rest: seq<Step>)
    ensures ServesSeen(world, s, [step] + rest) <==>
      && (Served(s, step).Some? ==> Served(s, step).value == world.plain(At(s, step.worker).etag))
      && ServesSeen(world, Apply(world, s, step), rest)
  {
    assert ([step] + rest)[1..] == rest;
  }

  lemma RunStep(world: World, s: State, step: Step, rest: seq<Step>)
    ensures Run(world, s, [step] + rest) == Run(world, Apply(world, s, step), rest)
  {
    assert ([step] + rest)[1..] == rest;
  }

  /** A version that declares size, whose stream ends there, and a cache that takes that much. */
  predicate Fits(world: World, e: string, size: nat, limit: nat) {
    && e != "" && world.declared(e) == size <= |world.plain(e)|
    && (world.cutShort || size == |world.plain(e)|)
    && size <= limit && 0 < limit
  }

  lemma WholeFill(world: World, e: string, size: nat, limit: nat)
    requires Fits(world, e, size, limit)
    ensures var f := Pumped(world.plain(e), START, size, limit);
            && f == Fill(size, world.plain(e)[..size], false)
            && Filled(world, Filling("k", e, limit, f)) == Some(Entry(e, f.data, size))
  {
    assert [] + world.plain(e)[0..size] == world.plain(e)[..size];
  }

  /** The state in which the last step of the run serves the body. */
  function Cached(e: string, data: seq<byte>): State {
    State(map["k" := e], map["k" := Entry(e, data, |data|)], map[0 := Idle, 1 := Checked("k", e)])
  }

  /** The states of the run before that. */
  function Along(e: string, f: Fill, limit: nat, i: nat): State {
    var backend := map["k" := e];
    if i == 0 then INITIAL
    else if i == 1 then State(backend, map[], map[])
    else if i == 2 then State(backend, map[], map[0 := Filling("k", e, limit, START)])
    else if i == 3 then State(backend, map[], map[0 := Filling("k", e, limit, f)])
    else if i == 4 then State(backend, map["k" := Entry(e, f.data, |f.data|)], map[0 := Idle])
    else Cached(e, f.data)
  }

  lemma FillSteps(world: World, e: string, size: nat, limit: nat, i: nat)
    requires Fits(world, e, size, limit) && i < 5
    ensures size <= |world.plain(e)|
    ensures var f := Fill(size, world.plain(e)[..size], false);
            Apply(world, Along(e, f, limit, i), FillAndServe(e, size, limit)[i]) == Along(e, f, limit, i + 1)
  {
    hide Pumped, Filled;
    WholeFill(world, e, size, limit);
  }

  lemma {:induction false} FillFrom(world: World, e: string, size: nat, limit: nat, i: nat)
    requires Fits(world, e, size, limit) && i <= 5
    ensures size <= |world.plain(e)|
    ensures var f, run := Fill(size, world.plain(e)[..size], false), FillAndServe(e, size, limit);
            && Run(world, Along(e, f, limit, i), run[i..5]) == Cached(e, f.data)
            && (ServesSeen(world, Along(e, f, limit, i), run[i..]) <==> ServesSeen(world, Cached(e, f.data), [run[5]]))
    decreases 5 - i
  {
    hide Apply, FillAndServe, Along;
    var f, run := Fill(size, world.plain(e)[..size], false), FillAndServe(e, size, limit);
    assert |run| == 6 && Along(e, f, limit, 5) == Cached(e, f.data) && (i < 5 ==> !run[i].Serve?) by {
      RunShape(e, f, size, limit);
    }
    if i == 5 {
      assert run[5..5] == [] && run[5..] == [run[5]];
    } else {
      FillSteps(world, e, size, limit, i);
      FillFrom(world, e, size, limit, i + 1);
      assert run[i..5] == [run[i]] + run[i + 1..5] && run[i..] == [run[i]] + run[i + 1..];
      RunStep(world, Along(e, f, limit, i), run[i], run[i + 1..5]);
      Unroll(world, Along(e, f, limit, i), run[i], run[i + 1..]);
    }
  }

  lemma RunShape(e: string, f: Fill, size: nat, limit: nat)
    ensures |FillAndServe(e, size, limit)| == 6 && Along(e, f, limit, 5) == Cached(e, f.data)
    ensures forall i :: 0 <= i < 5 ==> !FillAndServe(e, size, limit)[i].Serve?
  {
  }

  lemma FillReachesCache(world: World, e: string, size: nat, limit: nat)
    requires Fits(world, e, size, limit)
    ensures var run := FillAndServe(e, size, limit);
            && Run(world, INITIAL, run[..5]) == Cached(e, world.plain(e)[..size])
            && (ServesSeen(world, INITIAL, run) <==> ServesSeen(world, Cached(e, world.plain(e)[..size]), [run[5]]))
  {
    hide Run, ServesSeen;
    FillFrom(world, e, size, limit, 0);
    var run := FillAndServe(e, size, limit);
    assert run[0..5] == run[..5] && run[0..] == run;
  }

  /** A fill that fits is cached, also at exactly the limit, and the next hit serves what was sent. */
  lemma FillIsServed(world: World, e: string, size: nat, limit: nat)
    requires Fits(world, e, size, limit)
    ensures var run := FillAndServe(e, size, limit);
            Served(Run(world, INITIAL, run[..5]), run[5]) == Some(world.plain(e)[..size])
  {
    hide Apply, Run;
    FillReachesCache(world, e, size, limit);
  }

  lemma ShortRunServesShort(world: World, e: string, size: nat)
    requires world.cutShort && e != "" && world.declared(e) == size < |world.plain(e)|
    ensures !ServesSeen(world, INITIAL, FillAndServe(e, size, size + 1))
  {
    FillReachesCache(world, e, size, size + 1);
    Unroll(world, Cached(e, world.plain(e)[..size]), FillAndServe(e, size, size + 1)[5], []);
    assert [FillAndServe(e, size, size + 1)[5]] == [FillAndServe(e, size, size + 1)[5]] + [];
  }

  /**
   * All interleavings serve only what was seen if and only if no version's metadata declares less than its
   * plaintext or no stream ends early without an error.
   */
  lemma CacheServesSeenVersion(world: World)
    ensures (forall steps: seq<Step> :: ServesSeen(world, INITIAL, steps)) <==> Trustworthy(world)
  {
    if Trustworthy(world) {
      forall steps: seq<Step> ensures ServesSeen(world, INITIAL, steps) {
        RunServesSeen(world, INITIAL, steps);
      }
    } else {
      var e :| e != "" && 0 <= world.declared(e) < |world.plain(e)|;
      ShortRunServesShort(world, e, world.declared(e));
    }
  }
}
