/** The response writer that puts the gateway's CORS decision on every header block. */
module CorsWriter {
  datatype Owned = AllowOrigin | AllowMethods | AllowHeaders | ExposeHeaders | MaxAge | AllowCredentials

  /** Header names: the six the gateway writes, any other Access-Control-* spelling, and the rest. */
  datatype Name = Cors(owned: Owned) | OtherCors(text: string) | Plain(text: string)

  type Headers = map<Name, seq<string>>

  datatype Preflight = NoPreflight | Preflight(allowed: bool, headers: map<Owned, seq<string>>)

  datatype Decision = Decision(allowed: bool, origin: string, expose: string, credentials: bool, vary: bool,
                               preflight: Preflight)

  const VARY := Plain("Vary")

  predicate IsCors(n: Name) { !n.Plain? }

  /** The Access-Control-* part of a header block. */
  function CorsPart(h: Headers): Headers {
    map n | n in h && IsCors(n) :: h[n]
  }

  function Stripped(h: Headers): Headers {
    map n | n in h && !IsCors(n) :: h[n]
  }

  /** What the decision puts on the wire. */
  function Decided(options: bool, d: Decision): Headers {
    if options then
      if d.preflight.Preflight? && d.preflight.allowed then
        map o | o in d.preflight.headers && d.preflight.headers[o] != [] :: Cors(o) := d.preflight.headers[o]
      else map[]
    else if !d.allowed then map[]
    else
      var origin: Headers := map[Cors(AllowOrigin) := [d.origin]];
      var expose := if d.expose != "" then origin[Cors(ExposeHeaders) := [d.expose]] else origin;
      if d.credentials then expose[Cors(AllowCredentials) := ["true"]] else expose
  }

  /** The values a header block has under a name; none if it lacks the name. */
  function Values(h: Headers, n: Name): seq<string> { if n in h then h[n] else [] }

  /** A block that carries the decision, header by header: to a preflight its answer, otherwise the origin allowed. */
  predicate Carries(h: Headers, options: bool, d: Decision) {
    && (forall n :: n in h ==> !n.OtherCors?)
    && if options then
         forall o: Owned :: Values(h, Cors(o)) ==
           if d.preflight.Preflight? && d.preflight.allowed && o in d.preflight.headers
           then d.preflight.headers[o] else []
       else
         && Values(h, Cors(AllowOrigin)) == (if d.allowed then [d.origin] else [])
         && Values(h, Cors(ExposeHeaders)) == (if d.allowed && d.expose != "" then [d.expose] else [])
         && Values(h, Cors(AllowCredentials)) == (if d.allowed && d.credentials then ["true"] else [])
         && Cors(AllowMethods) !in h && Cors(AllowHeaders) !in h && Cors(MaxAge) !in h
  }

  /** What the response depends on: for a preflight on the three request headers it answers. */
  function VaryNames(options: bool): seq<string> {
    if options then ["Origin", "Access-Control-Request-Method", "Access-Control-Request-Headers"] else ["Origin"]
  }

  /** The Vary header, a list of names, has all that the decision asks for. */
  predicate Varies(h: Headers, options: bool, d: Decision) {
    d.vary ==> forall name :: name in VaryNames(options) ==> name in Values(h, VARY)
  }

  lemma PartAgrees(h: Headers, n: Name)
    requires IsCors(n)
    ensures (n in h <==> n in CorsPart(h)) && Values(h, n) == Values(CorsPart(h), n)
  {
  }

  lemma DecidedCarriesItself(options: bool, d: Decision)
    ensures Carries(Decided(options, d), options, d)
  {
    if !options {
      assert Decided(options, d).Keys <= {Cors(AllowOrigin), Cors(ExposeHeaders), Cors(AllowCredentials)};
    }
  }

  lemma DecidedCarries(h: Headers, options: bool, d: Decision)
    requires CorsPart(h) == Decided(options, d)
    ensures Carries(h, options, d)
  {
    hide Decided, CorsPart, Values;
    DecidedCarriesItself(options, d);
    forall n: Name | IsCors(n)
      ensures (n in h <==> n in Decided(options, d)) && Values(h, n) == Values(Decided(options, d), n)
    {
      PartAgrees(h, n);
    }
  }

  /** The headers that are none of the decision's business. */
  function PlainPart(h: Headers): Headers {
    map n | n in h && !IsCors(n) && n != VARY :: h[n]
  }

  lemma PlainOfUpdate(h: Headers, n: Name, v: seq<string>)
    requires IsCors(n) || n == VARY
    ensures PlainPart(h[n := v]) == PlainPart(h)
  {
  }

  lemma PartOfUpdate(h: Headers, n: Name, v: seq<string>)
    ensures CorsPart(h[n := v]) == if IsCors(n) then CorsPart(h)[n := v] else CorsPart(h)
  {
  }

  lemma PartOfStripped(h: Headers)
    ensures CorsPart(Stripped(h)) == map[]
  {
  }

  lemma PlainOfStripped(h: Headers)
    ensures PlainPart(Stripped(h)) == PlainPart(h) && Values(Stripped(h), VARY) == Values(h, VARY)
    ensures forall n :: n in Stripped(h) ==> !IsCors(n)
  {
  }

  const OWNED := [AllowOrigin, AllowMethods, AllowHeaders, ExposeHeaders, MaxAge, AllowCredentials]

  lemma AllOwned(o: Owned)
    ensures o in OWNED
  {
    assert OWNED[0] == AllowOrigin && OWNED[1] == AllowMethods && OWNED[2] == AllowHeaders;
    assert OWNED[3] == ExposeHeaders && OWNED[4] == MaxAge && OWNED[5] == AllowCredentials;
  }

  class Writer {
    const options: bool
    const decision: Decision
    var header: Headers
    var wrote: bool
    var hijacked: bool

    /** The connection beneath: the header blocks sent on it, and whether the final one is among them. */
    var wire: seq<Headers>
    var finalSent: bool

    /** Every header block on the wire carries exactly the gateway's Access-Control-* headers. */
    ghost predicate Valid()
      reads this
    {
      && wrote == finalSent
      && forall i :: 0 <= i < |wire| ==> Carries(wire[i], options, decision) && Varies(wire[i], options, decision)
    }

    constructor (options: bool, decision: Decision)
      ensures Valid() && wire == [] && this.options == options && this.decision == decision
      ensures header == map[] && !wrote && !hijacked
    {
      this.options, this.decision, header := options, decision, map[];
      wrote, hijacked, wire, finalSent := false, false, [], false;
    }

    /** A handler, or a copied upstream response, leaves the header map in any state. */
    method Change(h: Headers)
      requires Valid()
      modifies this`header
      ensures Valid() && header == h
    {
      header := h;
    }

    method Strip()
      modifies this`header
      ensures header == Stripped(old(header))
    {
      var left := header.Keys;
      while left != {}
        invariant left <= old(header).Keys
        invariant forall n :: n in left ==> n in header
        invariant forall n :: n in header ==> n in old(header) && header[n] == old(header)[n]
        invariant forall n :: n in old(header) && n !in left ==> (n in header <==> !IsCors(n))
        decreases |left|
      {
        var n :| n in left;
        if IsCors(n) {
          header := header - {n};
        }
        left := left - {n};
      }
    }

    /** Copies the decision's preflight headers, one name after the other. */
    method Replace(source: map<Owned, seq<string>>)
      requires forall n :: n in header ==> !IsCors(n)
      modifies this`header
      ensures CorsPart(header) == map o | o in source && source[o] != [] :: Cors(o) := source[o]
      ensures PlainPart(header) == PlainPart(old(header)) && Values(header, VARY) == Values(old(header), VARY)
    {
      for i := 0 to |OWNED|
        invariant PlainPart(header) == PlainPart(old(header)) && Values(header, VARY) == Values(old(header), VARY)
        invariant forall n :: n in header && IsCors(n) ==>
          n.Cors? && n.owned in OWNED[..i] && n.owned in source && source[n.owned] != [] && header[n] == source[n.owned]
        invariant forall o :: o in OWNED[..i] && o in source && source[o] != [] ==> Cors(o) in header
      {
        var o := OWNED[i];
        if o in source && source[o] != [] {
          PlainOfUpdate(header, Cors(o), source[o]);
          header := header[Cors(o) := source[o]];
        }
        assert OWNED[..i + 1] == OWNED[..i] + [o];
      }
      assert OWNED[..|OWNED|] == OWNED;
      forall o: Owned ensures o in OWNED { AllOwned(o); }
    }

    /**
     * Puts the decision on the header map in place of whatever Access-Control-* headers it holds. The final block
     * of an allowed request always varies by origin.
     */
    method Reconcile(final: bool)
      modifies this`header
      ensures Carries(header, options, decision) && Varies(header, options, decision)
      ensures final && !options && decision.allowed ==> "Origin" in Values(header, VARY)
      ensures Values(old(header), VARY) <= Values(header, VARY)
      ensures PlainPart(header) == PlainPart(old(header))
    {
      Decide(final);
      DecidedCarries(header, options, decision);
    }

    method Decide(final: bool)
      modifies this`header
      ensures CorsPart(header) == Decided(options, decision) && Varies(header, options, decision)
      ensures final && !options && decision.allowed ==> "Origin" in Values(header, VARY)
      ensures Values(old(header), VARY) <= Values(header, VARY)
      ensures PlainPart(header) == PlainPart(old(header))
    {
      Strip();
      PartOfStripped(old(header));
      PlainOfStripped(old(header));
      if options {
        Answer();
      } else {
        Allow(final);
      }
    }

    /** The answer to a preflight. */
    method Answer()
      requires options && forall n :: n in header ==> !IsCors(n)
      modifies this`header
      ensures CorsPart(header) == Decided(options, decision) && Varies(header, options, decision)
      ensures Values(old(header), VARY) <= Values(header, VARY) && PlainPart(header) == PlainPart(old(header))
    {
      assert CorsPart(header) == map[];
      if decision.preflight.Preflight? && decision.preflight.allowed {
        Replace(decision.preflight.headers);
      }
      hide CorsPart, PlainPart;
      if decision.vary {
        AddVary(VaryNames(true));
      }
    }

    /** The headers of any other request. */
    method Allow(final: bool)
      requires !options && CorsPart(header) == map[]
      modifies this`header
      ensures CorsPart(header) == Decided(options, decision) && Varies(header, options, decision)
      ensures final && decision.allowed ==> "Origin" in Values(header, VARY)
      ensures Values(old(header), VARY) <= Values(header, VARY) && PlainPart(header) == PlainPart(old(header))
    {
      hide CorsPart, PlainPart, Values;
      if decision.vary {
        AddVary(VaryNames(false));
      }
      if decision.allowed {
        Put(AllowOrigin, decision.origin);
        if decision.expose != "" {
          Put(ExposeHeaders, decision.expose);
        }
        if decision.credentials {
          Put(AllowCredentials, "true");
        }
        if final {
          AddVary(["Origin"]);
        }
      }
    }

    /** Adds the names that Vary does not list yet. */
    method AddVary(names: seq<string>)
      modifies this`header
      ensures CorsPart(header) == CorsPart(old(header)) && PlainPart(header) == PlainPart(old(header))
      ensures Values(old(header), VARY) <= Values(header, VARY)
      ensures forall name :: name in names ==> name in Values(header, VARY)
      ensures forall name :: name in Values(header, VARY) ==> name in Values(old(header), VARY) || name in names
    {
      var values := Values(header, VARY);
      for i := 0 to |names|
        invariant Values(header, VARY) <= values
        invariant forall k :: 0 <= k < i ==> names[k] in values
        invariant forall name :: name in values ==> name in Values(header, VARY) || name in names
      {
        if names[i] !in values {
          values := values + [names[i]];
        }
      }
      if values != [] {
        PartOfUpdate(header, VARY, values);
        PlainOfUpdate(header, VARY, values);
        header := header[VARY := values];
      }
    }

    method Put(o: Owned, value: string)
      modifies this`header
      ensures CorsPart(header) == CorsPart(old(header))[Cors(o) := [value]]
      ensures PlainPart(header) == PlainPart(old(header)) && Values(header, VARY) == Values(old(header), VARY)
    {
      PartOfUpdate(header, Cors(o), [value]);
      PlainOfUpdate(header, Cors(o), [value]);
      header := header[Cors(o) := [value]];
    }

    /** The writer beneath: informational blocks until the final one, and nothing after it. */
    method Send(status: int)
      modifies this`wire, this`finalSent
      ensures wire == if old(finalSent) then old(wire) else old(wire) + [header]
      ensures finalSent == (old(finalSent) || !Informational(status))
    {
      if !finalSent {
        wire := wire + [header];
        finalSent := !Informational(status);
      }
    }

    method WriteHeader(status: int)
      requires Valid()
      modifies this
      ensures Valid() && old(wire) <= wire
      ensures wrote == (old(wrote) || status < 100 || status >= 200 || status == 101)
      ensures !old(wrote) ==> |wire| == |old(wire)| + 1 && PlainPart(wire[|wire| - 1]) == PlainPart(old(header))
      ensures old(wrote) ==> wire == old(wire)
      ensures !old(wrote) && wrote && !options && decision.allowed ==> "Origin" in Values(wire[|wire| - 1], VARY)
    {
      if Informational(status) {
        Reconcile(false);
        Send(status);
        return;
      }
      if !wrote {
        Reconcile(true);
        wrote := true;
      }
      Send(status);
    }

    /** Write, Flush and ReadFrom: the header goes first, with status 200. */
    method Body()
      requires Valid()
      modifies this
      ensures Valid() && wrote && old(wire) <= wire
      ensures |wire| == |old(wire)| + if old(wrote) then 0 else 1
    {
      if !wrote {
        WriteHeader(200);
      }
    }

    /** The handler takes the connection over; the header block is then its own affair. */
    method Hijack(supported: bool) returns (ok: bool)
      requires Valid()
      modifies this`hijacked
      ensures Valid() && ok == supported && hijacked == (old(hijacked) || supported)
    {
      if !supported {
        return false;
      }
      hijacked := true;
      return true;
    }

    method Finish()
      requires Valid()
      modifies this
      ensures Valid() && (wrote || hijacked)
      ensures wire == old(wire) <==> old(wrote || hijacked)
      ensures old(wire) <= wire
    {
      if !wrote && !hijacked {
        WriteHeader(200);
      }
    }
  }

  predicate Informational(status: int) { 100 <= status < 200 && status != 101 }
}
