/** The 2 KiB of USB RAM: its fixed layout, and the buffers handed out to endpoints. */
module UsbRam {
  import opened Words

  const RAM_START: uint32 := 0x2000_4000
  const RAM_END: uint32 := 0x2000_4800
  const LIST_SIZE := 80        // five logical endpoints, four words each
  const CONTROL_SIZE := 136    // two packets and a setup
  const CONTROL_START: uint32 := 0x2000_4080
  const ENDPOINTS := 10

  function RoundUp(x: uint32, m: nat): uint32
    requires 0 < m
  {
    Wrap32(Wrap32(x + (m - 1)) / m * m)
  }

  datatype Endpoint = Endpoint(maxPacket: uint32, buffer0: uint32, buffer1: uint32, options: uint32)

  type Endpoints = s: seq<Endpoint> | |s| == ENDPOINTS
    witness seq(ENDPOINTS, _ => Endpoint(0, 0, 0, 0))

  datatype Ram = Ram(
    usbRamPtr: uint32,      // end of what the layout reserves
    epRamPtr: uint32,       // end of what the endpoints have been given
    endpoints: Endpoints,
    live: set<nat>)         // endpoints whose latest request since the bus reset was granted

  /** The option bit SINGLE_BUFFERED. */
  predicate Single(options: uint32) {
    options % 2 == 1
  }

  /** The layout of the constructor: command list, then the control endpoint's buffers. */
  function Layout(endpoints: Endpoints): Ram {
    var list := RoundUp(RAM_START, 256);
    var control := RoundUp(list + LIST_SIZE, 64);
    Ram(control + CONTROL_SIZE, 0, endpoints, {})
  }

  lemma LayoutEnds(endpoints: Endpoints)
    ensures RoundUp(RAM_START, 256) == RAM_START && RoundUp(RAM_START + LIST_SIZE, 64) == CONTROL_START
    ensures Layout(endpoints) == Ram(CONTROL_START + CONTROL_SIZE, 0, endpoints, {})
  {
  }

  function BusReset(r: Ram): Ram {
    r.(epRamPtr := r.usbRamPtr, live := {})
  }

  /** A request for the buffers of an endpoint. A failed one may already have moved the first buffer. */
  function Realise(r: Ram, e: nat, maxPacket: uint32, options: uint32): (Ram, bool) {
    if e >= ENDPOINTS || e == 0 || e == 1 then (r, false)
    else
      var first := RoundUp(r.epRamPtr, 64);
      var refused := r.(live := r.live - {e});
      if Wrap32(first + maxPacket) > RAM_END then (refused, false)
      else
        var ep := r.endpoints[e].(buffer0 := first);
        if Single(options) then
          (r.(epRamPtr := Wrap32(first + maxPacket), live := r.live + {e},
              endpoints := r.endpoints[e := ep.(maxPacket := maxPacket, options := options)]), true)
        else
          var second := RoundUp(Wrap32(first + maxPacket), 64);
          if Wrap32(second + maxPacket) > RAM_END then
            (refused.(endpoints := r.endpoints[e := ep]), false)
          else
            (r.(epRamPtr := Wrap32(second + maxPacket), live := r.live + {e},
                endpoints := r.endpoints[e := Endpoint(maxPacket, first, second, options)]), true)
  }

  datatype Event = ResetEvent | Request(e: nat, maxPacket: uint32, options: uint32)

  function Step(r: Ram, e: Event): Ram {
    match e
    case ResetEvent => BusReset(r)
    case Request(e, maxPacket, options) => Realise(r, e, maxPacket, options).0
  }

  function Run(r: Ram, es: seq<Event>): Ram
    decreases |es|
  {
    if es == [] then r else Run(Step(r, es[0]), es[1..])
  }

  /** A request whose end is a 32-bit address wherever the buffers start; packets have at most 1023 bytes. */
  predicate Reasonable(e: Event) {
    e.Request? ==> e.maxPacket < 0x1_0000_0000 - RAM_END
  }

  predicate AllReasonable(es: seq<Event>) {
    forall e :: e in es ==> Reasonable(e)
  }

  // Buffers

  datatype Block = Block(start: nat, size: nat)
  {
    function End(): nat { start + size }
  }

  predicate Disjoint(a: Block, b: Block) {
    a.End() <= b.start || b.End() <= a.start
  }

  predicate InUse(r: Ram, e: nat, k: nat) {
    e in r.live && e < ENDPOINTS && (k == 0 || (k == 1 && !Single(r.endpoints[e].options)))
  }

  /** Buffer `k` of endpoint `e`. */
  function Buffer(r: Ram, e: nat, k: nat): Block
    requires e < ENDPOINTS
  {
    Block(if k == 0 then r.endpoints[e].buffer0 else r.endpoints[e].buffer1, r.endpoints[e].maxPacket)
  }

  const LIST_AREA := Block(RAM_START, LIST_SIZE)
  const CONTROL_AREA := Block(CONTROL_START, CONTROL_SIZE)

  predicate Inside(b: Block) {
    RAM_START <= b.start && b.End() <= RAM_END
  }

  /** What the register fields for a buffer address amount to: the offset is in units of 64 bytes. */
  function AddressOffset(a: uint32): nat {
    a / 64 % 0x1_0000
  }

  function DataBufStart(): uint32 {
    CONTROL_START - CONTROL_START % 0x40_0000
  }

  /** All buffers in use are where the hardware can reach them, and out of each other's way. */
  ghost predicate Sound(r: Ram) {
    && (forall e, k :: InUse(r, e, k) ==>
          var b := Buffer(r, e, k);
          && Inside(b) && Disjoint(b, LIST_AREA) && Disjoint(b, CONTROL_AREA)
          && b.start % 64 == 0 && DataBufStart() + 64 * AddressOffset(b.start) == b.start)
    && (forall e, k, f, l :: InUse(r, e, k) && InUse(r, f, l) && (e != f || k != l) ==>
          Disjoint(Buffer(r, e, k), Buffer(r, f, l)))
  }

  ghost predicate Invariant(r: Ram) {
    && r.usbRamPtr == CONTROL_AREA.End() <= r.epRamPtr <= RAM_END
    && (forall e, k :: InUse(r, e, k) ==>
          var b := Buffer(r, e, k); r.usbRamPtr <= b.start && b.End() <= r.epRamPtr && b.start % 64 == 0)
    && (forall e, k, f, l :: InUse(r, e, k) && InUse(r, f, l) && (e != f || k != l) ==>
          Disjoint(Buffer(r, e, k), Buffer(r, f, l)))
  }

  lemma RoundUpFits(x: uint32)
    requires x <= RAM_END
    ensures x <= RoundUp(x, 64) <= RAM_END && RoundUp(x, 64) % 64 == 0
  {
  }

  /** What a granted request has been given, and that it is all above what was given before. */
  lemma Granted(r: Ram, e: nat, maxPacket: uint32, options: uint32)
    requires r.epRamPtr <= RAM_END && maxPacket < 0x1_0000_0000 - RAM_END
    requires Realise(r, e, maxPacket, options).1
    ensures var s := Realise(r, e, maxPacket, options).0;
            var b0, b1 := Buffer(s, e, 0), Buffer(s, e, 1);
            && s.live == r.live + {e} && s.epRamPtr <= RAM_END && s.usbRamPtr == r.usbRamPtr
            && r.epRamPtr <= b0.start && b0.start % 64 == 0
            && s.endpoints == r.endpoints[e := s.endpoints[e]]
            && (Single(s.endpoints[e].options) <==> Single(options))
            && if Single(options) then s.epRamPtr == b0.End()
               else b0.End() <= b1.start && b1.start % 64 == 0 && s.epRamPtr == b1.End()
  {
    hide RoundUp, Wrap32;
    RoundUpFits(r.epRamPtr);
    var first := RoundUp(r.epRamPtr, 64);
    InsideWord(first + maxPacket);
    if !Single(options) {
      RoundUpFits(first + maxPacket);
      InsideWord(RoundUp(first + maxPacket, 64) + maxPacket);
    }
  }

  lemma StepKeepsInvariant(r: Ram, e: Event)
    requires Invariant(r) && Reasonable(e)
    ensures Invariant(Step(r, e))
  {
    if e.Request? {
      var (s, ok) := Realise(r, e.e, e.maxPacket, e.options);
      if ok {
        Granted(r, e.e, e.maxPacket, e.options);
        forall f, k | InUse(s, f, k) && f != e.e
          ensures InUse(r, f, k) && Buffer(s, f, k) == Buffer(r, f, k)
        {
        }
      } else {
        forall f, k | InUse(s, f, k)
          ensures InUse(r, f, k) && Buffer(s, f, k) == Buffer(r, f, k)
        {
        }
      }
    }
  }

  lemma {:induction false} RunKeepsInvariant(r: Ram, es: seq<Event>)
    requires Invariant(r) && AllReasonable(es)
    ensures Invariant(Run(r, es))
    decreases |es|
  {
    hide Invariant, Step;
    if es != [] {
      StepKeepsInvariant(r, es[0]);
      RunKeepsInvariant(Step(r, es[0]), es[1..]);
    }
  }

  lemma AddressComesBack(a: uint32)
    requires RAM_START <= a <= RAM_END && a % 64 == 0
    ensures DataBufStart() + 64 * AddressOffset(a) == a
  {
  }

  /**
   After a bus reset, whatever is requested and however often the bus is reset again: the
   buffers of the endpoints that hold a grant are disjoint from one another and from the fixed
   areas, inside USB RAM, and addressed exactly by the hardware's 64-byte units.
   */
  lemma BuffersAreSound(endpoints: Endpoints, es: seq<Event>)
    requires AllReasonable(es)
    ensures Sound(Run(BusReset(Layout(endpoints)), es))
  {
    hide AddressOffset;
    var r0 := BusReset(Layout(endpoints));
    assert Invariant(r0);
    RunKeepsInvariant(r0, es);
    var r := Run(r0, es);
    forall e, k | InUse(r, e, k)
      ensures DataBufStart() + 64 * AddressOffset(Buffer(r, e, k).start) == Buffer(r, e, k).start
    {
      AddressComesBack(Buffer(r, e, k).start);
    }
  }

  // What a reset forgets

  /** The answer to a request: where its buffers are, if it is granted. */
  datatype Grant = Refused | OneBuffer(first: uint32) | TwoBuffers(first: uint32, second: uint32)

  function GrantOf(r: Ram, e: nat, maxPacket: uint32, options: uint32): Grant {
    var (s, ok) := Realise(r, e, maxPacket, options);
    if !ok || e >= ENDPOINTS then Refused
    else if Single(options) then OneBuffer(s.endpoints[e].buffer0)
    else TwoBuffers(s.endpoints[e].buffer0, s.endpoints[e].buffer1)
  }

  /** The answers to all requests among the events. */
  function Grants(r: Ram, es: seq<Event>): seq<Grant>
    decreases |es|
  {
    if es == [] then []
    else
      (match es[0]
       case ResetEvent => []
       case Request(e, maxPacket, options) => [GrantOf(r, e, maxPacket, options)])
      + Grants(Step(r, es[0]), es[1..])
  }

  /** Equal as far as later requests can tell. */
  predicate Alike(r: Ram, s: Ram) {
    r.usbRamPtr == s.usbRamPtr && r.epRamPtr == s.epRamPtr
  }

  lemma RequestsAlike(r: Ram, s: Ram, e: nat, maxPacket: uint32, options: uint32)
    requires Alike(r, s)
    ensures GrantOf(r, e, maxPacket, options) == GrantOf(s, e, maxPacket, options)
    ensures Alike(Realise(r, e, maxPacket, options).0, Realise(s, e, maxPacket, options).0)
  {
    hide RoundUp, Wrap32;
  }

  lemma {:induction false} GrantsAlike(r: Ram, s: Ram, es: seq<Event>)
    requires Alike(r, s)
    ensures Grants(r, es) == Grants(s, es)
    decreases |es|
  {
    hide Realise, GrantOf;
    if es != [] {
      if es[0].Request? {
        RequestsAlike(r, s, es[0].e, es[0].maxPacket, es[0].options);
      }
      GrantsAlike(Step(r, es[0]), Step(s, es[0]), es[1..]);
    }
  }

  lemma {:induction false} RunKeepsLayout(r: Ram, es: seq<Event>)
    ensures Run(r, es).usbRamPtr == r.usbRamPtr
    decreases |es|
  {
    hide RoundUp, Wrap32;
    if es != [] {
      RunKeepsLayout(Step(r, es[0]), es[1..]);
    }
  }

  /** The answers given once some events have gone by. */
  function GrantsAfter(r: Ram, before: seq<Event>, es: seq<Event>): seq<Grant> {
    Grants(Run(r, before), es)
  }

  /**
   A bus reset forgets: whatever was requested before it, the requests after it are granted or
   refused, and placed, exactly as on a device that has just been started.
   */
  lemma ResetForgets(endpoints: Endpoints, es: seq<Event>, fs: seq<Event>)
    ensures var start := Run(Layout(endpoints), [ResetEvent]);
            GrantsAfter(start, es + [ResetEvent], fs) == Grants(start, fs)
  {
    hide Realise, Grants, Run;
    var start := Run(Layout(endpoints), [ResetEvent]);
    RunOne(Layout(endpoints), ResetEvent);
    RunAppend(start, es, [ResetEvent]);
    RunOne(Run(start, es), ResetEvent);
    RunKeepsLayout(start, es);
    GrantsAlike(Run(start, es + [ResetEvent]), start, fs);
  }

  lemma RunOne(r: Ram, e: Event)
    ensures Run(r, [e]) == Step(r, e)
  {
    hide Realise;
    assert [e][1..] == [];
  }

  lemma {:induction false} RunAppend(r: Ram, xs: seq<Event>, ys: seq<Event>)
    ensures Run(r, xs + ys) == Run(Run(r, xs), ys)
    decreases |xs|
  {
    hide Step;
    if xs == [] {
      assert xs + ys == ys;
    } else {
      assert (xs + ys)[0] == xs[0] && (xs + ys)[1..] == xs[1..] + ys;
      RunAppend(Step(r, xs[0]), xs[1..], ys);
    }
  }

  /** Two resets with the same request after each: both get the same buffer. */
  lemma SameBufferAgain(endpoints: Endpoints)
    ensures var request := Request(2, 1023, 1);
            Grants(Layout(endpoints), [ResetEvent, request, ResetEvent, request])
            == [OneBuffer(0x2000_4140), OneBuffer(0x2000_4140)]
  {
    hide RoundUp, Wrap32, Realise, Layout, GrantOf;
    var request := Request(2, 1023, 1);
    LayoutEnds(endpoints);
    var r := BusReset(Layout(endpoints));
    FirstBuffer(r);
    var s := Realise(r, 2, 1023, 1).0;
    FirstBuffer(BusReset(s));
    GrantsFirst(Layout(endpoints), ResetEvent, [request, ResetEvent, request]);
    GrantsFirst(r, request, [ResetEvent, request]);
    GrantsFirst(s, ResetEvent, [request]);
    GrantsFirst(BusReset(s), request, []);
    assert [request] == [request] + [];
    assert [ResetEvent, request] == [ResetEvent] + [request];
    assert [request, ResetEvent, request] == [request] + [ResetEvent, request];
    assert [ResetEvent, request, ResetEvent, request] == [ResetEvent] + [request, ResetEvent, request];
  }

  lemma GrantsFirst(r: Ram, e: Event, es: seq<Event>)
    ensures Grants(r, [e] + es)
         == (if e.Request? then [GrantOf(r, e.e, e.maxPacket, e.options)] else []) + Grants(Step(r, e), es)
  {
    hide Realise, GrantOf;
    assert ([e] + es)[0] == e && ([e] + es)[1..] == es;
  }

  lemma FirstBuffer(r: Ram)
    requires r.usbRamPtr == r.epRamPtr == CONTROL_START + CONTROL_SIZE
    ensures GrantOf(r, 2, 1023, 1) == OneBuffer(0x2000_4140)
    ensures Realise(r, 2, 1023, 1).0.usbRamPtr == r.usbRamPtr
  {
    assert RoundUp(0x2000_4108, 64) == 0x2000_4140;
  }

  /** The first 64-byte boundary from an address on. */
  predicate NextUp(at: nat, address: nat) {
    address <= at < address + 64 && at % 64 == 0
  }

  lemma RoundUpIsNext(x: uint32, at: nat)
    requires x <= RAM_END && NextUp(at, x)
    ensures RoundUp(x, 64) == at && at <= RAM_END
  {
  }

  /**
   A request is granted exactly when the endpoint can have buffers and one, or without the lowest
   option bit two of them fit behind the others, each from the next boundary on; then that is what
   it gets, and the next request starts behind them.
   */
  lemma GrantedIffFits(r: Ram, e: nat, maxPacket: uint32, options: uint32, first: nat, second: nat)
    requires r.epRamPtr <= RAM_END && maxPacket < 0x1_0000_0000 - RAM_END
    requires NextUp(first, r.epRamPtr) && NextUp(second, first + maxPacket)
    ensures var (s, ok) := Realise(r, e, maxPacket, options);
            var single := options % 2 == 1;
            var end := if single then first + maxPacket else second + maxPacket;
            && (ok <==> 2 <= e <= 9 && end <= 0x2000_4800)
            && (ok ==> s.epRamPtr == end
                       && GrantOf(r, e, maxPacket, options)
                          == if single then OneBuffer(first) else TwoBuffers(first, second))
  {
    hide RoundUp, Wrap32, NextUp;
    RoundUpIsNext(r.epRamPtr, first);
    NextIsAbove(second, first + maxPacket);
    InsideWord(first + maxPacket);
    if first + maxPacket <= RAM_END {
      RoundUpIsNext(first + maxPacket, second);
      InsideWord(second + maxPacket);
    }
  }

  lemma NextIsAbove(at: nat, address: nat)
    requires NextUp(at, address)
    ensures address <= at
  {
  }

  /**
   A refused request leaves the memory to others: the next one starts where it would have, and no
   other endpoint is touched. Of its own endpoint the first buffer has been moved, if that fitted.
   */
  lemma RefusedTakesNothing(r: Ram, e: nat, maxPacket: uint32, options: uint32, first: nat)
    requires r.epRamPtr <= RAM_END && maxPacket < 0x1_0000_0000 - RAM_END && NextUp(first, r.epRamPtr)
    requires !Realise(r, e, maxPacket, options).1
    ensures var s := Realise(r, e, maxPacket, options).0;
            && s.epRamPtr == r.epRamPtr && s.usbRamPtr == r.usbRamPtr
            && (forall f :: 0 <= f < ENDPOINTS && f != e ==>
                  s.endpoints[f] == r.endpoints[f] && (f in s.live <==> f in r.live))
            && (2 <= e < ENDPOINTS ==>
                  && e !in s.live
                  && s.endpoints[e] == if first + maxPacket <= RAM_END then r.endpoints[e].(buffer0 := first)
                                       else r.endpoints[e])
  {
    hide RoundUp, Wrap32, NextUp, Single;
    RoundUpIsNext(r.epRamPtr, first);
    InsideWord(first + maxPacket);
  }

  /** The buffers a granted request has been given are inside USB RAM. */
  predicate GrantedInside(r: Ram, e: nat, options: uint32)
    requires e < ENDPOINTS
  {
    Inside(Buffer(r, e, 0)) && (Single(options) || Inside(Buffer(r, e, 1)))
  }

  /**
   For an arbitrary 32-bit size the end of a buffer can wrap around and pass the check:
   a granted buffer is inside USB RAM exactly when its end is a 32-bit address.
   */
  lemma GrantInsideIffNoWrap(r: Ram, e: nat, maxPacket: uint32, options: uint32)
    requires CONTROL_AREA.End() <= r.epRamPtr <= RAM_END
    requires Realise(r, e, maxPacket, options).1
    ensures GrantedInside(Realise(r, e, maxPacket, options).0, e, options)
            <==> RoundUp(r.epRamPtr, 64) + maxPacket < 0x1_0000_0000
  {
    hide RoundUp, Wrap32;
    RoundUpFits(r.epRamPtr);
    var first := RoundUp(r.epRamPtr, 64);
    if first + maxPacket < 0x1_0000_0000 {
      InsideWord(first + maxPacket);
      RoundUpFits(first + maxPacket);
      if !Single(options) {
        InsideWord(RoundUp(first + maxPacket, 64) + maxPacket);
      }
    }
  }

  /** Rounding up to a boundary does not go beyond one that is above. */
  lemma RoundUpBelow(x: uint32, bound: uint32)
    requires x <= bound <= RAM_END && bound % 64 == 0
    ensures x <= RoundUp(x, 64) <= bound
  {
  }

  lemma WrapOnce(x: int)
    ensures 0x1_0000_0000 <= x < 0x2_0000_0000 ==> Wrap32(x) == x - 0x1_0000_0000
    ensures 0 <= x < 0x1_0000_0000 ==> Wrap32(x) == x
  {
  }

  /**
   Which requests are granted outside USB RAM: those for an endpoint with buffers whose size takes
   the end of every buffer asked for past the 32-bit addresses.
   */
  lemma GrantedOutsideIff(r: Ram, e: nat, maxPacket: uint32, options: uint32)
    requires CONTROL_AREA.End() <= r.epRamPtr <= RAM_END
    ensures var (s, ok) := Realise(r, e, maxPacket, options);
            var first := RoundUp(r.epRamPtr, 64);
            (ok && !GrantedInside(s, e, options)) <==>
              && 2 <= e < ENDPOINTS && 0x1_0000_0000 <= first + maxPacket
              && (Single(options) || 0x1_0000_0000 <= RoundUp(Wrap32(first + maxPacket), 64) + maxPacket)
  {
    hide RoundUp, Wrap32, GrantedInside;
    RoundUpFits(r.epRamPtr);
    var first := RoundUp(r.epRamPtr, 64);
    if Realise(r, e, maxPacket, options).1 {
      GrantInsideIffNoWrap(r, e, maxPacket, options);
    }
    WrapOnce(first + maxPacket);
    if 0x1_0000_0000 <= first + maxPacket {
      var second := RoundUp(Wrap32(first + maxPacket), 64);
      RoundUpBelow(Wrap32(first + maxPacket), first);
      WrapOnce(second + maxPacket);
    }
  }

  /**
   The first request after a bus reset, for as many bytes as are left below the end of the address
   space: it is granted, and the next buffer would be at address 0.
   */
  lemma GrantedOutside(endpoints: Endpoints)
    ensures var r := BusReset(Layout(endpoints));
            var (s, ok) := Realise(r, 2, 0x1_0000_0000 - 0x2000_4140, 1);
            && r.epRamPtr == 0x2000_4108
            && ok && !Inside(Buffer(s, 2, 0)) && s.epRamPtr == 0
  {
    var r := BusReset(Layout(endpoints));
    assert r.epRamPtr == 0x2000_4108;
    assert RoundUp(0x2000_4108, 64) == 0x2000_4140;
  }

  /** The allocator as the object it is in the firmware. */
  class Allocator {
    var usbRamPtr: uint32
    var epRamPtr: uint32
    const endpointState: array<Endpoint>
    ghost var live: set<nat>

    ghost predicate Valid()
      reads this
    {
      endpointState.Length == ENDPOINTS
    }

    ghost function Abstract(): Ram
      requires Valid()
      reads this, endpointState
    {
      Ram(usbRamPtr, epRamPtr, endpointState[..], live)
    }

    constructor ()
      ensures Valid() && fresh(endpointState)
      ensures Abstract() == Layout(endpointState[..])
    {
      hide RoundUp, Wrap32, Layout;
      InsideWord(RAM_START + LIST_SIZE);
      InsideWord(CONTROL_START + CONTROL_SIZE);
      var ram := RoundUp(RAM_START, 256);
      LayoutEnds(seq(ENDPOINTS, _ => Endpoint(0, 0, 0, 0)));
      ram := Wrap32(ram + LIST_SIZE);
      ram := RoundUp(ram, 64);
      ram := Wrap32(ram + CONTROL_SIZE);
      usbRamPtr, epRamPtr, live := ram, 0, {};
      endpointState := new Endpoint[ENDPOINTS](_ => Endpoint(0, 0, 0, 0));
      new;
      LayoutEnds(endpointState[..]);
    }

    method DisableEndpoints()
      requires Valid()
      modifies this
      ensures Valid() && Abstract() == BusReset(old(Abstract()))
    {
      epRamPtr := usbRamPtr;
      live := {};
    }

    method RealiseEndpoint(endpoint: nat, maxPacket: uint32, options: uint32) returns (ok: bool)
      requires Valid()
      modifies this, endpointState
      ensures Valid() && (Abstract(), ok) == Realise(old(Abstract()), endpoint, maxPacket, options)
    {
      hide RoundUp, Wrap32;
      if endpoint > ENDPOINTS - 1 {
        return false;
      }
      if endpoint == 0 || endpoint == 1 {
        return false;
      }
      live := live - {endpoint};
      ghost var before := endpointState[..];
      var tmp := epRamPtr;
      tmp := RoundUp(tmp, 64);
      if Wrap32(tmp + maxPacket) > RAM_END {
        return false;
      }
      endpointState[endpoint] := endpointState[endpoint].(buffer0 := tmp);
      tmp := Wrap32(tmp + maxPacket);
      if !Single(options) {
        tmp := RoundUp(tmp, 64);
        if Wrap32(tmp + maxPacket) > RAM_END {
          assert endpointState[..] == before[endpoint := endpointState[endpoint]];
          return false;
        }
        endpointState[endpoint] := endpointState[endpoint].(buffer1 := tmp);
        tmp := Wrap32(tmp + maxPacket);
      }
      epRamPtr := tmp;
      endpointState[endpoint] := endpointState[endpoint].(maxPacket := maxPacket, options := options);
      assert endpointState[..] == before[endpoint := endpointState[endpoint]];
      live := live + {endpoint};
      assert live == old(live) + {endpoint};
      ok := true;
    }
  }
}
