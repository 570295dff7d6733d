/** The GOOSE receiver: an APPID index over the subscribers, and the dispatch of
    a frame to every subscriber whose filters accept it. */
module Receiver {
  import opened Wrappers
  import opened Bytes
  import opened GooseErrors
  import opened GoosePdu
  import opened GoosePduCodec
  import opened GooseFrame
  import opened GooseMessage
  import opened Sequences
  import opened Subscriber

  /** What a subscriber is handed of a decoded frame that arrived at `now`. */
  function SnapshotOf(h: Header, p: GoosePdu, now: nat): Snapshot {
    Snapshot(p.gocbRef, p.datSet, p.goId, p.timeAllowedToLive, p.stNum, p.sqNum, p.confRev, p.t,
             p.simulation, h.simulation, p.ndsCom, p.allData, h.srcMac, h.dstMac, h.vlan, now, true)
  }

  /** The filters of a subscriber accept a message with this frame header. */
  predicate Interested(f: Filters, h: Header, x: Snapshot) {
    && MatchesFrame(f, h.appId, h.dstMac)
    && MatchesGocbRef(f, x.gocbRef)
    && Accepts(f.simulation, IsSimulated(x))
  }

  /** A decoded frame with its PDU, when that decodes. */
  function PduOf(frame: Frame): Option<(Header, GoosePdu)> {
    match DecodePdu(frame.pdu) case Ok(pdu) => Some((frame.header, pdu)) case Err(_) => None
  }

  /** The plain scan: what a subscriber with these filters is handed of a
      decoded frame, whatever other subscribers there are. */
  function Delivered(f: Filters, got: Option<(Header, GoosePdu)>, now: nat): Option<Snapshot> {
    if got.None? then None
    else
      var x := SnapshotOf(got.value.0, got.value.1, now);
      if Interested(f, got.value.0, x) then Some(x) else None
  }

  function AfterDelivery(t: Table, x: Option<Snapshot>): Table {
    if x.Some? then Update(t, x.value) else t
  }

  function DeliveryEvents(t: Table, x: Option<Snapshot>): seq<Event> {
    if x.Some? then [EventFor(Previous(t, KeyOf(x.value)), x.value)] else []
  }

  // ----- The APPID index -----

  /** A slot of the subscriber list: empty, or the APPID filter of the
      subscriber in it. */
  type Slot = Option<Option<U16>>

  /** `list` names each slot with this APPID filter once, and no other. */
  predicate Listed(list: seq<nat>, slots: seq<Slot>, filter: Option<U16>) {
    && Distinct(list)
    && (forall i :: 0 <= i < |list| ==> list[i] < |slots| && slots[list[i]] == Some(filter))
    && forall k :: 0 <= k < |slots| && slots[k] == Some(filter) ==> k in list
  }

  /** The index lists the subscribers of each APPID, and the wildcard list those
      without an APPID filter. */
  ghost predicate IndexOk(slots: seq<Slot>, index: map<U16, seq<nat>>, wildcards: seq<nat>) {
    && Listed(wildcards, slots, None)
    && (forall id :: id in index ==> Listed(index[id], slots, Some(id)))
    && forall k :: 0 <= k < |slots| && slots[k].Some? && slots[k].value.Some? ==> slots[k].value.value in index
  }

  lemma ListedAdd(list: seq<nat>, slots: seq<Slot>, filter: Option<U16>, added: Option<U16>)
    requires Listed(list, slots, filter)
    ensures Listed(if added == filter then list + [|slots|] else list, slots + [Some(added)], filter)
  {
    var slots' := slots + [Some(added)];
    var list' := if added == filter then list + [|slots|] else list;
    forall k | 0 <= k < |slots'| && slots'[k] == Some(filter)
      ensures k in list'
    {
      if k < |slots| {
        assert k in list;
      }
    }
  }

  /** The entries of a list other than `idx`, in order. */
  function Retained(s: seq<nat>, idx: nat): (r: seq<nat>) {
    if |s| == 0 then []
    else if s[0] == idx then Retained(s[1..], idx)
    else [s[0]] + Retained(s[1..], idx)
  }

  lemma {:induction false} RetainedMember(s: seq<nat>, idx: nat, k: nat)
    ensures k in Retained(s, idx) <==> k in s && k != idx
  {
    if |s| > 0 {
      RetainedMember(s[1..], idx, k);
    }
  }

  lemma {:induction false} RetainedDistinct(s: seq<nat>, idx: nat)
    requires Distinct(s)
    ensures Distinct(Retained(s, idx))
  {
    if |s| > 0 {
      RetainedDistinct(s[1..], idx);
      var rest := Retained(s[1..], idx);
      forall j | 0 <= j < |rest|
        ensures rest[j] != s[0]
      {
        RetainedMember(s[1..], idx, rest[j]);
      }
    }
  }

  lemma ListedRemove(list: seq<nat>, slots: seq<Slot>, filter: Option<U16>, idx: nat)
    requires Listed(list, slots, filter) && idx < |slots|
    ensures Listed(if slots[idx] == Some(filter) then Retained(list, idx) else list, slots[idx := None], filter)
  {
    if slots[idx] == Some(filter) {
      var list' := Retained(list, idx);
      RetainedDistinct(list, idx);
      forall i | 0 <= i < |list'|
        ensures list'[i] < |slots| && list'[i] != idx && slots[list'[i]] == Some(filter)
      {
        RetainedMember(list, idx, list'[i]);
      }
      forall k | 0 <= k < |slots| && slots[idx := None][k] == Some(filter)
        ensures k in list'
      {
        RetainedMember(list, idx, k);
      }
    }
  }

  function IndexEntry(index: map<U16, seq<nat>>, id: U16): seq<nat> {
    if id in index then index[id] else []
  }

  /** Adding a subscriber with an APPID filter keeps the index. */
  lemma IndexAdd(slots: seq<Slot>, index: map<U16, seq<nat>>, wildcards: seq<nat>, id: U16)
    requires IndexOk(slots, index, wildcards)
    ensures IndexOk(slots + [Some(Some(id))], index[id := IndexEntry(index, id) + [|slots|]], wildcards)
  {
    ListedAdd(wildcards, slots, None, Some(id));
    var index' := index[id := IndexEntry(index, id) + [|slots|]];
    forall other | other in index'
      ensures Listed(index'[other], slots + [Some(Some(id))], Some(other))
    {
      ListedAdd(IndexEntry(index, other), slots, Some(other), Some(id));
    }
  }

  lemma WildcardAdd(slots: seq<Slot>, index: map<U16, seq<nat>>, wildcards: seq<nat>)
    requires IndexOk(slots, index, wildcards)
    ensures IndexOk(slots + [Some(None)], index, wildcards + [|slots|])
  {
    ListedAdd(wildcards, slots, None, None);
    forall id | id in index
      ensures Listed(index[id], slots + [Some(None)], Some(id))
    {
      ListedAdd(index[id], slots, Some(id), None);
    }
  }

  /** Removing a subscriber with an APPID filter keeps the index. */
  lemma IndexRemove(slots: seq<Slot>, index: map<U16, seq<nat>>, wildcards: seq<nat>, idx: nat, id: U16)
    requires IndexOk(slots, index, wildcards) && idx < |slots| && slots[idx] == Some(Some(id))
    ensures id in index && IndexOk(slots[idx := None], index[id := Retained(index[id], idx)], wildcards)
  {
    var slots', index' := slots[idx := None], index[id := Retained(index[id], idx)];
    ListedRemove(wildcards, slots, None, idx);
    forall other | other in index'
      ensures Listed(index'[other], slots', Some(other))
    {
      ListedRemove(index[other], slots, Some(other), idx);
    }
  }

  lemma OtherListed(list: seq<nat>, slots: seq<Slot>, id: U16, idx: nat)
    requires Listed(list, slots, Some(id)) && idx < |slots| && slots[idx] == Some(None)
    ensures Listed(list, slots[idx := None], Some(id))
  {
    ListedRemove(list, slots, Some(id), idx);
  }

  lemma WildcardRemove(slots: seq<Slot>, index: map<U16, seq<nat>>, wildcards: seq<nat>, idx: nat)
    requires IndexOk(slots, index, wildcards) && idx < |slots| && slots[idx] == Some(None)
    ensures IndexOk(slots[idx := None], index, Retained(wildcards, idx))
  {
    var slots' := slots[idx := None];
    ListedRemove(wildcards, slots, None, idx);
    forall id | id in index
      ensures Listed(index[id], slots', Some(id))
    {
      OtherListed(index[id], slots, id, idx);
    }
    forall k | 0 <= k < |slots'| && slots'[k].Some? && slots'[k].value.Some?
      ensures slots'[k].value.value in index
    {
      assert slots'[k] == slots[k];
    }
  }

  /** The slots an APPID lookup selects, followed by those without a filter. */
  function CandidateSlots(index: map<U16, seq<nat>>, wildcards: seq<nat>, appId: U16): seq<nat> {
    IndexEntry(index, appId) + wildcards
  }

  /** The lookup agrees with a scan: it selects exactly the subscribers whose
      APPID filter accepts, each once. */
  lemma CandidatesExact(slots: seq<Slot>, index: map<U16, seq<nat>>, wildcards: seq<nat>, appId: U16)
    requires IndexOk(slots, index, wildcards)
    ensures var c := CandidateSlots(index, wildcards, appId);
            && Distinct(c)
            && (forall i :: 0 <= i < |c| ==> c[i] < |slots| && slots[c[i]].Some?)
            && forall k :: 0 <= k < |slots| ==>
                             (k in c <==> slots[k] == Some(None) || slots[k] == Some(Some(appId)))
  {
    var list := IndexEntry(index, appId);
    var c := CandidateSlots(index, wildcards, appId);
    assert Listed(list, slots, Some(appId)) by {
      if appId !in index {
        assert forall k :: 0 <= k < |slots| ==> slots[k] != Some(Some(appId));
      }
    }
    forall k | 0 <= k < |slots|
      ensures k in c <==> slots[k] == Some(None) || slots[k] == Some(Some(appId))
    {
      if k in list { var i :| 0 <= i < |list| && list[i] == k; }
      if k in wildcards { var i :| 0 <= i < |wildcards| && wildcards[i] == k; }
    }
  }

  function SlotOf(sub: GooseSubscriber?): Slot {
    if sub == null then None else Some(sub.filters.appId)
  }

  function SlotsOf(subs: seq<GooseSubscriber?>): (slots: seq<Slot>)
    ensures |slots| == |subs|
    ensures forall k :: 0 <= k < |subs| ==> slots[k] == SlotOf(subs[k])
  {
    if |subs| == 0 then [] else SlotsOf(subs[..|subs| - 1]) + [SlotOf(subs[|subs| - 1])]
  }

  /** A subscriber took in one delivery, or none. */
  twostate predicate DeliveredTo(sub: GooseSubscriber, x: Option<Snapshot>)
    reads sub
  {
    && sub.Abs() == AfterDelivery(old(sub.Abs()), x)
    && sub.log == old(sub.log) + if sub.hasListener then DeliveryEvents(old(sub.Abs()), x) else []
  }

  /** What a subscriber takes of a message it is offered. */
  function Offered(f: Filters, h: Header, x: Snapshot): Option<Snapshot> {
    if Interested(f, h, x) then Some(x) else None
  }

  method Offer(sub: GooseSubscriber, h: Header, x: Snapshot)
    modifies sub
    ensures DeliveredTo(sub, Offered(sub.filters, h, x))
  {
    if Interested(sub.filters, h, x) {
      sub.UpdateAndDispatch(x);
    }
  }

  /** What a subscriber with these filters is handed in one polling step. */
  function Polled(f: Filters, frame: Option<seq<Byte>>, now: nat): Option<Snapshot> {
    if frame.Some? then Delivered(f, Decoded(frame.value), now) else None
  }

  twostate predicate SweptAt(sub: GooseSubscriber, now: nat)
    reads sub
  {
    && sub.Abs() == Step(old(sub.Abs()), Sweep(now))
    && sub.log == old(sub.log) + if sub.hasListener then SweepEvents(old(sub.streams), now) else []
  }

  /** A subscriber took in one delivery, or none, and was then swept. */
  twostate predicate HandledAt(sub: GooseSubscriber, x: Option<Snapshot>, now: nat)
    reads sub
  {
    var t := AfterDelivery(old(sub.Abs()), x);
    && sub.Abs() == Step(t, Sweep(now))
    && sub.log == old(sub.log) + if sub.hasListener then DeliveryEvents(old(sub.Abs()), x) + SweepEvents(t.streams, now)
                                 else []
  }

  class GooseReceiver {
    /** Subscribers by index; a removed one leaves its slot empty. */
    var subscribers: seq<GooseSubscriber?>
    var appidIndex: map<U16, seq<nat>>
    var wildcards: seq<nat>

    /** The indexes agree with the subscriber list, whose entries are the
        receiver's own. */
    ghost predicate Valid()
      reads this
    {
      && IndexOk(SlotsOf(subscribers), appidIndex, wildcards)
      && forall i, j :: 0 <= i < j < |subscribers| && subscribers[i] != null ==> subscribers[i] != subscribers[j]
    }

    constructor ()
      ensures Valid() && subscribers == []
    {
      subscribers, appidIndex, wildcards := [], map[], [];
    }

    /** Adds a subscriber and returns its index. */
    method AddSubscriber(sub: GooseSubscriber) returns (idx: nat)
      requires Valid() && sub !in subscribers
      modifies this
      ensures Valid() && subscribers == old(subscribers) + [sub] && idx == |old(subscribers)|
    {
      idx := |subscribers|;
      ghost var slots := SlotsOf(subscribers);
      match sub.filters.appId {
        case Some(id) =>
          IndexAdd(slots, appidIndex, wildcards, id);
          appidIndex := appidIndex[id := IndexEntry(appidIndex, id) + [idx]];
        case None =>
          WildcardAdd(slots, appidIndex, wildcards);
          wildcards := wildcards + [idx];
      }
      subscribers := subscribers + [sub];
      assert SlotsOf(subscribers) == slots + [SlotOf(sub)];
    }

    /** Removes the subscriber at `idx` and returns whether there was one. */
    method RemoveSubscriber(idx: nat) returns (removed: bool)
      requires Valid()
      modifies this
      ensures Valid()
      ensures removed <==> idx < |old(subscribers)| && old(subscribers)[idx] != null
      ensures subscribers == if removed then old(subscribers)[idx := null] else old(subscribers)
    {
      if idx >= |subscribers| {
        return false;
      }
      var sub := subscribers[idx];
      if sub == null {
        return false;
      }
      ghost var slots := SlotsOf(subscribers);
      subscribers := subscribers[idx := null];
      assert SlotsOf(subscribers) == slots[idx := None];
      match sub.filters.appId {
        case Some(id) =>
          IndexRemove(slots, appidIndex, wildcards, idx, id);
          appidIndex := appidIndex[id := Retained(appidIndex[id], idx)];
        case None =>
          WildcardRemove(slots, appidIndex, wildcards, idx);
          wildcards := Retained(wildcards, idx);
      }
      return true;
    }

    ghost function Owned(): set<object>
      reads this
    {
      set k: nat | k < |subscribers| && subscribers[k] != null :: subscribers[k]
    }

    /** Whether some candidate accepts the frame header. */
    method AnyFrameMatch(candidates: seq<nat>, appId: U16, dstMac: Mac) returns (found: bool)
      requires forall i :: 0 <= i < |candidates| ==> candidates[i] < |subscribers| && subscribers[candidates[i]] != null
      ensures found <==> exists i :: 0 <= i < |candidates|
                                     && MatchesFrame(subscribers[candidates[i]].filters, appId, dstMac)
    {
      var i := 0;
      while i < |candidates|
        invariant 0 <= i <= |candidates|
        invariant forall j :: 0 <= j < i ==> !MatchesFrame(subscribers[candidates[j]].filters, appId, dstMac)
      {
        if MatchesFrame(subscribers[candidates[i]].filters, appId, dstMac) {
          return true;
        }
        i := i + 1;
      }
      return false;
    }

    /** Hands `x` to every candidate whose filters accept it. */
    method Dispatch(candidates: seq<nat>, h: Header, x: Snapshot)
      requires Valid() && Distinct(candidates)
      requires forall i :: 0 <= i < |candidates| ==> candidates[i] < |subscribers| && subscribers[candidates[i]] != null
      modifies Owned()
      ensures forall j :: 0 <= j < |candidates| ==>
                DeliveredTo(subscribers[candidates[j]], Offered(subscribers[candidates[j]].filters, h, x))
      ensures forall k :: 0 <= k < |subscribers| && subscribers[k] != null && k !in candidates ==>
                unchanged(subscribers[k])
    {
      var i := 0;
      while i < |candidates|
        invariant 0 <= i <= |candidates|
        invariant forall j :: 0 <= j < i ==>
                    DeliveredTo(subscribers[candidates[j]], Offered(subscribers[candidates[j]].filters, h, x))
        invariant forall k :: 0 <= k < |subscribers| && subscribers[k] != null && k !in candidates[..i] ==>
                    unchanged(subscribers[k])
      {
        var idx := candidates[i];
        assert candidates[..i + 1] == candidates[..i] + [idx];
        assert idx !in candidates[..i];
        Offer(subscribers[idx], h, x);
        i := i + 1;
      }
      assert candidates[..i] == candidates;
    }

    /** Dispatches a decoded frame through the index; every subscriber ends up
        as the plain scan says. */
    method DispatchThroughIndex(h: Header, pdu: GoosePdu, now: nat)
      requires Valid()
      modifies Owned()
      ensures forall k :: 0 <= k < |subscribers| && subscribers[k] != null ==>
                            DeliveredTo(subscribers[k], Delivered(subscribers[k].filters, Some((h, pdu)), now))
    {
      var candidates := CandidateSlots(appidIndex, wildcards, h.appId);
      CandidatesCover(h.appId, h.dstMac);
      var x := SnapshotOf(h, pdu, now);
      Dispatch(candidates, h, x);
      forall k | 0 <= k < |subscribers| && subscribers[k] != null
        ensures DeliveredTo(subscribers[k], Delivered(subscribers[k].filters, Some((h, pdu)), now))
      {
        assert Delivered(subscribers[k].filters, Some((h, pdu)), now) == Offered(subscribers[k].filters, h, x);
        if k in candidates {
          var j :| 0 <= j < |candidates| && candidates[j] == k;
          assert DeliveredTo(subscribers[candidates[j]], Offered(subscribers[candidates[j]].filters, h, x));
        }
      }
    }

    /** Every subscriber whose frame filters accept is a candidate. */
    lemma CandidatesCover(appId: U16, dstMac: Mac)
      requires Valid()
      ensures var c := CandidateSlots(appidIndex, wildcards, appId);
              && Distinct(c)
              && (forall i :: 0 <= i < |c| ==> c[i] < |subscribers| && subscribers[c[i]] != null)
              && forall k :: 0 <= k < |subscribers| && subscribers[k] != null ==>
                               (MatchesFrame(subscribers[k].filters, appId, dstMac) ==> k in c)
    {
      var c, slots := CandidateSlots(appidIndex, wildcards, appId), SlotsOf(subscribers);
      CandidatesExact(slots, appidIndex, wildcards, appId);
      assert forall i :: 0 <= i < |c| ==> slots[c[i]] == SlotOf(subscribers[c[i]]);
      forall k | 0 <= k < |subscribers| && subscribers[k] != null && MatchesFrame(subscribers[k].filters, appId, dstMac)
        ensures k in c
      {
        var filter := subscribers[k].filters.appId;
        assert slots[k] == Some(filter);
        assert filter == None || filter == Some(appId);
      }
    }

    /** Some live subscriber accepts the frame header. */
    ghost predicate Wanted(h: Header)
      reads this
    {
      exists k :: 0 <= k < |subscribers| && subscribers[k] != null
                  && MatchesFrame(subscribers[k].filters, h.appId, h.dstMac)
    }

    /** Some candidate accepts a frame exactly when some subscriber does. */
    lemma WantedByCandidate(h: Header)
      requires Valid()
      ensures var c := CandidateSlots(appidIndex, wildcards, h.appId);
              && (forall i :: 0 <= i < |c| ==> c[i] < |subscribers| && subscribers[c[i]] != null)
              && (Wanted(h) <==>
                    exists i :: 0 <= i < |c| && MatchesFrame(subscribers[c[i]].filters, h.appId, h.dstMac))
    {
      var c := CandidateSlots(appidIndex, wildcards, h.appId);
      CandidatesCover(h.appId, h.dstMac);
      if Wanted(h) {
        var k :| 0 <= k < |subscribers| && subscribers[k] != null
                 && MatchesFrame(subscribers[k].filters, h.appId, h.dstMac);
        var i :| 0 <= i < |c| && c[i] == k;
        assert MatchesFrame(subscribers[c[i]].filters, h.appId, h.dstMac);
      }
    }

    /** A frame that nobody wants is delivered to nobody. */
    lemma NobodyWants(h: Header, got: Option<(Header, GoosePdu)>, now: nat)
      requires !Wanted(h) && (got.Some? ==> got.value.0 == h)
      ensures forall k :: 0 <= k < |subscribers| && subscribers[k] != null ==>
                Delivered(subscribers[k].filters, got, now) == None
    {
    }

    /** What the caller is told of a decoded frame: the error of its PDU exactly
        when some subscriber accepts the frame. */
    ghost function Outcome(frame: Frame): Result<(), GooseError>
      reads this
    {
      if DecodePdu(frame.pdu).Err? && Wanted(frame.header) then Err(DecodePdu(frame.pdu).error) else Ok(())
    }

    /** Decodes the PDU of a frame that some subscriber accepts and dispatches
        it. */
    method DecodeAndDispatch(frame: Frame, now: nat)
      returns (r: Result<(), GooseError>, ghost got: Option<(Header, GoosePdu)>)
      requires Valid() && Wanted(frame.header)
      modifies Owned()
      ensures got == PduOf(frame)
      ensures forall k :: 0 <= k < |subscribers| && subscribers[k] != null ==>
                            DeliveredTo(subscribers[k], Delivered(subscribers[k].filters, got, now))
      ensures r == Outcome(frame)
    {
      got := PduOf(frame);
      var pdu := DecodeBer(frame.pdu);
      if pdu.Err? {
        return Err(pdu.error), got;
      }
      DispatchThroughIndex(frame.header, pdu.value, now);
      return Ok(()), got;
    }

    /** Dispatches the PDU of a decoded frame. It is decoded only when some
        subscriber accepts the frame, which changes no subscriber's outcome. */
    method HandleFrame(frame: Frame, now: nat) returns (r: Result<(), GooseError>, ghost got: Option<(Header, GoosePdu)>)
      requires Valid()
      modifies Owned()
      ensures got == PduOf(frame)
      ensures forall k :: 0 <= k < |subscribers| && subscribers[k] != null ==>
                            DeliveredTo(subscribers[k], Delivered(subscribers[k].filters, got, now))
      ensures r == Outcome(frame)
    {
      var h := frame.header;
      WantedByCandidate(h);
      var anyMatch := AnyFrameMatch(CandidateSlots(appidIndex, wildcards, h.appId), h.appId, h.dstMac);
      if !anyMatch {
        got := PduOf(frame);
        NobodyWants(h, got, now);
        return Ok(()), got;
      }
      r, got := DecodeAndDispatch(frame, now);
    }

    /** Decodes a frame and dispatches it. */
    method DoHandleMessage(buf: seq<Byte>, now: nat)
      returns (r: Result<(), GooseError>, ghost got: Option<(Header, GoosePdu)>)
      requires Valid()
      modifies Owned()
      ensures got == Decoded(buf)
      ensures forall k :: 0 <= k < |subscribers| && subscribers[k] != null ==>
                            DeliveredTo(subscribers[k], Delivered(subscribers[k].filters, got, now))
      ensures r == match DecodeFrame(buf) case Err(e) => Err(e) case Ok(frame) => Outcome(frame)
    {
      var frame := GooseFrame.Decode(buf);
      if frame.Err? {
        got := None;
        return Err(frame.error), got;
      }
      r, got := HandleFrame(frame.value, now);
    }

    /** Sweeps every subscriber for expired publications. */
    method CheckAllExpired(now: nat)
      requires Valid()
      modifies Owned()
      ensures forall k :: 0 <= k < |subscribers| && subscribers[k] != null ==> SweptAt(subscribers[k], now)
    {
      var i := 0;
      while i < |subscribers|
        invariant 0 <= i <= |subscribers|
        invariant forall k :: 0 <= k < i && subscribers[k] != null ==> SweptAt(subscribers[k], now)
        invariant forall k :: i <= k < |subscribers| && subscribers[k] != null ==> unchanged(subscribers[k])
      {
        var sub := subscribers[i];
        if sub != null {
          sub.CheckExpiredAt(now);
        }
        i := i + 1;
      }
    }

    /** Handles a frame that arrived at `now`, then sweeps: every subscriber gets
        what the plain scan says, once, and its expiries; a frame that does not
        decode changes nothing but the sweep. */
    method HandleMessageAt(buf: seq<Byte>, now: nat) returns (ghost got: Option<(Header, GoosePdu)>)
      requires Valid()
      modifies Owned()
      ensures got == Decoded(buf)
      ensures forall k :: 0 <= k < |subscribers| && subscribers[k] != null ==>
                            HandledAt(subscribers[k], Delivered(subscribers[k].filters, got, now), now)
    {
      var r;
      r, got := DoHandleMessage(buf, now);
      label Dispatched:
      CheckAllExpired(now);
      forall k | 0 <= k < |subscribers| && subscribers[k] != null
        ensures HandledAt(subscribers[k], Delivered(subscribers[k].filters, got, now), now)
      {
        var sub := subscribers[k];
        assert SweptAt@Dispatched(sub, now);
        var x := Delivered(sub.filters, got, now);
        Associative(old(sub.log), DeliveryEvents(old(sub.Abs()), x), SweepEvents(old@Dispatched(sub.streams), now));
      }
    }

    /** One step of a polling loop: a frame is handled, without one there is
        only the sweep. */
    method TickAt(frame: Option<seq<Byte>>, now: nat) returns (hadData: bool)
      requires Valid()
      modifies Owned()
      ensures hadData <==> frame.Some? && frame.value != []
      ensures forall k :: 0 <= k < |subscribers| && subscribers[k] != null ==>
                            HandledAt(subscribers[k], Polled(subscribers[k].filters, frame, now), now)
    {
      if frame.Some? {
        ghost var _ := HandleMessageAt(frame.value, now);
        return frame.value != [];
      }
      CheckAllExpired(now);
      return false;
    }
  }
}
