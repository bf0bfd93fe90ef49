/** The in-process event bus: bounded queues, non-blocking publishing, lazy removal of closed subscribers. */
module EventBus {
  import opened Prelude
  import opened Events

  /** A registered subscriber and its channel. `open` is false once the receiver has been dropped. */
  datatype Subscriber = Subscriber(
    id: nat, kinds: set<EventKind>, capacity: nat, queue: seq<Event>, dropped: nat, open: bool)

  function NewSubscriber(id: nat, kinds: set<EventKind>, capacity: nat): Subscriber {
    Subscriber(id, kinds, if capacity > 1 then capacity else 1, [], 0, true)
  }

  predicate Wants(s: Subscriber, e: Event) {
    KindOf(e) in s.kinds
  }

  /** One turn of `retain_mut`: the subscriber afterwards, or None when it is removed. */
  function Offered(s: Subscriber, e: Event): Option<Subscriber> {
    if !Wants(s, e) then Some(s)
    else if !s.open then None
    else if |s.queue| < s.capacity then Some(s.(queue := s.queue + [e]))
    else Some(s.(dropped := SatAdd64(s.dropped, 1)))
  }

  function OfferedAll(subs: seq<Subscriber>, e: Event): seq<Subscriber> {
    if subs == [] then []
    else
      var front, last := OfferedAll(subs[..|subs| - 1], e), Offered(subs[|subs| - 1], e);
      if last.Some? then front + [last.value] else front
  }

  /** Index of the subscriber with this id. */
  function Find(subs: seq<Subscriber>, id: nat): (r: Option<nat>)
    ensures r.Some? ==> r.value < |subs| && subs[r.value].id == id
    ensures r.None? ==> forall i | 0 <= i < |subs| :: subs[i].id != id
  {
    if subs == [] then None
    else if subs[|subs| - 1].id == id then Some(|subs| - 1)
    else Find(subs[..|subs| - 1], id)
  }

  function Taken(subs: seq<Subscriber>, id: nat): seq<Subscriber> {
    var i := Find(subs, id);
    if i.Some? && subs[i.value].open && subs[i.value].queue != []
    then subs[i.value := subs[i.value].(queue := subs[i.value].queue[1..])] else subs
  }

  function Dropped(subs: seq<Subscriber>, id: nat): seq<Subscriber> {
    var i := Find(subs, id);
    if i.Some? then subs[i.value := subs[i.value].(open := false)] else subs
  }

  class Bus {
    var subscribers: seq<Subscriber>
    var nextId: nat

    constructor ()
      ensures subscribers == [] && nextId == 0
    {
      subscribers, nextId := [], 0;
    }

    /** Register; the id stands for the receiver handed back. */
    method Subscribe(kinds: set<EventKind>, capacity: nat) returns (id: nat)
      modifies this
      ensures id == old(nextId) && nextId == id + 1
      ensures subscribers == old(subscribers) + [NewSubscriber(id, kinds, capacity)]
    {
      id := nextId;
      nextId := nextId + 1;
      subscribers := subscribers + [NewSubscriber(id, kinds, capacity)];
    }

    method Publish(e: Event)
      modifies this`subscribers
      ensures subscribers == OfferedAll(old(subscribers), e)
    {
      var kept: seq<Subscriber> := [];
      for i := 0 to |subscribers|
        invariant subscribers == old(subscribers) && kept == OfferedAll(subscribers[..i], e)
      {
        assert subscribers[..i + 1][..i] == subscribers[..i];
        var s := subscribers[i];
        if KindOf(e) !in s.kinds {
          kept := kept + [s];
        } else if s.open {
          if |s.queue| < s.capacity {
            kept := kept + [s.(queue := s.queue + [e])];
          } else {
            kept := kept + [s.(dropped := SatAdd64(s.dropped, 1))];
          }
        }
      }
      assert subscribers[..|subscribers|] == subscribers;
      subscribers := kept;
    }

    /** The receiver takes the oldest queued event. */
    method Receive(id: nat) returns (e: Option<Event>)
      modifies this`subscribers
      ensures subscribers == Taken(old(subscribers), id)
      ensures var i := Find(old(subscribers), id);
        e == if i.Some? && old(subscribers)[i.value].open && old(subscribers)[i.value].queue != []
             then Some(old(subscribers)[i.value].queue[0]) else None
    {
      var i := Find(subscribers, id);
      e := None;
      if i.Some? && subscribers[i.value].open && subscribers[i.value].queue != [] {
        e := Some(subscribers[i.value].queue[0]);
        subscribers := Taken(subscribers, id);
      }
    }

    /** The receiver is dropped; the bus only notices at a later publish. */
    method CloseReceiver(id: nat)
      modifies this`subscribers
      ensures subscribers == Dropped(old(subscribers), id)
    {
      subscribers := Dropped(subscribers, id);
    }
  }
}
