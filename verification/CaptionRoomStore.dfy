/**
 Rooms and their subscribers as objects: every method is one critical section.
 */
module CaptionRoomStore {
  import opened Wrappers
  import opened CaptionRoom
  import T = RoomTable

  /** One viewer's bounded queue. */
  class Subscriber {
    var queue: seq<Message>

    constructor ()
      ensures queue == []
    {
      queue := [];
    }

    /** Puts a message, giving up the oldest one as often as the queue is full. */
    method Offer(m: Message)
      requires |queue| <= SUBSCRIBER_QUEUE_DEPTH
      modifies this
      ensures queue == CaptionRoom.Offer(old(queue), m) && |queue| <= SUBSCRIBER_QUEUE_DEPTH
    {
      while |queue| >= SUBSCRIBER_QUEUE_DEPTH
        invariant |queue| <= |old(queue)| && queue == old(queue)[|old(queue)| - |queue|..]
        invariant |old(queue)| < SUBSCRIBER_QUEUE_DEPTH ==> queue == old(queue)
        invariant |old(queue)| >= SUBSCRIBER_QUEUE_DEPTH ==> |queue| >= SUBSCRIBER_QUEUE_DEPTH - 1
      {
        queue := queue[1..];
      }
      queue := queue + [m];
    }

    /** A put that gives up at once when the queue is full. */
    method PutNowait(m: Message) returns (ok: bool)
      modifies this
      ensures ok <==> |old(queue)| < SUBSCRIBER_QUEUE_DEPTH
      ensures queue == if ok then old(queue) + [m] else old(queue)
    {
      if |queue| >= SUBSCRIBER_QUEUE_DEPTH {
        return false;
      }
      queue := queue + [m];
      ok := true;
    }
  }

  datatype Refusal = Locked | Full

  datatype Stats = Stats(viewers: nat, locked: bool, ended: bool)

  function Greeting(init: Init, ended: bool): seq<Message> {
    if ended then [Start(init), Ended(false)] else [Start(init)]
  }

  /** A new queue holding the whole room, and its end if it has ended. */
  method Greet(init: Init, ended: bool) returns (subscriber: Subscriber)
    ensures fresh(subscriber) && subscriber.queue == Greeting(init, ended)
  {
    subscriber := new Subscriber();
    var start := Start(init);
    OfferWithRoom([], start);
    subscriber.Offer(start);
    if ended {
      OfferWithRoom([start], Ended(false));
      subscriber.Offer(Ended(false));
    }
  }

  lemma OfferWithRoom(queue: seq<Message>, m: Message)
    requires |queue| < SUBSCRIBER_QUEUE_DEPTH
    ensures CaptionRoom.Offer(queue, m) == queue + [m]
  {
  }

  lemma OffersAreBounded(m: Message)
    ensures forall queue: seq<Message> {:trigger CaptionRoom.Offer(queue, m)} ::
              |CaptionRoom.Offer(queue, m)| <= SUBSCRIBER_QUEUE_DEPTH
  {
  }

  /** What each queue becomes. */
  function Queues(subscribers: seq<Subscriber>): (queues: seq<seq<Message>>)
    reads subscribers
    ensures |queues| == |subscribers| && forall i :: 0 <= i < |queues| ==> queues[i] == subscribers[i].queue
  {
    if subscribers == [] then [] else Queues(subscribers[..|subscribers| - 1]) + [subscribers[|subscribers| - 1].queue]
  }

  method OfferAll(subscribers: seq<Subscriber>, m: Message)
    requires forall i, j :: 0 <= i < j < |subscribers| ==> subscribers[i] != subscribers[j]
    requires forall i :: 0 <= i < |subscribers| ==> |subscribers[i].queue| <= SUBSCRIBER_QUEUE_DEPTH
    modifies subscribers
    ensures forall i :: 0 <= i < |subscribers| ==> subscribers[i].queue == CaptionRoom.Offer(old(subscribers[i].queue), m)
  {
    ghost var before := Queues(subscribers);
    var i := 0;
    while i < |subscribers|
      invariant 0 <= i <= |subscribers|
      invariant forall j :: i <= j < |subscribers| ==> subscribers[j].queue == before[j]
      invariant forall j :: 0 <= j < i ==> subscribers[j].queue == CaptionRoom.Offer(before[j], m)
    {
      subscribers[i].Offer(m);
      i := i + 1;
    }
  }

  /** A room object as a value of the table of rooms. */
  ghost function HallOf(room: Room): T.Hall
    reads room, room.subscribers
  {
    T.Hall(room.View(), room.ended, room.lastActivity, Queues(room.subscribers))
  }

  /** A push does to a room object what it does to its value in the table. */
  method PushTo(room: Room, event: Event, moment: int)
    requires room.Valid()
    modifies room, room.subscribers
    ensures room.Valid() && HallOf(room) == T.PublishTo(old(HallOf(room)), event, moment)
  {
    ghost var before := Queues(room.subscribers);
    room.Publish(event, moment);
    assert Queues(room.subscribers) == T.OfferAll(before, Happened(event));
  }

  class Room {
    var frame: Option<string>
    var meta: Option<string>
    var blocks: map<string, string>
    var sessionOrder: seq<string>
    var segments: seq<string>
    var locked: bool
    var ended: bool
    var lastActivity: int
    var subscribers: seq<Subscriber>

    function View(): View
      reads this
    {
      CaptionRoom.View(frame, meta, blocks, sessionOrder, segments)
    }

    /** An ended room has no subscribers, and no queue is over its bound. */
    ghost predicate Valid()
      reads this, subscribers
    {
      && Orderly(View())
      && (ended ==> subscribers == [])
      && |subscribers| <= MAX_SUBSCRIBERS_PER_ROOM
      && (forall i, j :: 0 <= i < j < |subscribers| ==> subscribers[i] != subscribers[j])
      && (forall i :: 0 <= i < |subscribers| ==> |subscribers[i].queue| <= SUBSCRIBER_QUEUE_DEPTH)
    }

    constructor (moment: int)
      ensures Valid() && !locked && subscribers == [] && HallOf(this) == T.Hall(EMPTY_VIEW, false, moment, [])
    {
      lastActivity := moment;
      frame, meta, blocks, sessionOrder, segments := None, None, map[], [], [];
      locked, ended, subscribers := false, false, [];
    }

    /** Offers a message to every subscriber, in the order in which they came. */
    method Fanout(m: Message)
      requires Valid()
      modifies subscribers
      ensures Valid()
      ensures forall i :: 0 <= i < |subscribers| ==> subscribers[i].queue == CaptionRoom.Offer(old(subscribers[i].queue), m)
    {
      OfferAll(subscribers, m);
      OffersAreBounded(m);
    }

    /** Keeps what the event says and passes it on, whether or not the room has
        ended since the push was let in. */
    method Publish(event: Event, moment: int)
      requires Valid()
      modifies this, subscribers
      ensures Valid() && lastActivity == moment
      ensures View() == CaptionRoom.Publish(old(View()), event)
      ensures subscribers == old(subscribers) && ended == old(ended) && locked == old(locked)
      ensures forall i :: 0 <= i < |subscribers| ==>
        subscribers[i].queue == CaptionRoom.Offer(old(subscribers[i].queue), Happened(event))
    {
      lastActivity := moment;
      PublishStaysOrderly(View(), event);
      Keep(event);
      Fanout(Happened(event));
    }

    /** What the room remembers of an event. */
    method Keep(event: Event)
      modifies this`frame, this`meta, this`blocks, this`sessionOrder, this`segments
      ensures View() == CaptionRoom.Publish(old(View()), event)
    {
      match event {
        case Frame(payload) => frame := Some(payload);
        case Meta(payload) => meta := Some(payload);
        case Blocks(session, payload) =>
          if session.Some? && session.value != "" {
            if session.value !in blocks {
              sessionOrder := sessionOrder + [session.value];
            }
            blocks := blocks[session.value := payload];
          }
        case Segment(payload, paused) =>
          segments := segments + [payload];
          segments := segments[if |segments| <= MAX_SEGMENTS_PER_ROOM then 0 else |segments| - MAX_SEGMENTS_PER_ROOM..];
          if paused {
            frame := None;
          }
      }
    }

    /** Seats a viewer, sending the whole room first; an ended room also sends its
        end and takes no seat. */
    method Subscribe() returns (result: Result<Subscriber, Refusal>)
      requires Valid()
      modifies this`subscribers
      ensures Valid() && View() == old(View())
      ensures result.Err? <==> !ended && (locked || |old(subscribers)| >= 200)
      ensures result == Err(Locked) <==> !ended && locked
      ensures result.Ok? ==> fresh(result.value)
      ensures result.Ok? ==>
        result.value.queue == [Start(InitOf(View()))] + (if ended then [Ended(false)] else [])
      ensures subscribers == if result.Ok? && !ended then old(subscribers) + [result.value] else old(subscribers)
    {
      if locked && !ended {
        return Err(Locked);
      }
      if !ended && |subscribers| >= MAX_SUBSCRIBERS_PER_ROOM {
        return Err(Full);
      }
      var subscriber := Greet(InitOf(View()), ended);
      if ended {
        return Ok(subscriber);
      }
      subscribers := subscribers + [subscriber];
      result := Ok(subscriber);
    }

    /** Ends the room: its last frame goes, everyone attached is told last of all,
        and nobody is attached any more. */
    method End(purged: bool)
      requires Valid()
      modifies this, subscribers
      ensures Valid() && ended && subscribers == [] && locked == old(locked) && lastActivity == old(lastActivity)
      ensures View() == old(View()).(frame := None)
      ensures forall i :: 0 <= i < |old(subscribers)| ==>
        old(subscribers)[i].queue == CaptionRoom.Offer(old(subscribers[i].queue), Ended(purged))
    {
      frame := None;
      Fanout(Ended(purged));
      ended := true;
      subscribers := [];
    }

    method SetLocked(value: bool)
      requires Valid()
      modifies this`locked
      ensures Valid() && locked == value
    {
      locked := value;
    }

    /** Probes every connection that has room for a probe, and counts them. */
    method GetStats() returns (stats: Stats)
      requires Valid()
      modifies subscribers
      ensures Valid()
      ensures stats == Stats(|subscribers|, locked, ended)
      ensures forall i :: 0 <= i < |subscribers| ==>
        subscribers[i].queue == old(subscribers[i].queue) + (if |old(subscribers[i].queue)| < 32 then [Ping] else [])
    {
      var i := 0;
      while i < |subscribers|
        invariant 0 <= i <= |subscribers|
        invariant forall j :: 0 <= j < i ==> subscribers[j].queue == Probe(old(subscribers[j].queue))
        invariant forall j :: i <= j < |subscribers| ==> subscribers[j].queue == old(subscribers[j].queue)
      {
        var _ := subscribers[i].PutNowait(Ping);
        i := i + 1;
      }
      stats := Stats(|subscribers|, locked, ended);
    }

    method Unsubscribe(subscriber: Subscriber)
      requires Valid()
      modifies this`subscribers
      ensures Valid()
      ensures subscriber !in subscribers
      ensures forall other :: other != subscriber ==> (other in subscribers <==> other in old(subscribers))
      ensures subscriber !in old(subscribers) ==> subscribers == old(subscribers)
    {
      if subscriber in subscribers {
        var at :| 0 <= at < |subscribers| && subscribers[at] == subscriber;
        ghost var before := subscribers;
        subscribers := subscribers[..at] + subscribers[at + 1..];
        forall i | 0 <= i < |subscribers| ensures subscribers[i] == before[if i < at then i else i + 1] {}
        forall i | 0 <= i < |before| && i != at ensures before[i] in subscribers {
          assert subscribers[if i < at then i else i - 1] == before[i];
        }
      }
    }
  }

  /** The rooms by their ids, and whether they differ from what is on disk. */
  class RoomStore {
    var rooms: map<string, Room>
    var dirty: bool

    constructor ()
      ensures rooms == map[] && !dirty
    {
      rooms, dirty := map[], false;
    }

    /** A push does to the room what it does to its value in the table. A frame is
        not written to disk, so it does not make the store dirty. */
    method Publish(room: Room, event: Event, moment: int)
      requires room.Valid()
      modifies this`dirty, room, room.subscribers
      ensures room.Valid() && HallOf(room) == T.PublishTo(old(HallOf(room)), event, moment)
      ensures dirty == (old(dirty) || !event.Frame?)
    {
      dirty := dirty || !event.Frame?;
      PushTo(room, event, moment);
    }

    /** The room stays in the table with all it holds but its frame; whoever was
        attached hears of the end last of all. */
    method EndRoom(room: Room)
      requires room.Valid()
      modifies this`dirty, room, room.subscribers
      ensures room.Valid() && HallOf(room) == T.EndHall(old(HallOf(room))) && dirty
      ensures T.SameTranscript(room.View(), old(room.View()))
      ensures forall i :: 0 <= i < |old(room.subscribers)| ==>
        old(room.subscribers)[i].queue == CaptionRoom.Offer(old(room.subscribers[i].queue), Ended(false))
    {
      room.End(false);
      dirty := true;
    }

    /** Revoking also takes the room out of the table, and no other. */
    method PurgeRoom(room: Room, id: string)
      requires room.Valid()
      modifies this, room, room.subscribers
      ensures room.Valid() && room.ended && room.subscribers == [] && dirty
      ensures id !in rooms && forall other :: other != id ==>
        (other in rooms <==> other in old(rooms)) && (other in rooms ==> rooms[other] == old(rooms)[other])
      ensures forall i :: 0 <= i < |old(room.subscribers)| ==>
        old(room.subscribers)[i].queue == CaptionRoom.Offer(old(room.subscribers[i].queue), Ended(true))
    {
      room.End(true);
      rooms := rooms - {id};
      dirty := true;
    }

    /** One turn of a sweep. A room that lies idle is ended, so that whoever is
        still attached hears of it last of all, and leaves the table; any other
        room stays as it is. */
    method SweepRoom(room: Room, id: string, cutoff: int) returns (removed: bool)
      requires room.Valid() && id in rooms && rooms[id] == room
      modifies this`rooms, room, room.subscribers
      ensures removed <==> T.Idle(old(HallOf(room)), cutoff)
      ensures rooms == if removed then old(rooms) - {id} else old(rooms)
      ensures room.Valid() && HallOf(room) == if removed then T.EndHall(old(HallOf(room))) else old(HallOf(room))
      ensures removed ==> forall i :: 0 <= i < |old(room.subscribers)| ==>
        old(room.subscribers)[i].queue == CaptionRoom.Offer(old(room.subscribers[i].queue), Ended(false))
    {
      removed := room.lastActivity < cutoff;
      if removed {
        room.End(false);
        rooms := rooms - {id};
      }
    }
  }
}
