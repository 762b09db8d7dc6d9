/**
 All rooms of the service, and how long each of them stays readable: until it is
 revoked, or a sweep finds it idle for longer than the retention.
 */
module RoomTable {
  import opened Wrappers
  import opened CaptionRoom

  /** A room: what it shows, whether it has ended, when it was last pushed to, and
      the queues of its viewers. */
  datatype Hall = Hall(view: View, ended: bool, lastActivity: int, queues: seq<seq<Message>>)

  type Halls = map<string, Hall>

  /** What happens to a room. A push names a room it was let into before. */
  datatype Step =
    | TPublish(id: string, event: Event, at: int)
    | TEnd(id: string)
    | TPurge(id: string)
    | TSweep(at: int)

  function OfferAll(queues: seq<seq<Message>>, m: Message): seq<seq<Message>> {
    seq(|queues|, i requires 0 <= i < |queues| => Offer(queues[i], m))
  }

  function PublishTo(h: Hall, event: Event, at: int): Hall {
    h.(view := Publish(h.view, event), lastActivity := at, queues := OfferAll(h.queues, Happened(event)))
  }

  function EndHall(h: Hall): Hall { h.(view := h.view.(frame := None), ended := true, queues := []) }

  predicate Idle(h: Hall, cutoff: int) { h.lastActivity < cutoff }

  function Next(halls: Halls, retention: nat, step: Step): Halls {
    match step
    case TPublish(id, event, at) => if id in halls then halls[id := PublishTo(halls[id], event, at)] else halls
    case TEnd(id) => if id in halls then halls[id := EndHall(halls[id])] else halls
    case TPurge(id) => halls - {id}
    case TSweep(at) => map id | id in halls && !Idle(halls[id], at - retention) :: halls[id]
  }

  function Run(halls: Halls, retention: nat, steps: seq<Step>): Halls
    decreases |steps|
  {
    if steps == [] then halls else Run(Next(halls, retention, steps[0]), retention, steps[1..])
  }

  // ------------------------------------------------------------- one room alone

  /** One room's fate at a step, whatever else is in the table. */
  function Fate(h: Option<Hall>, id: string, retention: nat, step: Step): Option<Hall> {
    if h.None? then None
    else
      match step
      case TPublish(room, event, at) => if room == id then Some(PublishTo(h.value, event, at)) else h
      case TEnd(room) => if room == id then Some(EndHall(h.value)) else h
      case TPurge(room) => if room == id then None else h
      case TSweep(at) => if Idle(h.value, at - retention) then None else h
  }

  function FateOf(h: Option<Hall>, id: string, retention: nat, steps: seq<Step>): Option<Hall>
    decreases |steps|
  {
    if steps == [] then h else FateOf(Fate(h, id, retention, steps[0]), id, retention, steps[1..])
  }

  function Find(halls: Halls, id: string): Option<Hall> { if id in halls then Some(halls[id]) else None }

  /** Rooms do not touch one another: what becomes of a room over any run depends on
      its own steps and the sweeps alone. */
  lemma {:induction false} RoomsAreIndependent(halls: Halls, retention: nat, steps: seq<Step>, id: string)
    ensures Find(Run(halls, retention, steps), id) == FateOf(Find(halls, id), id, retention, steps)
    decreases |steps|
  {
    if steps != [] {
      assert Find(Next(halls, retention, steps[0]), id) == Fate(Find(halls, id), id, retention, steps[0]);
      RoomsAreIndependent(Next(halls, retention, steps[0]), retention, steps[1..], id);
    }
  }

  // ---------------------------------------------------------------- how long it stays

  /** The last activity of a room after the first steps, if it began at `last`. */
  function ActivityAfter(last: int, id: string, steps: seq<Step>): int {
    if steps == [] then last
    else
      var s := steps[|steps| - 1];
      if s.TPublish? && s.id == id then s.at else ActivityAfter(last, id, steps[..|steps| - 1])
  }

  /** The step takes the room away. */
  predicate Removes(last: int, id: string, retention: nat, steps: seq<Step>, k: nat)
    requires k < |steps|
  {
    || steps[k] == TPurge(id)
    || (steps[k].TSweep? && ActivityAfter(last, id, steps[..k]) < steps[k].at - retention)
  }

  lemma {:induction false} FateAppend(h: Option<Hall>, id: string, retention: nat, front: seq<Step>, last: Step)
    ensures FateOf(h, id, retention, front + [last]) == Fate(FateOf(h, id, retention, front), id, retention, last)
    decreases |front|
  {
    if front == [] {
      assert [last][1..] == [] && [] + [last] == [last];
    } else {
      assert (front + [last])[1..] == front[1..] + [last];
      FateAppend(Fate(h, id, retention, front[0]), id, retention, front[1..], last);
    }
  }

  /** A room is readable exactly until it is revoked or swept after lying idle for
      longer than the retention; stopping to share does not remove it. */
  lemma {:induction false} RoomStaysIff(h: Hall, id: string, retention: nat, steps: seq<Step>)
    ensures FateOf(Some(h), id, retention, steps).Some?
       <==> forall k :: 0 <= k < |steps| ==> !Removes(h.lastActivity, id, retention, steps, k)
    ensures FateOf(Some(h), id, retention, steps).Some? ==>
              FateOf(Some(h), id, retention, steps).value.lastActivity == ActivityAfter(h.lastActivity, id, steps)
    decreases |steps|
  {
    if steps != [] {
      var front, last := steps[..|steps| - 1], steps[|steps| - 1];
      RoomStaysIff(h, id, retention, front);
      FateAppend(Some(h), id, retention, front, last);
      assert steps == front + [last];
      forall k | 0 <= k < |front|
        ensures Removes(h.lastActivity, id, retention, steps, k) <==> Removes(h.lastActivity, id, retention, front, k)
      {
        assert steps[..k] == front[..k];
      }
      var before := FateOf(Some(h), id, retention, front);
      assert Removes(h.lastActivity, id, retention, steps, |front|)
        <==> last == TPurge(id) || (last.TSweep? && ActivityAfter(h.lastActivity, id, front) < last.at - retention);
    }
  }

  /** The events of a room, in order. */
  function EventsOf(id: string, steps: seq<Step>): seq<Event> {
    if steps == [] then []
    else
      EventsOf(id, steps[..|steps| - 1])
      + (if steps[|steps| - 1].TPublish? && steps[|steps| - 1].id == id then [steps[|steps| - 1].event] else [])
  }

  predicate SameTranscript(a: View, b: View) {
    a.meta == b.meta && a.blocks == b.blocks && a.order == b.order && a.segments == b.segments
  }

  lemma PublishKeepsTranscript(a: View, b: View, e: Event)
    requires SameTranscript(a, b)
    ensures SameTranscript(Publish(a, e), Publish(b, e))
  {
  }

  lemma FateKeepsTranscript(h: Hall, v: View, id: string, retention: nat, step: Step)
    requires SameTranscript(h.view, v) && Fate(Some(h), id, retention, step).Some?
    ensures var after := Fate(Some(h), id, retention, step).value.view;
            SameTranscript(after, if step.TPublish? && step.id == id then Publish(v, step.event) else v)
  {
    if step.TPublish? && step.id == id {
      PublishKeepsTranscript(h.view, v, step.event);
    }
  }

  lemma PublishAllNext(v: View, id: string, front: seq<Step>, last: Step)
    ensures var before := PublishAll(v, EventsOf(id, front));
            PublishAll(v, EventsOf(id, front + [last]))
              == if last.TPublish? && last.id == id then Publish(before, last.event) else before
  {
    var events := EventsOf(id, front);
    assert (front + [last])[..|front|] == front;
    if last.TPublish? && last.id == id {
      assert (events + [last.event])[..|events|] == events;
    } else {
      assert events + [] == events;
    }
  }

  /** As long as it stays, a room holds everything published to it: ending it loses
      only the half-spoken frame. */
  lemma {:induction false} TranscriptStays(h: Hall, id: string, retention: nat, steps: seq<Step>)
    requires FateOf(Some(h), id, retention, steps).Some?
    ensures SameTranscript(FateOf(Some(h), id, retention, steps).value.view, PublishAll(h.view, EventsOf(id, steps)))
    decreases |steps|
  {
    if steps != [] {
      var front, last := steps[..|steps| - 1], steps[|steps| - 1];
      FateAppend(Some(h), id, retention, front, last);
      PublishAllNext(h.view, id, front, last);
      assert steps == front + [last];
      TranscriptStays(h, id, retention, front);
      FateKeepsTranscript(FateOf(Some(h), id, retention, front).value, PublishAll(h.view, EventsOf(id, front)), id, retention, last);
    }
  }

  /** The table once the idle ones among some rooms are gone. */
  function SweptAmong(halls: Halls, cutoff: int, ids: set<string>): Halls {
    map id | id in halls && !(id in ids && Idle(halls[id], cutoff)) :: halls[id]
  }

  lemma SweepOneMore(halls: Halls, cutoff: int, ids: set<string>, id: string)
    requires id in halls && id !in ids
    ensures id in SweptAmong(halls, cutoff, ids) && SweptAmong(halls, cutoff, ids)[id] == halls[id]
    ensures var before, after := SweptAmong(halls, cutoff, ids), SweptAmong(halls, cutoff, ids + {id});
            && after == (if Idle(halls[id], cutoff) then before - {id} else before)
            && |after| == |before| - (if Idle(halls[id], cutoff) then 1 else 0)
  {
    var before, after := SweptAmong(halls, cutoff, ids), SweptAmong(halls, cutoff, ids + {id});
    if Idle(halls[id], cutoff) {
      assert after == before - {id};
      assert before == (before - {id})[id := before[id]];
    } else {
      assert after == before;
    }
  }

  function Listed(ids: seq<string>): set<string> { set k | 0 <= k < |ids| :: ids[k] }

  lemma ListedNext(ids: seq<string>, i: nat)
    requires i < |ids| && forall a, b :: 0 <= a < b < |ids| ==> ids[a] != ids[b]
    ensures Listed(ids[..i + 1]) == Listed(ids[..i]) + {ids[i]} && ids[i] !in Listed(ids[..i])
  {
    assert forall k :: 0 <= k < i ==> ids[..i + 1][k] == ids[..i][k];
    assert ids[..i + 1][i] == ids[i];
  }

  // -------------------------------------------------------------------- the store

  /** The table with its rooms as values. */
  class Table {
    var rooms: Halls
    var dirty: bool
    const retention: nat

    constructor (retention: nat)
      ensures rooms == map[] && !dirty && this.retention == retention
    {
      this.retention, rooms, dirty := retention, map[], false;
    }

    /** Removes the listed rooms that lie idle; each is ended first. */
    method RemoveIdle(cutoff: int, ids: seq<string>) returns (removed: nat)
      requires forall k :: 0 <= k < |ids| ==> ids[k] in rooms
      requires forall i, j :: 0 <= i < j < |ids| ==> ids[i] != ids[j]
      modifies this`rooms
      ensures rooms == SweptAmong(old(rooms), cutoff, Listed(ids))
      ensures removed == |old(rooms)| - |rooms|
    {
      removed := 0;
      ghost var before := rooms;
      assert rooms == SweptAmong(before, cutoff, Listed(ids[..0]));
      for i := 0 to |ids|
        invariant rooms == SweptAmong(before, cutoff, Listed(ids[..i]))
        invariant removed == |before| - |rooms|
      {
        ListedNext(ids, i);
        SweepOneMore(before, cutoff, Listed(ids[..i]), ids[i]);
        if rooms[ids[i]].lastActivity < cutoff {
          rooms := rooms - {ids[i]};
          removed := removed + 1;
        }
      }
      assert ids[..|ids|] == ids;
    }

    method SweepIdle(moment: int, ids: seq<string>) returns (removed: nat)
      requires Listed(ids) == rooms.Keys
      requires forall i, j :: 0 <= i < j < |ids| ==> ids[i] != ids[j]
      modifies this`rooms, this`dirty
      ensures rooms == Next(old(rooms), retention, TSweep(moment))
      ensures removed == |old(rooms)| - |rooms|
      ensures dirty == (old(dirty) || removed > 0)
    {
      assert forall k :: 0 <= k < |ids| ==> ids[k] in Listed(ids);
      removed := RemoveIdle(moment - retention, ids);
      if removed > 0 {
        dirty := true;
      }
    }
  }
}
