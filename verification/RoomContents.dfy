/**
 What a room holds after any events, told from the events alone: the last of what
 replaces itself, the first places, the newest dividers.
 */
module RoomContents {
  import opened Wrappers
  import opened CaptionRoom

  /** The event keeps a snapshot of that recording: one without an id keeps none. */
  predicate IsSnapshot(e: Event, session: string) { e.Blocks? && e.session == Some(session) && session != "" }

  predicate IsPause(e: Event) { e.Segment? && e.paused }

  /** The last snapshot of a recording. */
  predicate SnapshotAt(events: seq<Event>, i: int, session: string, payload: string) {
    && 0 <= i < |events| && IsSnapshot(events[i], session) && events[i].payload == payload
    && forall j :: i < j < |events| ==> !IsSnapshot(events[j], session)
  }

  /** The last description. */
  predicate MetaAt(events: seq<Event>, i: int, payload: string) {
    && 0 <= i < |events| && events[i] == Meta(payload)
    && forall j :: i < j < |events| ==> !events[j].Meta?
  }

  /** The last frame, with no pause behind it. */
  predicate FrameAt(events: seq<Event>, i: int, payload: string) {
    && 0 <= i < |events| && events[i] == Frame(payload)
    && forall j :: i < j < |events| ==> !events[j].Frame? && !IsPause(events[j])
  }

  /** The payloads of all dividers, in order. */
  function Dividers(events: seq<Event>): seq<string> {
    if events == [] then []
    else
      var last := events[|events| - 1];
      Dividers(events[..|events| - 1]) + (if last.Segment? then [last.payload] else [])
  }

  /** The recordings of which there are snapshots, one for each snapshot. */
  function Named(events: seq<Event>): seq<string> {
    if events == [] then []
    else
      var last := events[|events| - 1];
      Named(events[..|events| - 1])
      + (if last.Blocks? && last.session.Some? && last.session.value != "" then [last.session.value] else [])
  }

  /** Each name once, where it comes first. */
  function FirstPlaces(names: seq<string>): seq<string> {
    if names == [] then []
    else
      var front, last := names[..|names| - 1], names[|names| - 1];
      FirstPlaces(front) + (if last in front then [] else [last])
  }

  lemma {:induction false} FirstPlacesHoldAll(names: seq<string>)
    ensures forall s :: s in FirstPlaces(names) <==> s in names
  {
    if names != [] {
      var front := names[..|names| - 1];
      FirstPlacesHoldAll(front);
      assert names == front + [names[|names| - 1]];
    }
  }

  // ------------------------------------------------------------ one part at a time

  lemma Split(events: seq<Event>) returns (front: seq<Event>, last: Event)
    requires events != []
    ensures events == front + [last] && |front| == |events| - 1
    ensures PublishAll(EMPTY_VIEW, events) == Publish(PublishAll(EMPTY_VIEW, front), last)
    ensures Dividers(events) == Dividers(front) + (if last.Segment? then [last.payload] else [])
    ensures Named(events) == Named(front) + (if last.Blocks? && last.session.Some? && last.session.value != "" then [last.session.value] else [])
  {
    front, last := events[..|events| - 1], events[|events| - 1];
  }

  lemma SnapshotIsLast(events: seq<Event>, i: int, session: string, payload: string)
    requires SnapshotAt(events, i, session, payload) && IsSnapshot(events[|events| - 1], session)
    ensures i == |events| - 1
  {
  }

  lemma MetaIsLast(events: seq<Event>, i: int, payload: string)
    requires MetaAt(events, i, payload) && events[|events| - 1].Meta?
    ensures i == |events| - 1
  {
  }

  lemma FrameIsLast(events: seq<Event>, i: int, payload: string)
    requires FrameAt(events, i, payload) && (events[|events| - 1].Frame? || IsPause(events[|events| - 1]))
    ensures i == |events| - 1
  {
  }

  ghost predicate HasSnapshot(events: seq<Event>, session: string, payload: string) {
    exists i :: SnapshotAt(events, i, session, payload)
  }

  ghost predicate HasMeta(events: seq<Event>, payload: string) { exists i :: MetaAt(events, i, payload) }

  ghost predicate HasFrame(events: seq<Event>, payload: string) { exists i :: FrameAt(events, i, payload) }

  lemma SnapshotNext(front: seq<Event>, last: Event, session: string, payload: string)
    ensures HasSnapshot(front + [last], session, payload)
       <==> if IsSnapshot(last, session) then last.payload == payload else HasSnapshot(front, session, payload)
  {
    var events, n := front + [last], |front|;
    assert forall j :: 0 <= j < n ==> events[j] == front[j];
    if IsSnapshot(last, session) {
      assert last.payload == payload ==> SnapshotAt(events, n, session, payload);
      forall i | SnapshotAt(events, i, session, payload) ensures i == n { SnapshotIsLast(events, i, session, payload); }
    } else {
      forall i ensures SnapshotAt(events, i, session, payload) <==> SnapshotAt(front, i, session, payload) {
      }
    }
  }

  lemma {:induction false} SnapshotsHeld(events: seq<Event>, session: string, payload: string)
    ensures var blocks := PublishAll(EMPTY_VIEW, events).blocks;
            (session in blocks && blocks[session] == payload) <==> HasSnapshot(events, session, payload)
    decreases |events|
  {
    if events != [] {
      var front, last := Split(events);
      SnapshotsHeld(front, session, payload);
      SnapshotNext(front, last, session, payload);
    }
  }

  lemma MetaNext(front: seq<Event>, last: Event, payload: string)
    ensures HasMeta(front + [last], payload)
       <==> if last.Meta? then last.payload == payload else HasMeta(front, payload)
  {
    var events, n := front + [last], |front|;
    assert forall j :: 0 <= j < n ==> events[j] == front[j];
    if last.Meta? {
      assert last.payload == payload ==> MetaAt(events, n, payload);
      forall i | MetaAt(events, i, payload) ensures i == n { MetaIsLast(events, i, payload); }
    } else {
      forall i ensures MetaAt(events, i, payload) <==> MetaAt(front, i, payload) {
      }
    }
  }

  lemma {:induction false} MetaHeld(events: seq<Event>, payload: string)
    ensures PublishAll(EMPTY_VIEW, events).meta == Some(payload) <==> HasMeta(events, payload)
    decreases |events|
  {
    if events != [] {
      var front, last := Split(events);
      MetaHeld(front, payload);
      MetaNext(front, last, payload);
    }
  }

  lemma FrameNext(front: seq<Event>, last: Event, payload: string)
    ensures HasFrame(front + [last], payload)
       <==> if last.Frame? then last.payload == payload else !IsPause(last) && HasFrame(front, payload)
  {
    var events, n := front + [last], |front|;
    assert forall j :: 0 <= j < n ==> events[j] == front[j];
    if last.Frame? || IsPause(last) {
      assert last.Frame? && last.payload == payload ==> FrameAt(events, n, payload);
      forall i | FrameAt(events, i, payload) ensures i == n { FrameIsLast(events, i, payload); }
    } else {
      forall i ensures FrameAt(events, i, payload) <==> FrameAt(front, i, payload) {
      }
    }
  }

  lemma {:induction false} FrameHeld(events: seq<Event>, payload: string)
    ensures PublishAll(EMPTY_VIEW, events).frame == Some(payload) <==> HasFrame(events, payload)
    decreases |events|
  {
    if events != [] {
      var front, last := Split(events);
      FrameHeld(front, payload);
      FrameNext(front, last, payload);
    }
  }

  lemma NewestNext(all: seq<string>, kept: seq<string>, one: string)
    requires kept == all[if |all| <= 500 then 0 else |all| - 500..]
    ensures var more := all + [one]; Newest(kept + [one], MAX_SEGMENTS_PER_ROOM) == more[if |more| <= 500 then 0 else |more| - 500..]
  {
  }

  lemma {:induction false} DividersHeld(events: seq<Event>)
    ensures var all := Dividers(events);
            PublishAll(EMPTY_VIEW, events).segments == all[if |all| <= 500 then 0 else |all| - 500..]
    decreases |events|
  {
    if events != [] {
      var front, last := Split(events);
      DividersHeld(front);
      if last.Segment? {
        NewestNext(Dividers(front), PublishAll(EMPTY_VIEW, front).segments, last.payload);
      }
    }
  }

  /** The names in the order of their first places, and snapshots for just those. */
  ghost predicate Ordered(v: View, names: seq<string>) {
    v.order == FirstPlaces(names) && forall s :: s in v.blocks <==> s in names
  }

  lemma OrderedNext(v: View, names: seq<string>, name: string, payload: string)
    requires Ordered(v, names) && name != ""
    ensures Ordered(Publish(v, Blocks(Some(name), payload)), names + [name])
  {
    assert (names + [name])[..|names|] == names;
  }

  lemma {:induction false} OrderHeld(events: seq<Event>)
    ensures Ordered(PublishAll(EMPTY_VIEW, events), Named(events))
    decreases |events|
  {
    if events != [] {
      var front, last := Split(events);
      OrderHeld(front);
      if last.Blocks? && last.session.Some? && last.session.value != "" {
        OrderedNext(PublishAll(EMPTY_VIEW, front), Named(front), last.session.value, last.payload);
      } else {
        assert Named(front) + [] == Named(front);
      }
    }
  }

  /** After any events from an empty room on: the snapshot of every recording is its
      last one, and the recordings stand in the order of their first; the
      description is the last; the dividers are the newest five hundred, in order;
      and the frame is the last one, unless a pause came after it. */
  lemma RoomHolds(events: seq<Event>)
    ensures var v, all := PublishAll(EMPTY_VIEW, events), Dividers(events);
            && (forall session, payload ::
                  (session in v.blocks && v.blocks[session] == payload) <==> HasSnapshot(events, session, payload))
            && (forall payload :: v.meta == Some(payload) <==> HasMeta(events, payload))
            && (forall payload :: v.frame == Some(payload) <==> HasFrame(events, payload))
            && v.segments == all[if |all| <= 500 then 0 else |all| - 500..]
            && v.order == FirstPlaces(Named(events))
  {
    forall session, payload
      ensures var blocks := PublishAll(EMPTY_VIEW, events).blocks;
              (session in blocks && blocks[session] == payload) <==> HasSnapshot(events, session, payload)
    {
      SnapshotsHeld(events, session, payload);
    }
    forall payload
      ensures PublishAll(EMPTY_VIEW, events).meta == Some(payload) <==> HasMeta(events, payload)
      ensures PublishAll(EMPTY_VIEW, events).frame == Some(payload) <==> HasFrame(events, payload)
    {
      MetaHeld(events, payload);
      FrameHeld(events, payload);
    }
    DividersHeld(events);
    OrderHeld(events);
  }
}
