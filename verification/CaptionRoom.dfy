/**
 A live caption room: what it holds, what a viewer is sent, and bounded queues
 that give up their oldest messages.
 */
module CaptionRoom {
  import opened Wrappers

  const SUBSCRIBER_QUEUE_DEPTH := 32
  const MAX_SEGMENTS_PER_ROOM := 500
  const MAX_SUBSCRIBERS_PER_ROOM := 200

  /** Payloads are kept and passed on as they came. A snapshot of blocks without
      a usable session id is passed on and not kept. */
  datatype Event =
    | Frame(payload: string)
    | Meta(payload: string)
    | Blocks(session: Option<string>, payload: string)
    | Segment(payload: string, paused: bool)

  /** What a viewer is shown: the sentence being spoken, the description, the
      snapshot of each recording in order of first appearance, the dividers. */
  datatype View = View(frame: Option<string>, meta: Option<string>, blocks: map<string, string>,
                       order: seq<string>, segments: seq<string>)

  const EMPTY_VIEW := View(None, None, map[], [], [])

  datatype Init = Init(sessions: seq<(string, string)>, frame: Option<string>, segments: seq<string>, meta: Option<string>)

  datatype Message = Start(init: Init) | Happened(event: Event) | Ended(purged: bool) | Ping

  function Newest<T>(xs: seq<T>, n: nat): (ys: seq<T>)
    ensures |ys| <= n && |ys| <= |xs| && ys == xs[|xs| - |ys|..] && (|xs| >= n ==> |ys| == n) && (|xs| <= n ==> ys == xs)
  {
    if |xs| <= n then xs else xs[|xs| - n..]
  }

  // ------------------------------------------------------------------ the room

  function Publish(v: View, e: Event): View {
    match e
    case Frame(payload) => v.(frame := Some(payload))
    case Meta(payload) => v.(meta := Some(payload))
    case Blocks(session, payload) =>
      if session.None? || session.value == "" then v
      else v.(order := if session.value in v.blocks then v.order else v.order + [session.value],
              blocks := v.blocks[session.value := payload])
    case Segment(payload, paused) =>
      v.(segments := Newest(v.segments + [payload], MAX_SEGMENTS_PER_ROOM), frame := if paused then None else v.frame)
  }

  function PublishAll(v: View, events: seq<Event>): View {
    if events == [] then v else Publish(PublishAll(v, events[..|events| - 1]), events[|events| - 1])
  }

  /** Every recording with a snapshot has its one place in the order. */
  ghost predicate Orderly(v: View) {
    && (forall i, j :: 0 <= i < j < |v.order| ==> v.order[i] != v.order[j])
    && (forall s :: s in v.order <==> s in v.blocks)
    && |v.segments| <= MAX_SEGMENTS_PER_ROOM
  }

  lemma PublishStaysOrderly(v: View, e: Event)
    requires Orderly(v)
    ensures Orderly(Publish(v, e))
  {
  }

  function InitOf(v: View): Init
    requires Orderly(v)
  {
    Init(seq(|v.order|, i requires 0 <= i < |v.order| => assert v.order[i] in v.order; (v.order[i], v.blocks[v.order[i]])),
         v.frame, v.segments, v.meta)
  }

  // ---------------------------------------------------------------- the viewer

  /** Rebuilds the snapshots in the order in which they were sent. */
  function Sessions(sessions: seq<(string, string)>): map<string, string> {
    if sessions == [] then map[]
    else Sessions(sessions[..|sessions| - 1])[sessions[|sessions| - 1].0 := sessions[|sessions| - 1].1]
  }

  /** A viewer treats an event as the room does, forgets the frame at the end,
      and never sees a ping. */
  function Receive(v: View, m: Message): View {
    match m
    case Start(init) =>
      View(init.frame, init.meta, Sessions(init.sessions),
           seq(|init.sessions|, i requires 0 <= i < |init.sessions| => init.sessions[i].0), init.segments)
    case Happened(event) => Publish(v, event)
    case Ended(_) => v.(frame := None)
    case Ping => v
  }

  function ReceiveAll(v: View, messages: seq<Message>): View {
    if messages == [] then v else Receive(ReceiveAll(v, messages[..|messages| - 1]), messages[|messages| - 1])
  }

  /** The first `n` recordings of a room, as rebuilt from what is sent. */
  ghost predicate Rebuilt(v: View, rebuilt: map<string, string>, n: nat)
    requires n <= |v.order|
  {
    && (forall i :: 0 <= i < n ==> v.order[i] in rebuilt && v.order[i] in v.blocks && rebuilt[v.order[i]] == v.blocks[v.order[i]])
    && (forall s :: s in rebuilt ==> s in v.order[..n])
  }

  lemma RebuiltNext(v: View, rebuilt: map<string, string>, n: nat)
    requires 0 < n <= |v.order| && Rebuilt(v, rebuilt, n - 1) && v.order[n - 1] in v.blocks
    requires forall i, j :: 0 <= i < j < |v.order| ==> v.order[i] != v.order[j]
    ensures Rebuilt(v, rebuilt[v.order[n - 1] := v.blocks[v.order[n - 1]]], n)
  {
    assert v.order[..n] == v.order[..n - 1] + [v.order[n - 1]];
  }

  lemma {:induction false} SessionsRebuilt(v: View, sent: seq<(string, string)>, n: nat)
    requires n <= |v.order| == |sent|
    requires forall i :: 0 <= i < |sent| ==> v.order[i] in v.blocks && sent[i] == (v.order[i], v.blocks[v.order[i]])
    requires forall i, j :: 0 <= i < j < |v.order| ==> v.order[i] != v.order[j]
    ensures Rebuilt(v, Sessions(sent[..n]), n)
  {
    if n > 0 {
      SessionsRebuilt(v, sent, n - 1);
      assert sent[..n][..n - 1] == sent[..n - 1] && sent[..n][n - 1] == sent[n - 1];
      RebuiltNext(v, Sessions(sent[..n - 1]), n);
    }
  }

  lemma RebuiltWhole(v: View, rebuilt: map<string, string>)
    requires Orderly(v) && Rebuilt(v, rebuilt, |v.order|)
    ensures rebuilt == v.blocks
  {
    forall s
      ensures s in rebuilt <==> s in v.blocks
      ensures s in rebuilt ==> rebuilt[s] == v.blocks[s]
    {
      if s in v.blocks || s in rebuilt {
        assert s in v.order;
        var i :| 0 <= i < |v.order| && v.order[i] == s;
      }
    }
  }

  /** The first message shows a viewer exactly the room. */
  lemma StartShowsRoom(v: View, before: View)
    requires Orderly(v)
    ensures Receive(before, Start(InitOf(v))) == v
  {
    var sent := InitOf(v).sessions;
    forall i | 0 <= i < |sent| ensures v.order[i] in v.blocks && sent[i] == (v.order[i], v.blocks[v.order[i]]) {
      assert v.order[i] in v.order;
    }
    SessionsRebuilt(v, sent, |v.order|);
    assert sent[..|v.order|] == sent;
    RebuiltWhole(v, Sessions(sent));
    assert Receive(before, Start(InitOf(v))).order == v.order;
  }

  // ----------------------------------------------------------------- the queue

  /** A full queue gives up its oldest message for the new one. */
  function Offer(queue: seq<Message>, m: Message): seq<Message> { Newest(queue + [m], SUBSCRIBER_QUEUE_DEPTH) }

  /** A probe is dropped rather than displacing anything. */
  function Probe(queue: seq<Message>): seq<Message> {
    if |queue| < SUBSCRIBER_QUEUE_DEPTH then queue + [Ping] else queue
  }

  // ------------------------------------------------- one viewer, over any run

  /** A room and one viewer's seat in it: `offered` is everything ever put into
      its queue, `taken` what its connection took out, `dropped` how many it lost. */
  datatype Seat = Seat(view: View, ended: bool, attached: bool, queue: seq<Message>,
                       offered: seq<Message>, taken: seq<Message>, dropped: nat)

  datatype Step = SPublish(event: Event) | SProbe | STake | SEnd(purged: bool) | SLeave

  function Deliver(s: Seat, m: Message): Seat {
    if !s.attached then s
    else s.(queue := Offer(s.queue, m), offered := s.offered + [m],
            dropped := s.dropped + (if |s.queue| >= SUBSCRIBER_QUEUE_DEPTH then 1 else 0))
  }

  function Take(s: Seat, step: Step): Seat {
    match step
    case SPublish(event) => Deliver(s.(view := Publish(s.view, event)), Happened(event))
    case SProbe =>
      if s.attached && |s.queue| < SUBSCRIBER_QUEUE_DEPTH
      then s.(queue := Probe(s.queue), offered := s.offered + [Ping]) else s
    case STake => if s.queue == [] then s else s.(queue := s.queue[1..], taken := s.taken + [s.queue[0]])
    case SEnd(purged) =>
      Deliver(s.(view := s.view.(frame := None), ended := true), Ended(purged)).(attached := false)
    case SLeave => s.(attached := false)
  }

  function Run(s: Seat, steps: seq<Step>): Seat
    decreases |steps|
  {
    if steps == [] then s else Run(Take(s, steps[0]), steps[1..])
  }

  /** Taking a seat sends the whole room first. */
  function Sit(v: View): Seat
    requires Orderly(v)
  {
    Seat(v, false, true, [Start(InitOf(v))], [Start(InitOf(v))], [], 0)
  }

  /** The queue is the newest of what was offered; what left it was taken, in
      order, or dropped. */
  ghost predicate QueueFaithful(queue: seq<Message>, offered: seq<Message>, taken: seq<Message>, dropped: nat) {
    && |queue| <= SUBSCRIBER_QUEUE_DEPTH
    && |queue| <= |offered| && queue == offered[|offered| - |queue|..]
    && |taken| + dropped + |queue| == |offered|
    && (dropped == 0 ==> taken + queue == offered)
  }

  /** Moreover, whoever receives everything offered sees the room. */
  ghost predicate Faithful(s: Seat) {
    && Orderly(s.view)
    && QueueFaithful(s.queue, s.offered, s.taken, s.dropped)
    && (s.attached ==> ReceiveAll(EMPTY_VIEW, s.offered) == s.view && !s.ended)
  }

  lemma OfferKeepsQueue(queue: seq<Message>, offered: seq<Message>, taken: seq<Message>, dropped: nat, m: Message)
    requires QueueFaithful(queue, offered, taken, dropped)
    ensures QueueFaithful(Offer(queue, m), offered + [m], taken,
                          dropped + (if |queue| >= SUBSCRIBER_QUEUE_DEPTH then 1 else 0))
  {
    if |queue| < SUBSCRIBER_QUEUE_DEPTH {
      assert taken + (queue + [m]) == (taken + queue) + [m];
    }
  }

  lemma TakeKeepsQueue(queue: seq<Message>, offered: seq<Message>, taken: seq<Message>, dropped: nat)
    requires QueueFaithful(queue, offered, taken, dropped) && queue != []
    ensures QueueFaithful(queue[1..], offered, taken + [queue[0]], dropped)
  {
    assert (taken + [queue[0]]) + queue[1..] == taken + queue;
  }

  lemma ReceiveAllAppend(v: View, messages: seq<Message>, m: Message)
    ensures ReceiveAll(v, messages + [m]) == Receive(ReceiveAll(v, messages), m)
  {
    assert (messages + [m])[..|messages|] == messages;
  }

  lemma SitIsFaithful(v: View)
    requires Orderly(v)
    ensures Faithful(Sit(v))
  {
    var start := Start(InitOf(v));
    ReceiveAllAppend(EMPTY_VIEW, [], start);
    assert [] + [start] == [start];
    StartShowsRoom(v, EMPTY_VIEW);
  }

  lemma DeliverKeepsQueue(s: Seat, m: Message)
    requires QueueFaithful(s.queue, s.offered, s.taken, s.dropped)
    ensures var s' := Deliver(s, m);
            QueueFaithful(s'.queue, s'.offered, s'.taken, s'.dropped) && s'.view == s.view
  {
    OfferKeepsQueue(s.queue, s.offered, s.taken, s.dropped, m);
  }

  /** A message that brings whoever received all before it to the new view. */
  lemma DeliverStaysFaithful(s: Seat, v: View, m: Message)
    requires Faithful(s) && Orderly(v) && (s.attached ==> Receive(s.view, m) == v)
    ensures Faithful(Deliver(s.(view := v), m))
  {
    DeliverKeepsQueue(s.(view := v), m);
    if s.attached { ReceiveAllAppend(EMPTY_VIEW, s.offered, m); }
  }

  lemma PublishStaysFaithful(s: Seat, event: Event)
    requires Faithful(s)
    ensures Faithful(Take(s, SPublish(event)))
  {
    PublishStaysOrderly(s.view, event);
    DeliverStaysFaithful(s, Publish(s.view, event), Happened(event));
  }

  lemma ProbeStaysFaithful(s: Seat)
    requires Faithful(s)
    ensures Faithful(Take(s, SProbe))
  {
    ReceiveAllAppend(EMPTY_VIEW, s.offered, Ping);
    OfferKeepsQueue(s.queue, s.offered, s.taken, s.dropped, Ping);
  }

  lemma EndStaysFaithful(s: Seat, purged: bool)
    requires Faithful(s)
    ensures Faithful(Take(s, SEnd(purged)))
  {
    DeliverKeepsQueue(s.(view := s.view.(frame := None), ended := true), Ended(purged));
  }

  lemma StepStaysFaithful(s: Seat, step: Step)
    requires Faithful(s)
    ensures Faithful(Take(s, step))
  {
    match step
    case SPublish(event) => PublishStaysFaithful(s, event);
    case SProbe => ProbeStaysFaithful(s);
    case STake => if s.queue != [] { TakeKeepsQueue(s.queue, s.offered, s.taken, s.dropped); }
    case SEnd(purged) => EndStaysFaithful(s, purged);
    case SLeave =>
  }

  lemma {:induction false} RunStaysFaithful(s: Seat, steps: seq<Step>)
    requires Faithful(s)
    ensures Faithful(Run(s, steps))
    decreases |steps|
  {
    if steps != [] {
      StepStaysFaithful(s, steps[0]);
      RunStaysFaithful(Take(s, steps[0]), steps[1..]);
    }
  }

  /** A viewer whose queue never overflowed, applying the first message and then
      the rest as they come, holds exactly the room once it took all of them. */
  lemma ViewerHoldsRoom(v: View, steps: seq<Step>)
    requires Orderly(v)
    requires Run(Sit(v), steps).attached && Run(Sit(v), steps).dropped == 0
    ensures var s := Run(Sit(v), steps);
            ReceiveAll(EMPTY_VIEW, s.taken + s.queue) == s.view
  {
    SitIsFaithful(v);
    RunStaysFaithful(Sit(v), steps);
  }

  /** However far a viewer falls behind, what it still has to read is the newest
      that was offered, in order, and a full queue is exactly the newest 32. */
  lemma QueueIsNewest(v: View, steps: seq<Step>)
    requires Orderly(v)
    ensures var s := Run(Sit(v), steps);
            && |s.queue| <= 32 && |s.queue| <= |s.offered|
            && s.queue == s.offered[|s.offered| - |s.queue|..]
            && (|s.queue| == 32 ==> s.queue == s.offered[|s.offered| - 32..])
  {
    SitIsFaithful(v);
    RunStaysFaithful(Sit(v), steps);
  }

  /** After the room ended, nothing more is offered; the end is the last thing in
      the queue until the viewer takes it. */
  lemma {:induction false} EndedIsLast(s: Seat, purged: bool, steps: seq<Step>)
    requires Faithful(s) && s.attached
    ensures var end := Run(Take(s, SEnd(purged)), steps);
            && end.offered == s.offered + [Ended(purged)]
            && EndIsNext(end, purged)
    decreases |steps|
  {
    StepStaysFaithful(s, SEnd(purged));
    StaysOver(Take(s, SEnd(purged)), purged, steps);
  }

  /** The end is the last thing in the queue, or was the last thing taken out of it. */
  ghost predicate EndIsNext(s: Seat, purged: bool) {
    if s.queue == [] then s.taken != [] && s.taken[|s.taken| - 1] == Ended(purged)
    else s.queue[|s.queue| - 1] == Ended(purged)
  }

  lemma StepStaysOver(s: Seat, purged: bool, step: Step)
    requires !s.attached && EndIsNext(s, purged)
    ensures var s' := Take(s, step);
            !s'.attached && EndIsNext(s', purged) && s'.offered == s.offered
  {
  }

  lemma {:induction false} StaysOver(s: Seat, purged: bool, steps: seq<Step>)
    requires !s.attached && EndIsNext(s, purged)
    ensures Run(s, steps).offered == s.offered && EndIsNext(Run(s, steps), purged)
    decreases |steps|
  {
    if steps != [] {
      StepStaysOver(s, purged, steps[0]);
      StaysOver(Take(s, steps[0]), purged, steps[1..]);
    }
  }

  predicate ShowsFrame(step: Step) { step.SPublish? && step.event.Frame? }

  /** A pause and an end take the half-spoken sentence away. */
  predicate HidesFrame(step: Step) {
    step.SEnd? || (step.SPublish? && step.event.Segment? && step.event.paused)
  }

  ghost predicate HidesNone(steps: seq<Step>) { forall j :: 0 <= j < |steps| ==> !HidesFrame(steps[j]) }

  /** Some frame comes after which nothing hides it. */
  ghost predicate LeavesFrame(steps: seq<Step>) {
    exists i :: 0 <= i < |steps| && ShowsFrame(steps[i]) && HidesNone(steps[i + 1..])
  }

  lemma HidesNoneNext(steps: seq<Step>)
    requires steps != []
    ensures HidesNone(steps) <==> !HidesFrame(steps[0]) && HidesNone(steps[1..])
  {
    assert forall j :: 0 < j < |steps| ==> steps[j] == steps[1..][j - 1];
    assert forall j :: 0 <= j < |steps| - 1 ==> steps[1..][j] == steps[j + 1];
  }

  lemma LeavesFrameNext(steps: seq<Step>)
    requires steps != []
    ensures LeavesFrame(steps) <==> LeavesFrame(steps[1..]) || (ShowsFrame(steps[0]) && HidesNone(steps[1..]))
  {
    var rest := steps[1..];
    if LeavesFrame(rest) {
      var i :| 0 <= i < |rest| && ShowsFrame(rest[i]) && HidesNone(rest[i + 1..]);
      assert ShowsFrame(steps[i + 1]) && steps[i + 2..] == rest[i + 1..];
    }
    if LeavesFrame(steps) {
      var i :| 0 <= i < |steps| && ShowsFrame(steps[i]) && HidesNone(steps[i + 1..]);
      if i > 0 { assert ShowsFrame(rest[i - 1]) && rest[i..] == steps[i + 1..]; }
    }
  }

  lemma FrameAfterOne(s: Seat, step: Step)
    ensures Take(s, step).view.frame.Some? <==> ShowsFrame(step) || (s.view.frame.Some? && !HidesFrame(step))
    ensures s.ended ==> Take(s, step).ended
  {
  }

  lemma {:induction false} FrameAfter(s: Seat, steps: seq<Step>)
    ensures Run(s, steps).view.frame.Some? <==> LeavesFrame(steps) || (s.view.frame.Some? && HidesNone(steps))
    ensures s.ended ==> Run(s, steps).ended
    decreases |steps|
  {
    if steps != [] {
      FrameAfterOne(s, steps[0]);
      FrameAfter(Take(s, steps[0]), steps[1..]);
      HidesNoneNext(steps);
      LeavesFrameNext(steps);
    }
  }

  /** Pushes that were let in before the end may land after it, among whatever the
      viewer does: an ended room shows a half-spoken sentence exactly when some
      frame lands late and no pause lands behind it. */
  lemma LateFrameIff(s: Seat, purged: bool, steps: seq<Step>)
    ensures var late := Run(Take(s, SEnd(purged)), steps);
            late.ended && (late.view.frame.Some? <==> LeavesFrame(steps))
  {
    FrameAfter(Take(s, SEnd(purged)), steps);
  }
}
