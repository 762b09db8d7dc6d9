/**
 The window a reservation pays for, and the caps of the keys issued inside it.

 A reservation of R lane-seconds over L lanes pays for R / L wall-clock seconds
 from the moment it was made.
 */
module StreamWindow {
  import opened Wrappers
  import opened Sums
  import opened InviteLedger
  import opened LedgerInvariants
  import opened LedgerRuns

  /** The moment up to which a session's reservation pays for every lane. */
  function Deadline(s: Session): int { s.createdAt + Span(s) * MICROS }

  lemma QuotientIs(x: nat, n: nat, q: nat, r: nat)
    requires 1 <= n <= MAX_LANES_PER_SESSION && x == n * q + r && r < n
    ensures x / n == q && x % n == r
  {
    if n == 1 {
    } else if n == 2 {
    } else if n == 3 {
    } else {
      assert n == 4;
    }
  }

  lemma DividingSums(a: nat, b: nat, n: nat)
    requires 1 <= n <= MAX_LANES_PER_SESSION && b % n == 0
    ensures (a + b) % n == a % n && (a + b) / n == a / n + b / n && b == n * (b / n)
  {
    var p, q := a / n, b / n;
    assert n * p + n * q == n * (p + q);
    QuotientIs(a + b, n, p + q, a % n);
  }

  lemma LanesTimesSpan(s: Session)
    requires s.reserved >= 0
    ensures 0 <= Lanes(s.laneCount) * Span(s) <= s.reserved < Lanes(s.laneCount) * (Span(s) + 1)
  {
    RemovingRemainder(s.reserved, Lanes(s.laneCount));
  }

  /** How far one call grows a reservation: no further than the stream window
      past now, up to it unless fewer spare seconds than lanes are left, and
      always by whole wall-clock seconds, so no remainder is lost. */
  lemma GrowthReachesWindow(v: Invite, s: Session, moment: int)
    requires Remaining(v) >= 0 && s.reserved >= 0
    ensures var added := Growth(v, s, moment);
            var grown := s.(reserved := s.reserved + added);
            var wanted := Elapsed(s, moment) + STREAM_WINDOW_SECONDS;
            && 0 <= added <= Remaining(v)
            && (Span(grown) >= wanted || Remaining(v) - added < Lanes(s.laneCount))
            && Span(s) <= Span(grown) <= Max(Span(s), wanted)
            && grown.reserved % Lanes(s.laneCount) == s.reserved % Lanes(s.laneCount)
  {
    var lanes := Lanes(s.laneCount);
    var wanted := Elapsed(s, moment) + STREAM_WINDOW_SECONDS;
    GrowthIsAffordable(v, s, moment);
    var added := Growth(v, s, moment);
    DividingSums(s.reserved, added, lanes);
    if Span(s) < wanted {
      var missing := wanted - Span(s);
      if lanes * missing <= Remaining(v) {
        WholeMultiple(lanes, missing);
        assert added == lanes * missing;
      } else {
        RemovingRemainder(Remaining(v), lanes);
        assert added == Remaining(v) - Remaining(v) % lanes;
        assert lanes * (added / lanes) <= lanes * missing;
        assert added / lanes <= missing;
      }
    }
  }

  lemma WholeMultiple(n: nat, q: nat)
    requires 1 <= n <= MAX_LANES_PER_SESSION
    ensures (n * q) % n == 0 && (n * q) / n == q
  {
    if n == 1 {
    } else if n == 2 {
    } else if n == 3 {
    } else {
      assert n == 4;
    }
  }

  /** One successful call: the key's cap ends inside the paid window, the
      window reaches the stream window past now or leaves the invitation fewer
      spare seconds than lanes, and nothing but this hold changes. */
  lemma ExtendCoversNextKey(l: Ledger, invite: int, session: int, moment: int)
    requires Sound(l) && IsOpen(l, invite, session)
    ensures var (l', cap) := Extend(l, invite, session, moment);
            var s, s' := l.sessions[session], l'.sessions[session];
            var wanted := Elapsed(s, moment) + STREAM_WINDOW_SECONDS;
            && cap.Some? && 0 <= cap.value <= SONIOX_MAX_SESSION_DURATION_SECONDS
            && (cap.value > 0 ==> moment + cap.value * MICROS <= Deadline(s'))
            && (Span(s') >= wanted || Remaining(l'.invites[invite]) < Lanes(s.laneCount))
            && Span(s) <= Span(s') <= Max(Span(s), wanted)
            && s'.reserved % Lanes(s.laneCount) == s.reserved % Lanes(s.laneCount)
            && l' == Hold(l, session, s'.reserved - s.reserved)
            && Remaining(l'.invites[invite]) == Remaining(l.invites[invite]) - (s'.reserved - s.reserved) >= 0
  {
    var s := l.sessions[session];
    assert l.invites[invite] == l.invites[invite];
    GrowthReachesWindow(l.invites[invite], s, moment);
    ElapsedCovers(s, moment);
  }

  lemma ElapsedCovers(s: Session, moment: int)
    ensures moment - s.createdAt <= Elapsed(s, moment) * MICROS
    ensures Elapsed(s, moment) > 0 ==> (Elapsed(s, moment) - 1) * MICROS < moment - s.createdAt
  {
  }

  /** Asking twice at one moment grows nothing more and names the same cap. */
  lemma ExtendIsIdempotent(l: Ledger, invite: int, session: int, moment: int)
    requires Sound(l)
    ensures var (l', cap) := Extend(l, invite, session, moment);
            Extend(l', invite, session, moment) == (l', cap)
  {
    if IsOpen(l, invite, session) {
      var (l', cap) := Extend(l, invite, session, moment);
      ExtendCoversNextKey(l, invite, session, moment);
      var s', v' := l'.sessions[session], l'.invites[invite];
      NothingLeftToGrow(v', s', moment);
      assert Hold(l', session, 0) == l';
    }
  }

  lemma NothingLeftToGrow(v: Invite, s: Session, moment: int)
    requires Remaining(v) >= 0 && s.reserved >= 0
    requires Span(s) >= Elapsed(s, moment) + STREAM_WINDOW_SECONDS || Remaining(v) < Lanes(s.laneCount)
    ensures Growth(v, s, moment) == 0
  {
    var lanes := Lanes(s.laneCount);
    var missing := Elapsed(s, moment) + STREAM_WINDOW_SECONDS - Span(s);
    if missing > 0 {
      assert lanes * missing >= lanes;
    }
  }

  // --------------------------------------------------- keys over a whole run

  /** A key: the session it bills, when its cap was computed, and the cap. */
  datatype StreamKey = StreamKey(session: nat, moment: int, seconds: int)

  /** Every cap a run handed out, oldest first. */
  function CapsIssued(l: Ledger, actions: seq<Action>): seq<StreamKey>
    decreases |actions|
  {
    if actions == [] then []
    else CapsOf(l, actions[0]) + CapsIssued(Apply(l, actions[0]), actions[1..])
  }

  /** The caps one action hands out: one at most. */
  function CapsOf(l: Ledger, a: Action): (caps: seq<StreamKey>)
    ensures |caps| <= 1
  {
    match a
    case DoExtend(invite, session, moment) =>
      (match Extend(l, invite, session, moment).1
       case Some(cap) => if cap > 0 && session >= 0 then [StreamKey(session, moment, cap)] else []
       case None => [])
    case _ => []
  }

  lemma NewCapIsCovered(l: Ledger, a: Action, actions: seq<Action>)
    requires Sound(l) && Sound(Apply(l, a)) && Reasonable(actions) && CapsOf(l, a) != []
    ensures var key, end := CapsOf(l, a)[0], Run(Apply(l, a), actions);
            key.session < |end.sessions| && key.moment + key.seconds * MICROS <= Deadline(end.sessions[key.session])
  {
    var next := Apply(l, a);
    ExtendCoversNextKey(l, a.invite, a.session, a.moment);
    RunKeepsSession(next, actions, a.session);
    assert next.sessions[a.session] == next.sessions[a.session];
    DeadlineGrows(next.sessions[a.session], Run(next, actions).sessions[a.session]);
  }

  /** Every key a run ever issued ends, counted from the moment its cap was
      computed, inside the window its session has reserved at the end of the
      run: later growth only widens it, and nothing shrinks it. */
  lemma {:induction false} IssuedCapsStayCovered(l: Ledger, actions: seq<Action>, i: nat)
    requires Sound(l) && Reasonable(actions) && i < |CapsIssued(l, actions)|
    ensures var key := CapsIssued(l, actions)[i];
            && key.session < |Run(l, actions).sessions|
            && key.moment + key.seconds * MICROS <= Deadline(Run(l, actions).sessions[key.session])
    decreases |actions|
  {
    var a := actions[0];
    ApplyIsSound(l, a);
    if i < |CapsOf(l, a)| {
      NewCapIsCovered(l, a, actions[1..]);
    } else {
      IssuedCapsStayCovered(Apply(l, a), actions[1..], i - |CapsOf(l, a)|);
    }
  }

  lemma DeadlineGrows(before: Session, after: Session)
    requires Succeeds(before, after) && before.reserved >= 0
    ensures Deadline(before) <= Deadline(after)
  {
    DividingIsMonotone(before.reserved, after.reserved, Lanes(before.laneCount));
  }

  lemma DividingIsMonotone(a: nat, b: nat, n: nat)
    requires 1 <= n <= MAX_LANES_PER_SESSION && a <= b
    ensures a / n <= b / n && (a < n <==> a / n == 0)
  {
    if n == 1 {
    } else if n == 2 {
    } else if n == 3 {
    } else {
      assert n == 4;
    }
  }

  // ------------------------------------------------------------ what is billed

  /** One connection on one lane, in microseconds. */
  datatype Stream = Stream(start: int, end: int)

  /** The streams of one lane follow one another and stay inside a window. */
  ghost predicate BackToBack(lane: seq<Stream>, from: int, until: int) {
    && (forall k :: 0 <= k < |lane| ==> from <= lane[k].start <= lane[k].end <= until)
    && (forall k :: 0 < k < |lane| ==> lane[k - 1].end <= lane[k].start)
  }

  function Streamed(lane: seq<Stream>): int {
    if lane == [] then 0 else lane[0].end - lane[0].start + Streamed(lane[1..])
  }

  function AllStreamed(lanes: seq<seq<Stream>>): int {
    if lanes == [] then 0 else Streamed(lanes[0]) + AllStreamed(lanes[1..])
  }

  lemma {:induction false} LaneFitsWindow(lane: seq<Stream>, from: int, until: int)
    requires BackToBack(lane, from, until) && from <= until
    ensures 0 <= Streamed(lane) <= until - from
  {
    if lane != [] {
      var rest := lane[1..];
      forall k | 0 <= k < |rest| ensures lane[0].end <= rest[k].start {
        StartsAfterFirst(lane, from, until, k + 1);
      }
      LaneFitsWindow(rest, lane[0].end, until);
    }
  }

  lemma {:induction false} StartsAfterFirst(lane: seq<Stream>, from: int, until: int, k: nat)
    requires BackToBack(lane, from, until) && 1 <= k < |lane|
    ensures lane[0].end <= lane[k].start
  {
    if k > 1 {
      StartsAfterFirst(lane, from, until, k - 1);
    }
  }

  lemma {:induction false} LanesFitWindow(lanes: seq<seq<Stream>>, from: int, until: int)
    requires from <= until
    requires forall k :: 0 <= k < |lanes| ==> BackToBack(lanes[k], from, until)
    ensures AllStreamed(lanes) <= |lanes| * (until - from)
  {
    if lanes != [] {
      LaneFitsWindow(lanes[0], from, until);
      LanesFitWindow(lanes[1..], from, until);
      OneMore(|lanes| - 1, until - from);
    }
  }

  lemma OneMore(k: int, w: int)
    ensures (k + 1) * w == k * w + w
  {
  }

  /** However many keys a recording goes through, lanes that stream back to back
      inside the window never use more lane-seconds than were reserved. */
  lemma StreamingStaysPaid(s: Session, lanes: seq<seq<Stream>>)
    requires s.reserved >= 0 && |lanes| <= Lanes(s.laneCount)
    requires forall k :: 0 <= k < |lanes| ==> BackToBack(lanes[k], s.createdAt, Deadline(s))
    ensures AllStreamed(lanes) <= s.reserved * MICROS
  {
    LanesTimesSpan(s);
    LanesFitWindow(lanes, s.createdAt, Deadline(s));
    PaidInMicros(|lanes|, Lanes(s.laneCount), Span(s), s.reserved);
  }

  lemma PaidInMicros(k: nat, n: nat, span: nat, reserved: nat)
    requires k <= n <= MAX_LANES_PER_SESSION && n * span <= reserved
    ensures k * (span * MICROS) <= reserved * MICROS
  {
    var total := span * MICROS;
    assert n * total <= reserved * MICROS by {
      if n == 0 {
      } else if n == 1 {
      } else if n == 2 {
      } else if n == 3 {
      } else {
        assert n == 4;
      }
    }
    assert k * total <= n * total;
  }

  // ------------------------------------------- where the promise has an edge

  /** When a key computed at `moment` and redeemed `delay` later stops streaming. */
  function StreamEnds(moment: int, delay: int, seconds: int): int { moment + delay + seconds * MICROS }

  /** What counting elapsed time in whole seconds leaves over: less than a second. */
  function Rounding(s: Session, moment: int): (slack: int)
    ensures moment >= s.createdAt ==> 0 <= slack < MICROS
  {
    Elapsed(s, moment) * MICROS - (moment - s.createdAt)
  }

  /** Whole seconds by which a reservation pays for more than the provider's own
      cap from `moment` on. */
  function Beyond(s: Session, moment: int): int {
    Max(0, Span(s) - Elapsed(s, moment) - SONIOX_MAX_SESSION_DURATION_SECONDS)
  }

  /** The window promise counts from the moment a cap is computed. A key that is
      redeemed later streams later: it stays inside the window exactly when the
      delay is no longer than what the reservation had to spare before the call. */
  lemma LateRedemptionIff(l: Ledger, invite: int, session: int, moment: int, delay: nat)
    requires Sound(l) && IsOpen(l, invite, session)
    requires Extend(l, invite, session, moment).1 != Some(0)
    ensures var (l', cap) := Extend(l, invite, session, moment);
            var s := l.sessions[session];
            cap.Some? &&
            (StreamEnds(moment, delay, cap.value) <= Deadline(l'.sessions[session])
             <==> delay <= Rounding(s, moment) + Beyond(s, moment) * MICROS)
  {
    ExtendCoversNextKey(l, invite, session, moment);
    ElapsedCovers(l.sessions[session], moment);
  }

  /** The moments of the window extensions of a run, in order. */
  predicate Timely(actions: seq<Action>, from: int)
    decreases |actions|
  {
    actions == [] ||
    match actions[0]
    case DoExtend(_, _, moment) => from <= moment && Timely(actions[1..], moment)
    case _ => Timely(actions[1..], from)
  }

  function LastMoment(actions: seq<Action>, from: int): int
    decreases |actions|
  {
    if actions == [] then from
    else match actions[0]
         case DoExtend(_, _, moment) => LastMoment(actions[1..], moment)
         case _ => LastMoment(actions[1..], from)
  }

  /** From `moment` on no reservation pays for more than the provider's cap. */
  ghost predicate NothingBeyond(l: Ledger, moment: int) {
    forall k :: 0 <= k < |l.sessions| ==> Beyond(l.sessions[k], moment) == 0
  }

  lemma ElapsedGrows(s: Session, moment: int, later: int)
    requires moment <= later
    ensures Elapsed(s, moment) <= Elapsed(s, later)
  {
  }

  lemma NothingBeyondLater(l: Ledger, moment: int, later: int)
    requires NothingBeyond(l, moment) && moment <= later
    ensures NothingBeyond(l, later)
  {
    forall k | 0 <= k < |l.sessions| ensures Beyond(l.sessions[k], later) == 0 {
      ElapsedGrows(l.sessions[k], moment, later);
      assert Beyond(l.sessions[k], moment) == 0;
    }
  }

  lemma ExtendStaysWithin(l: Ledger, invite: int, session: int, moment: int)
    requires Sound(l) && NothingBeyond(l, moment)
    ensures NothingBeyond(Extend(l, invite, session, moment).0, moment)
  {
    var l' := Extend(l, invite, session, moment).0;
    if IsOpen(l, invite, session) {
      ExtendCoversNextKey(l, invite, session, moment);
      forall k | 0 <= k < |l'.sessions| ensures Beyond(l'.sessions[k], moment) == 0 {
        assert Beyond(l.sessions[k], moment) == 0;
      }
    }
  }

  /** A new reservation pays for five hours at most, however many lanes share it. */
  lemma ReserveStaysWithin(l: Ledger, invite: int, requested: int, laneCount: int, now: int, moment: int)
    requires Sound(l) && NothingBeyond(l, moment)
    ensures NothingBeyond(Reserve(l, invite, requested, laneCount, now).0, moment)
  {
    var l' := Reserve(l, invite, requested, laneCount, now).0;
    forall k | 0 <= k < |l'.sessions| ensures Beyond(l'.sessions[k], moment) == 0 {
      if k < |l.sessions| {
        assert Beyond(l.sessions[k], moment) == 0;
      } else {
        LanesTimesSpan(l'.sessions[k]);
        SpanIsLess(l'.sessions[k]);
      }
    }
  }

  lemma SpanIsLess(s: Session)
    requires s.reserved >= 0
    ensures 0 <= Span(s) <= s.reserved
  {
    DividingIsMonotone(s.reserved, s.reserved, Lanes(s.laneCount));
  }

  lemma OthersStayWithin(l: Ledger, a: Action, moment: int)
    requires NothingBeyond(l, moment) && !a.DoExtend? && !a.DoReserve?
    ensures NothingBeyond(Apply(l, a), moment)
  {
    var l' := Apply(l, a);
    assert |l'.sessions| == |l.sessions|;
    forall k | 0 <= k < |l'.sessions| ensures Beyond(l'.sessions[k], moment) == 0 {
      assert l'.sessions[k].reserved == l.sessions[k].reserved && l'.sessions[k].createdAt == l.sessions[k].createdAt
          && l'.sessions[k].laneCount == l.sessions[k].laneCount;
      assert Beyond(l.sessions[k], moment) == 0;
    }
  }

  lemma {:induction false} RunStaysWithin(l: Ledger, actions: seq<Action>, from: int)
    requires Sound(l) && Reasonable(actions) && Timely(actions, from) && NothingBeyond(l, from)
    ensures from <= LastMoment(actions, from) && NothingBeyond(Run(l, actions), LastMoment(actions, from))
    decreases |actions|
  {
    if actions != [] {
      var a := actions[0];
      ApplyIsSound(l, a);
      match a {
        case DoExtend(invite, session, moment) =>
          NothingBeyondLater(l, from, moment);
          ExtendStaysWithin(l, invite, session, moment);
          RunStaysWithin(Apply(l, a), actions[1..], moment);
        case DoReserve(invite, requested, laneCount, now) =>
          ReserveStaysWithin(l, invite, requested, laneCount, now, from);
          RunStaysWithin(Apply(l, a), actions[1..], from);
        case _ =>
          OthersStayWithin(l, a, from);
          RunStaysWithin(Apply(l, a), actions[1..], from);
      }
    }
  }

  /** In every run whose clock does not go back, a key redeemed a second or more
      after its cap was computed streams past what its recording has reserved,
      and any redemption stays inside exactly when it comes within the second
      that rounding gave away. */
  lemma LateRedemptionAlwaysOverruns(l: Ledger, actions: seq<Action>, from: int,
                                     invite: int, session: int, moment: int, delay: nat)
    requires Sound(l) && l.sessions == [] && Reasonable(actions) && Timely(actions, from)
    requires moment >= LastMoment(actions, from)
    requires IsOpen(Run(l, actions), invite, session) && Extend(Run(l, actions), invite, session, moment).1 != Some(0)
    requires moment >= Run(l, actions).sessions[session].createdAt
    ensures var end := Run(l, actions);
            var (l', cap) := Extend(end, invite, session, moment);
            && cap.Some?
            && (StreamEnds(moment, delay, cap.value) <= Deadline(l'.sessions[session])
                <==> delay <= Rounding(end.sessions[session], moment))
            && (delay >= MICROS ==> StreamEnds(moment, delay, cap.value) > Deadline(l'.sessions[session]))
  {
    RunIsSound(l, actions);
    RunStaysWithin(l, actions, from);
    NothingBeyondLater(Run(l, actions), LastMoment(actions, from), moment);
    LateRedemptionIff(Run(l, actions), invite, session, moment, delay);
    assert Beyond(Run(l, actions).sessions[session], moment) == 0;
  }

  /** A one-lane recording that rolls over after three hours: its next key fills
      the window to the brim, so a key redeemed five minutes later streams five
      minutes past what was reserved. */
  lemma LateRedemptionOverruns()
    ensures var l := Ledger([Invite(100000, 0, 18000, true)], [Session(0, 18000, 1, 0, None)], []);
            var (l', cap) := Extend(l, 0, 0, 10800 * MICROS);
            && Sound(l) && cap == Some(10800)
            && StreamEnds(10800 * MICROS, SINGLE_USE_KEY_EXPIRES_SECONDS * MICROS, 10800) > Deadline(l'.sessions[0])
  {
    var l := Ledger([Invite(100000, 0, 18000, true)], [Session(0, 18000, 1, 0, None)], []);
    assert Holds(l.sessions, 0) == [18000] && Charges(l.sessions, 0) == [0];
    assert Sum([18000]) == 18000 && Sum([0]) == 0;
    assert Sound(l);
    var s := l.sessions[0];
    assert Elapsed(s, 10800 * MICROS) == 10800;
    assert Growth(l.invites[0], s, 10800 * MICROS) == 3600;
    var grown := Hold(l, 0, 3600);
    assert grown.sessions[0] == s.(reserved := 21600);
    assert Span(grown.sessions[0]) == 21600;
    assert Extend(l, 0, 0, 10800 * MICROS) == (grown, Some(10800));
    assert Deadline(grown.sessions[0]) == 21600 * MICROS;
  }

  /** The keys minted with a new reservation are capped at least one second, so
      all lanes together stay within the reservation exactly when it holds a
      second per lane. */
  lemma OpeningKeysPaidIff(s: Session)
    requires s.reserved >= 1
    ensures Lanes(s.laneCount) * StreamDuration(s) <= s.reserved <==> s.reserved >= Lanes(s.laneCount)
  {
    LanesTimesSpan(s);
    DividingIsMonotone(s.reserved, s.reserved, Lanes(s.laneCount));
  }

  /** An invitation with a single second left opens a four-lane recording whose
      opening keys may stream four lane-seconds. */
  lemma LastSecondOverruns()
    ensures var l := Ledger([Invite(1, 0, 0, true)], [], []);
            var (l', made) := Reserve(l, 0, MAX_SESSION_SECONDS, 4, 0);
            && Sound(l) && made == Some(0)
            && Lanes(l'.sessions[0].laneCount) * StreamDuration(l'.sessions[0]) > l'.sessions[0].reserved
  {
    var l := Ledger([Invite(1, 0, 0, true)], [], []);
    assert Holds(l.sessions, 0) == [] && Charges(l.sessions, 0) == [];
  }
}
