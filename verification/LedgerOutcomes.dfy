/**
 What each transaction does to the tables, row by row, in the words of the
 requests: which ones are refused, what moves and by how much, and what stays.
 */
module LedgerOutcomes {
  import opened Wrappers
  import opened Sums
  import opened InviteLedger
  import opened LedgerInvariants
  import opened LedgerRuns

  /** One session row and its invitation's row change; nothing else does. */
  ghost predicate OnlyRows(l: Ledger, l': Ledger, invite: nat, session: nat) {
    && |l'.invites| == |l.invites| && |l'.sessions| == |l.sessions| && l'.keys == l.keys
    && (forall i :: 0 <= i < |l.invites| && i != invite ==> l'.invites[i] == l.invites[i])
    && (forall k :: 0 <= k < |l.sessions| && k != session ==> l'.sessions[k] == l.sessions[k])
  }

  /** An open session of that invitation. */
  predicate Opened(l: Ledger, invite: int, session: int) {
    && 0 <= invite < |l.invites| && 0 <= session < |l.sessions|
    && l.sessions[session].invite == invite && l.sessions[session].settled == None
  }

  /** `charged` is what was used, if that lies between nothing and the hold, and
      otherwise the nearer of the two. */
  predicate ChargedFor(charged: int, usedSeconds: int, hold: int) {
    && (0 <= usedSeconds <= hold ==> charged == usedSeconds)
    && (usedSeconds < 0 ==> charged == 0)
    && (usedSeconds > hold ==> charged == hold)
  }

  /** A settlement charges the seconds that were used, within the hold, gives the
      whole hold back, and answers with the quota as it then stands. */
  lemma SettleChargesUse(l: Ledger, invite: int, session: int, usedSeconds: int)
    requires Sound(l)
    ensures !Opened(l, invite, session) ==> Settle(l, invite, session, usedSeconds) == (l, None)
    ensures Opened(l, invite, session) ==>
      var (l', quota) := Settle(l, invite, session, usedSeconds);
      var v, s := l.invites[invite], l.sessions[session];
      && OnlyRows(l, l', invite, session)
      && l'.sessions[session].settled.Some?
      && var charged := l'.sessions[session].settled.value;
      && ChargedFor(charged, usedSeconds, s.reserved)
      && l'.sessions[session] == Session(s.invite, s.reserved, s.laneCount, s.createdAt, Some(charged))
      && l'.invites[invite] == Invite(v.quota, v.used + charged, v.reserved - s.reserved, v.enabled)
      && quota == Some(Quota(v.quota, v.used + charged, v.quota - (v.used + charged) - (v.reserved - s.reserved)))
      && 0 <= quota.value.remaining <= v.quota
  {
    if Opened(l, invite, session) {
      SettleIsSound(l, invite, session, usedSeconds);
      var (l', _) := Settle(l, invite, session, usedSeconds);
      HeldWithinReserved(l, session);
      CountersArePositive(l', invite);
    }
  }

  lemma CountersArePositive(l: Ledger, invite: nat)
    requires Sound(l) && invite < |l.invites|
    ensures l.invites[invite].used >= 0 && l.invites[invite].reserved >= 0
    ensures l.invites[invite].used + l.invites[invite].reserved <= l.invites[invite].quota
  {
    forall k | 0 <= k < |l.sessions|
      ensures Holds(l.sessions, invite)[k] >= 0 && Charges(l.sessions, invite)[k] >= 0
    {
      assert l.sessions[k] == l.sessions[k];
    }
    assert l.invites[invite] == l.invites[invite];
    SumBounds(Holds(l.sessions, invite), 0);
    SumBounds(Charges(l.sessions, invite), 0);
  }

  /** A new invitation has its quota, nothing spent or held, and is not paused: it
      makes a reservation if it has a second to give. */
  lemma CreatedInviteIsFresh(l: Ledger, quota: int, requested: int, laneCount: int, now: int)
    ensures var l' := CreateInvite(l, quota);
      && l' == l.(invites := l'.invites) && |l'.invites| == |l.invites| + 1 && l'.invites[..|l.invites|] == l.invites
      && l'.invites[|l.invites|] == Invite(quota, 0, 0, true)
      && (Reserve(l', |l.invites|, requested, laneCount, now).1.Some? <==> quota >= 1)
  {
  }

  /** The least number of whole seconds that cover the microseconds since the
      reservation. */
  predicate SecondsSince(elapsed: int, s: Session, moment: int) {
    && elapsed >= 0 && elapsed * 1_000_000 >= moment - s.createdAt
    && (elapsed > 0 ==> (elapsed - 1) * 1_000_000 < moment - s.createdAt)
  }

  /** The lanes a row is read to have. */
  predicate ReadAs(lanes: int, laneCount: int) {
    (1 <= laneCount <= 4 ==> lanes == laneCount) && (laneCount < 1 ==> lanes == 1) && (laneCount > 4 ==> lanes == 4)
  }

  /** The most whole seconds for every lane that neither go beyond three hours from now
      nor cost more than is left. */
  predicate AddedFor(added: int, covered: int, elapsed: int, lanes: int, left: int)
    requires lanes >= 1
  {
    var missing := elapsed + 3 * 60 * 60 - covered;
    && (missing <= 0 ==> added == 0)
    && (missing > 0 ==>
          && 0 <= added <= lanes * missing && added <= left && added % lanes == 0
          && (added + lanes > lanes * missing || added + lanes > left))
  }

  /** The cap of a key: what is covered from now on, but no more than five hours. */
  predicate CapFor(cap: int, seconds: int) {
    && (0 <= seconds <= 5 * 60 * 60 ==> cap == seconds)
    && (seconds < 0 ==> cap == 0) && (seconds > 5 * 60 * 60 ==> cap == 5 * 60 * 60)
  }

  /** An extension adds to an open session's hold what covers the next three hours, as
      far as the invitation has it, and answers with the cap of the next key. */
  lemma ExtendAddsCover(l: Ledger, invite: int, session: int, moment: int) returns (elapsed: int, lanes: int)
    requires Sound(l)
    ensures lanes >= 1
    ensures !Opened(l, invite, session) ==> Extend(l, invite, session, moment) == (l, None)
    ensures Opened(l, invite, session) ==>
      var (l', cap) := Extend(l, invite, session, moment);
      var v, s := l.invites[invite], l.sessions[session];
      && SecondsSince(elapsed, s, moment) && ReadAs(lanes, s.laneCount)
      && OnlyRows(l, l', invite, session)
      && var added := l'.sessions[session].reserved - s.reserved;
      && AddedFor(added, s.reserved / lanes, elapsed, lanes, v.quota - v.used - v.reserved)
      && l'.sessions[session] == Session(s.invite, s.reserved + added, s.laneCount, s.createdAt, None)
      && l'.invites[invite] == Invite(v.quota, v.used, v.reserved + added, v.enabled)
      && cap.Some? && CapFor(cap.value, (s.reserved + added) / lanes - elapsed)
  {
    elapsed, lanes := 0, 1;
    if Opened(l, invite, session) {
      var v, s := l.invites[invite], l.sessions[session];
      elapsed, lanes := Elapsed(s, moment), Lanes(s.laneCount);
      ElapsedIsSeconds(s, moment);
      CountersArePositive(l, invite);
      GrowthIs(v, s, moment);
    }
  }

  lemma ElapsedIsSeconds(s: Session, moment: int)
    ensures SecondsSince(Elapsed(s, moment), s, moment)
  {
    var micros := moment - s.createdAt;
    assert micros <= CeilSeconds(micros) * 1_000_000 < micros + 1_000_000;
  }

  lemma GrowthIs(v: Invite, s: Session, moment: int)
    requires Remaining(v) >= 0
    ensures AddedFor(Growth(v, s, moment), s.reserved / Lanes(s.laneCount), Elapsed(s, moment), Lanes(s.laneCount), Remaining(v))
  {
    var lanes, missing := Lanes(s.laneCount), Elapsed(s, moment) + STREAM_WINDOW_SECONDS - Span(s);
    GrowthIsAffordable(v, s, moment);
    if missing > 0 {
      var most := Min(lanes * missing, Remaining(v));
      assert most >= 0;
      RemovingRemainder(most, lanes);
    }
  }

  /** A paused or unknown invitation makes no reservation, and neither does one
      with no second left. Otherwise the reservation is what was asked for, unless
      less is left or more than five hours are asked for, and never less than a
      second. */
  lemma ReserveHoldsRequest(l: Ledger, invite: int, requested: int, laneCount: int, now: int)
    requires Sound(l)
    ensures var (l', made) := Reserve(l, invite, requested, laneCount, now);
      && (made.Some? <==> 0 <= invite < |l.invites| && l.invites[invite].enabled
                          && l.invites[invite].quota - l.invites[invite].used - l.invites[invite].reserved >= 1)
      && (made.None? ==> l' == l)
      && (made.Some? ==>
            && made.value == |l.sessions| && |l'.sessions| == |l.sessions| + 1 && l'.keys == l.keys
            && l'.sessions[..|l.sessions|] == l.sessions
            && |l'.invites| == |l.invites|
            && (forall i :: 0 <= i < |l.invites| && i != invite ==> l'.invites[i] == l.invites[i])
            && var v, s := l.invites[invite], l'.sessions[made.value];
            && s.invite == invite && s.createdAt == now && s.settled == None
            && HeldFor(s.reserved, requested, v.quota - v.used - v.reserved)
            && (1 <= laneCount <= 4 ==> s.laneCount == laneCount)
            && (laneCount < 1 ==> s.laneCount == 1) && (laneCount > 4 ==> s.laneCount == 4)
            && l'.invites[invite] == Invite(v.quota, v.used, v.reserved + s.reserved, v.enabled))
  {
  }

  /** The largest hold that a request, the five hours and what is left allow. */
  predicate HeldFor(hold: int, requested: int, left: int) {
    && 1 <= hold <= left && hold <= 5 * 60 * 60 && (requested >= 1 ==> hold <= requested)
    && (hold == left || hold == 5 * 60 * 60 || hold == requested || (requested < 1 && hold == 1))
  }

  /** A quota moves by what was asked, but not below what is spent and held. */
  lemma AdjustMovesQuota(l: Ledger, invite: int, delta: int)
    ensures var (l', quota) := AdjustQuota(l, invite, delta);
      && (quota.Some? <==> 0 <= invite < |l.invites|)
      && (quota.None? ==> l' == l)
      && (quota.Some? ==>
            var v := l.invites[invite];
            && (v.quota + delta >= v.used + v.reserved ==> quota == Some(v.quota + delta))
            && (v.quota + delta < v.used + v.reserved ==> quota == Some(v.used + v.reserved))
            && l' == l.(invites := l.invites[invite := Invite(quota.value, v.used, v.reserved, v.enabled)]))
  {
  }

  /** The switch ends where it was put, and nothing else moves: a paused invitation
      makes no reservation, while its open sessions go on as before. */
  lemma PausedInviteReservesNothing(l: Ledger, invite: int, enabled: bool, requested: int, laneCount: int, now: int)
    requires Sound(l)
    ensures var (l', found) := SetEnabled(l, invite, enabled);
      && (found <==> 0 <= invite < |l.invites|)
      && (!found ==> l' == l)
      && (found ==>
            && l' == l.(invites := l.invites[invite := l.invites[invite].(enabled := l'.invites[invite].enabled)])
            && l'.invites[invite].enabled == enabled
            && (!enabled ==> Reserve(l', invite, requested, laneCount, now) == (l', None))
            && (enabled ==>
                  (Reserve(l', invite, requested, laneCount, now).1.Some?
                   <==> l.invites[invite].quota - l.invites[invite].used - l.invites[invite].reserved >= 1)))
  {
    EnablingIsSound(l, invite, enabled);
    ReserveHoldsRequest(SetEnabled(l, invite, enabled).0, invite, requested, laneCount, now);
  }

  /** Nothing of the session is younger than the cutoff: neither the reservation
      nor a key. */
  ghost predicate Untouched(l: Ledger, session: nat, cutoff: int)
    requires session < |l.sessions|
  {
    && l.sessions[session].createdAt < cutoff
    && forall i :: 0 <= i < |l.keys| && l.keys[i].session == session ==> l.keys[i].issuedAt < cutoff
  }

  lemma {:induction false} StampsOfRows(keys: seq<KeyRow>, session: int, stamp: int)
    ensures stamp in Stamps(keys, session) <==> exists i :: 0 <= i < |keys| && keys[i].session == session && keys[i].issuedAt == stamp
  {
    if keys != [] {
      var n := |keys| - 1;
      var front := keys[..n];
      StampsOfRows(front, session, stamp);
      assert forall i :: 0 <= i < n ==> front[i] == keys[i];
      assert Stamps(keys, session) == Stamps(front, session) + (if keys[n].session == session then [keys[n].issuedAt] else []);
    }
  }

  lemma StaleIsUntouched(l: Ledger, session: nat, cutoff: int)
    requires session < |l.sessions|
    ensures Stale(l, session, cutoff) <==> l.sessions[session].settled == None && Untouched(l, session, cutoff)
  {
    forall i | 0 <= i < |l.keys| && l.keys[i].session == session
      ensures l.keys[i].issuedAt in Stamps(l.keys, session)
    {
      StampsOfRows(l.keys, session, l.keys[i].issuedAt);
    }
    var last := LastTouched(l, session);
    if last != l.sessions[session].createdAt { StampsOfRows(l.keys, session, last); }
  }

  /** A sweep closes the untouched open sessions free of charge, and changes no
      other session, no key and nothing of an invitation but what it holds. */
  lemma SweepClosesUntouched(l: Ledger, cutoff: int)
    ensures var l' := Sweep(l, cutoff);
      && l'.keys == l.keys && |l'.sessions| == |l.sessions| && |l'.invites| == |l.invites|
      && (forall k :: 0 <= k < |l.sessions| ==>
            l'.sessions[k] == (if l.sessions[k].settled == None && Untouched(l, k, cutoff)
                               then l.sessions[k].(settled := Some(0)) else l.sessions[k]))
      && (forall i :: 0 <= i < |l.invites| ==>
            l'.invites[i] == l.invites[i].(reserved := l'.invites[i].reserved))
  {
    forall k | 0 <= k < |l.sessions|
      ensures Stale(l, k, cutoff) <==> l.sessions[k].settled == None && Untouched(l, k, cutoff)
    {
      StaleIsUntouched(l, k, cutoff);
    }
  }

  lemma {:induction false} CountIsRows(keys: seq<KeyRow>, session: int)
    ensures CountRows(keys, session) == |set i | 0 <= i < |keys| && keys[i].session == session|
  {
    var rows := set i | 0 <= i < |keys| && keys[i].session == session;
    if keys == [] {
      assert rows == {};
    } else {
      var n := |keys| - 1;
      var front := keys[..n];
      var before := set i | 0 <= i < n && front[i].session == session;
      CountIsRows(front, session);
      assert forall i :: 0 <= i < n ==> front[i] == keys[i];
      assert rows == if keys[n].session == session then before + {n} else before;
    }
  }

  /** What keys a session may have been issued in all: 256 for each of its lanes,
      of which there are one to four whatever its row says. */
  function Allowance(laneCount: int): int {
    256 * (if laneCount <= 1 then 1 else if laneCount >= 4 then 4 else laneCount)
  }

  /** Keys are claimed for an open session, at least one, and all or none: at most
      256 for each lane over its whole life. A claim adds that many rows at the
      end, stamped now, and answers with how many there are. */
  lemma ClaimIsAllOrNothing(l: Ledger, invite: int, session: int, count: int, now: int)
    ensures var (l', issued) := ClaimKeys(l, invite, session, count, now);
      var rows := |set i | 0 <= i < |l.keys| && l.keys[i].session == session|;
      && (issued.Some? <==> count >= 1 && Opened(l, invite, session) && rows + count <= Allowance(l.sessions[session].laneCount))
      && (issued.None? ==> l' == l)
      && (issued.Some? ==>
            && issued.value == rows + count && |l'.keys| == |l.keys| + count
            && l' == l.(keys := l'.keys) && l'.keys[..|l.keys|] == l.keys
            && forall i :: |l.keys| <= i < |l'.keys| ==> l'.keys[i] == KeyRow(session, now))
  {
    CountIsRows(l.keys, session);
  }

  // ------------------------------------------------------------ over whole runs

  /** The step of a run that closes a session, with the ledger it finds. */
  function Closing(l: Ledger, actions: seq<Action>, session: nat): Option<(Ledger, Action)>
    decreases |actions|
  {
    if actions == [] then None
    else
      var next := Apply(l, actions[0]);
      if session < |l.sessions| && session < |next.sessions|
         && l.sessions[session].settled == None && next.sessions[session].settled != None
      then Some((l, actions[0]))
      else Closing(next, actions[1..], session)
  }

  /** How an open session comes to be closed: a settlement of its own invitation's
      request charges what it reports, a sweep that finds it untouched nothing. */
  ghost predicate ClosedAs(l: Ledger, a: Action, session: nat, row: Session)
    requires session < |l.sessions|
  {
    var hold := l.sessions[session].reserved;
    && row.settled.Some?
    && match a
       case DoSettle(invite, named, usedSeconds) =>
         invite == row.invite && named == session && ChargedFor(row.settled.value, usedSeconds, hold)
       case DoSweep(cutoff) => Untouched(l, session, cutoff) && row.settled == Some(0)
       case _ => false
  }

  lemma StepCloses(l: Ledger, a: Action, session: nat)
    requires Sound(l) && session < |l.sessions| && l.sessions[session].settled == None
    requires session < |Apply(l, a).sessions| && Apply(l, a).sessions[session].settled != None
    ensures ClosedAs(l, a, session, Apply(l, a).sessions[session])
  {
    match a
    case DoSettle(invite, named, usedSeconds) => SettleChargesUse(l, invite, named, usedSeconds);
    case DoSweep(cutoff) => SweepClosesUntouched(l, cutoff);
    case _ =>
  }

  /** In any run a session that is closed was closed by exactly one step, and what
      its row says then, the seconds that settlement reported within the hold or
      nothing for a sweep, is what it says ever after. */
  lemma {:induction false} ClosedAsReported(l: Ledger, actions: seq<Action>, session: nat)
    requires Sound(l) && Reasonable(actions) && session < |l.sessions| && l.sessions[session].settled == None
    ensures session < |Run(l, actions).sessions|
    ensures match Closing(l, actions, session)
            case None => Run(l, actions).sessions[session].settled == None
            case Some((before, a)) =>
              session < |before.sessions| && ClosedAs(before, a, session, Run(l, actions).sessions[session])
    decreases |actions|
  {
    if actions != [] {
      var next := Apply(l, actions[0]);
      ApplyIsSound(l, actions[0]);
      ApplyKeepsSession(l, actions[0], session);
      if next.sessions[session].settled == None {
        ClosedAsReported(next, actions[1..], session);
      } else {
        StepCloses(l, actions[0], session);
        RunKeepsSession(next, actions[1..], session);
      }
    }
  }
}
