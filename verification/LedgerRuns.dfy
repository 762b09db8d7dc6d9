/**
 Whole runs of the ledger: any interleaving of its transactions, from any
 sound state.
 */
module LedgerRuns {
  import opened Wrappers
  import opened Sums
  import opened InviteLedger
  import opened LedgerInvariants

  datatype Action =
    | DoCreate(quota: int)
    | DoReserve(invite: int, requested: int, laneCount: int, now: int)
    | DoExtend(invite: int, session: int, moment: int)
    | DoSettle(invite: int, session: int, usedSeconds: int)
    | DoSweep(cutoff: int)
    | DoAdjust(invite: int, delta: int)
    | DoEnable(invite: int, enabled: bool)
    | DoClaim(invite: int, session: int, count: int, now: int)
    | DoRelease(session: int, count: int)

  function Apply(l: Ledger, a: Action): Ledger {
    match a
    case DoCreate(quota) => CreateInvite(l, quota)
    case DoReserve(invite, requested, laneCount, now) => Reserve(l, invite, requested, laneCount, now).0
    case DoExtend(invite, session, moment) => Extend(l, invite, session, moment).0
    case DoSettle(invite, session, usedSeconds) => Settle(l, invite, session, usedSeconds).0
    case DoSweep(cutoff) => Sweep(l, cutoff)
    case DoAdjust(invite, delta) => AdjustQuota(l, invite, delta).0
    case DoEnable(invite, enabled) => SetEnabled(l, invite, enabled).0
    case DoClaim(invite, session, count, now) => ClaimKeys(l, invite, session, count, now).0
    case DoRelease(session, count) => ReleaseKeys(l, session, count)
  }

  function Run(l: Ledger, actions: seq<Action>): Ledger
    decreases |actions|
  {
    if actions == [] then l else Run(Apply(l, actions[0]), actions[1..])
  }

  /** The only thing asked of an operator: no invitation starts with a negative quota. */
  predicate Reasonable(actions: seq<Action>) {
    forall k :: 0 <= k < |actions| && actions[k].DoCreate? ==> actions[k].quota >= 0
  }

  lemma SoundIgnoresKeys(l: Ledger, keys: seq<KeyRow>)
    requires Sound(l)
    ensures Sound(l.(keys := keys))
  {
    var l' := l.(keys := keys);
    assert l'.sessions == l.sessions && l'.invites == l.invites;
  }

  lemma ApplyIsSound(l: Ledger, a: Action)
    requires Sound(l)
    requires a.DoCreate? ==> a.quota >= 0
    ensures Sound(Apply(l, a))
  {
    match a
    case DoCreate(quota) => CreateIsSoundIff(l, quota);
    case DoReserve(invite, requested, laneCount, now) => ReserveIsSound(l, invite, requested, laneCount, now);
    case DoExtend(invite, session, moment) => ExtendIsSound(l, invite, session, moment);
    case DoSettle(invite, session, usedSeconds) => SettleIsSound(l, invite, session, usedSeconds);
    case DoSweep(cutoff) => SweepIsSound(l, cutoff);
    case DoAdjust(invite, delta) => AdjustIsSound(l, invite, delta);
    case DoEnable(invite, enabled) => EnablingIsSound(l, invite, enabled);
    case DoClaim(invite, session, count, now) => SoundIgnoresKeys(l, Apply(l, a).keys);
    case DoRelease(session, count) => SoundIgnoresKeys(l, Apply(l, a).keys);
  }

  /** In every reachable state an invitation's held time is the sum of its open
      reservations, its spent time the sum of its settled sessions, and both
      together stay within its quota. */
  lemma {:induction false} RunIsSound(l: Ledger, actions: seq<Action>)
    requires Sound(l) && Reasonable(actions)
    ensures Sound(Run(l, actions))
    decreases |actions|
  {
    if actions != [] {
      ApplyIsSound(l, actions[0]);
      RunIsSound(Apply(l, actions[0]), actions[1..]);
    }
  }

  // ------------------------------------------------------------- one session

  /** What later transactions may do to a session row: an open reservation may
      grow or close, a closed one never changes. */
  ghost predicate Succeeds(before: Session, after: Session) {
    && after.invite == before.invite
    && after.laneCount == before.laneCount
    && after.createdAt == before.createdAt
    && after.reserved >= before.reserved
    && (before.settled.Some? ==> after == before)
  }

  lemma ApplyKeepsSession(l: Ledger, a: Action, session: nat)
    requires Sound(l) && session < |l.sessions|
    ensures session < |Apply(l, a).sessions|
    ensures Succeeds(l.sessions[session], Apply(l, a).sessions[session])
  {
    if a.DoExtend? && IsOpen(l, a.invite, a.session) {
      assert l.invites[a.invite] == l.invites[a.invite];
      GrowthIsAffordable(l.invites[a.invite], l.sessions[a.session], a.moment);
    }
  }

  lemma {:induction false} RunKeepsSession(l: Ledger, actions: seq<Action>, session: nat)
    requires Sound(l) && Reasonable(actions) && session < |l.sessions|
    ensures session < |Run(l, actions).sessions|
    ensures Succeeds(l.sessions[session], Run(l, actions).sessions[session])
    decreases |actions|
  {
    if actions != [] {
      ApplyIsSound(l, actions[0]);
      ApplyKeepsSession(l, actions[0], session);
      RunKeepsSession(Apply(l, actions[0]), actions[1..], session);
    }
  }

  /** How often a run turns a session from open to closed. */
  function Closings(l: Ledger, actions: seq<Action>, session: nat): nat
    decreases |actions|
  {
    if actions == [] then 0
    else
      var next := Apply(l, actions[0]);
      (if session < |l.sessions| && session < |next.sessions|
          && l.sessions[session].settled.None? && next.sessions[session].settled.Some? then 1 else 0)
      + Closings(next, actions[1..], session)
  }

  /** The seconds that successful settle requests of a run charge for a session. */
  function Charged(l: Ledger, actions: seq<Action>, session: nat): int
    decreases |actions|
  {
    if actions == [] then 0
    else
      (if actions[0].DoSettle? && actions[0].session == session && Settle(l, actions[0].invite, session, actions[0].usedSeconds).1.Some?
       then Charge(l.sessions[session], actions[0].usedSeconds) else 0)
      + Charged(Apply(l, actions[0]), actions[1..], session)
  }

  /** However settle retries and sweeps interleave, a session closes at most
      once, and all charges for it together are what its row records: never more
      than it had reserved. */
  lemma {:induction false} ChargedAtMostOnce(l: Ledger, actions: seq<Action>, session: nat)
    requires Sound(l) && Reasonable(actions) && session < |l.sessions|
    ensures session < |Run(l, actions).sessions|
    ensures Closings(l, actions, session)
         == (if l.sessions[session].settled.None? && Run(l, actions).sessions[session].settled.Some? then 1 else 0)
    ensures Charged(l, actions, session)
         == SettledSeconds(Run(l, actions).sessions[session]) - SettledSeconds(l.sessions[session])
    ensures 0 <= Charged(l, actions, session) <= Run(l, actions).sessions[session].reserved
    decreases |actions|
  {
    RunIsSound(l, actions);
    RunKeepsSession(l, actions, session);
    assert Run(l, actions).sessions[session] == Run(l, actions).sessions[session];
    assert l.sessions[session] == l.sessions[session];
    if actions != [] {
      ApplyIsSound(l, actions[0]);
      ApplyKeepsSession(l, actions[0], session);
      RunKeepsSession(Apply(l, actions[0]), actions[1..], session);
      ChargedAtMostOnce(Apply(l, actions[0]), actions[1..], session);
    }
  }

  /** A settle request for a session that is already closed, however it closed,
      is answered without changing anything. */
  lemma SettleRetryIsFree(l: Ledger, actions: seq<Action>, invite: int, session: nat, usedSeconds: int)
    requires Sound(l) && Reasonable(actions) && session < |l.sessions|
    requires l.sessions[session].settled.Some?
    ensures Settle(Run(l, actions), invite, session, usedSeconds) == (Run(l, actions), None)
  {
    RunKeepsSession(l, actions, session);
  }
}
