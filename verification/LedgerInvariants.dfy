/**
 What every run of ledger transactions keeps: the counters of an invitation are
 the sums of its sessions, nothing exceeds its quota, and a reservation closes
 once.
 */
module LedgerInvariants {
  import opened Wrappers
  import opened Sums
  import opened InviteLedger

  // ------------------------------------------------------- the sums of a ledger

  /** What each session holds open against an invitation. */
  function Holds(sessions: seq<Session>, invite: nat): (holds: seq<int>)
    ensures |holds| == |sessions|
  {
    seq(|sessions|, k requires 0 <= k < |sessions| => HeldBy(sessions[k], invite))
  }

  function HeldBy(s: Session, invite: nat): int {
    if s.invite == invite && s.settled.None? then s.reserved else 0
  }

  /** What each session was charged to an invitation when it closed. */
  function Charges(sessions: seq<Session>, invite: nat): (charges: seq<int>)
    ensures |charges| == |sessions|
  {
    seq(|sessions|, k requires 0 <= k < |sessions| => ChargedTo(sessions[k], invite))
  }

  function ChargedTo(s: Session, invite: nat): int {
    if s.invite == invite then SettledSeconds(s) else 0
  }

  function SettledSeconds(s: Session): int {
    match s.settled
    case None => 0
    case Some(charged) => charged
  }

  // ------------------------------------------------------------- the invariant

  ghost predicate SessionsSound(l: Ledger) {
    forall k {:trigger l.sessions[k]} :: 0 <= k < |l.sessions| ==>
      && HasInvite(l, l.sessions[k].invite)
      && l.sessions[k].reserved >= 1
      && 0 <= SettledSeconds(l.sessions[k]) <= l.sessions[k].reserved
  }

  ghost predicate CountersMatch(l: Ledger) {
    forall i {:trigger l.invites[i]} :: 0 <= i < |l.invites| ==>
      && l.invites[i].reserved == Sum(Holds(l.sessions, i))
      && l.invites[i].used == Sum(Charges(l.sessions, i))
  }

  ghost predicate WithinQuota(l: Ledger) {
    forall i {:trigger l.invites[i]} :: 0 <= i < |l.invites| ==>
      l.invites[i].used + l.invites[i].reserved <= l.invites[i].quota
  }

  ghost predicate Sound(l: Ledger) {
    SessionsSound(l) && CountersMatch(l) && WithinQuota(l)
  }

  /** An open reservation is part of what its invitation holds. */
  lemma HeldWithinReserved(l: Ledger, session: nat)
    requires SessionsSound(l) && CountersMatch(l) && session < |l.sessions|
    requires l.sessions[session].settled.None?
    ensures l.sessions[session].reserved <= l.invites[l.sessions[session].invite].reserved
  {
    SumBounds(Holds(l.sessions, l.sessions[session].invite), session);
  }

  /** Replacing one session row moves both sums by exactly that row's change. */
  lemma SumsAfterUpdate(sessions: seq<Session>, k: nat, s: Session, invite: nat)
    requires k < |sessions|
    ensures Sum(Holds(sessions[k := s], invite))
         == Sum(Holds(sessions, invite)) - HeldBy(sessions[k], invite) + HeldBy(s, invite)
    ensures Sum(Charges(sessions[k := s], invite))
         == Sum(Charges(sessions, invite)) - ChargedTo(sessions[k], invite) + ChargedTo(s, invite)
  {
    assert Holds(sessions[k := s], invite) == Holds(sessions, invite)[k := HeldBy(s, invite)];
    assert Charges(sessions[k := s], invite) == Charges(sessions, invite)[k := ChargedTo(s, invite)];
    SumUpdate(Holds(sessions, invite), k, HeldBy(s, invite));
    SumUpdate(Charges(sessions, invite), k, ChargedTo(s, invite));
  }

  lemma SumsAfterInsert(sessions: seq<Session>, s: Session, invite: nat)
    ensures Sum(Holds(sessions + [s], invite)) == Sum(Holds(sessions, invite)) + HeldBy(s, invite)
    ensures Sum(Charges(sessions + [s], invite)) == Sum(Charges(sessions, invite)) + ChargedTo(s, invite)
  {
    assert Holds(sessions + [s], invite) == Holds(sessions, invite) + [HeldBy(s, invite)];
    assert Charges(sessions + [s], invite) == Charges(sessions, invite) + [ChargedTo(s, invite)];
    SumAppend(Holds(sessions, invite), [HeldBy(s, invite)]);
    SumAppend(Charges(sessions, invite), [ChargedTo(s, invite)]);
  }

  // ------------------------------------------------- each transaction keeps it

  /** A sum over sessions of an invitation that no session names yet is zero. */
  lemma {:induction false} NobodysSums(sessions: seq<Session>, invite: nat)
    requires forall k :: 0 <= k < |sessions| ==> sessions[k].invite != invite
    ensures Sum(Holds(sessions, invite)) == 0 && Sum(Charges(sessions, invite)) == 0
  {
    if sessions != [] {
      var n := |sessions| - 1;
      assert sessions == sessions[..n] + [sessions[n]];
      NobodysSums(sessions[..n], invite);
      SumsAfterInsert(sessions[..n], sessions[n], invite);
    }
  }

  /** Creating an invitation is sound exactly when its quota is not negative:
      the command line does not refuse a negative number of gives. */
  lemma CreateIsSoundIff(l: Ledger, quota: int)
    requires Sound(l)
    ensures Sound(CreateInvite(l, quota)) <==> quota >= 0
  {
    var l' := CreateInvite(l, quota);
    var i := |l.invites|;
    NobodysSums(l.sessions, i);
    assert l'.invites[i].quota == quota;
    if quota >= 0 {
      forall j {:trigger l'.invites[j]} | 0 <= j < |l'.invites|
        ensures l'.invites[j].reserved == Sum(Holds(l'.sessions, j))
             && l'.invites[j].used == Sum(Charges(l'.sessions, j))
             && l'.invites[j].used + l'.invites[j].reserved <= l'.invites[j].quota
      {
        if j < i { assert l'.invites[j] == l.invites[j]; }
      }
    }
  }

  lemma ReserveIsSound(l: Ledger, invite: int, requested: int, laneCount: int, now: int)
    requires Sound(l)
    ensures Sound(Reserve(l, invite, requested, laneCount, now).0)
  {
    var (l', made) := Reserve(l, invite, requested, laneCount, now);
    if made.Some? {
      forall j {:trigger l'.invites[j]} | 0 <= j < |l'.invites|
        ensures l'.invites[j].reserved == Sum(Holds(l'.sessions, j))
             && l'.invites[j].used == Sum(Charges(l'.sessions, j))
             && l'.invites[j].used + l'.invites[j].reserved <= l'.invites[j].quota
      {
        assert l.invites[j] == l.invites[j];
        SumsAfterInsert(l.sessions, l'.sessions[made.value], j);
      }
    }
  }

  /** Growing one open reservation and its invitation together, within what the
      invitation has left. */
  lemma HoldIsSound(l: Ledger, session: nat, added: nat)
    requires Sound(l) && session < |l.sessions| && l.sessions[session].settled.None?
    requires added <= Remaining(l.invites[l.sessions[session].invite])
    ensures Sound(Hold(l, session, added))
  {
    var l' := Hold(l, session, added);
    forall j {:trigger l'.invites[j]} | 0 <= j < |l'.invites|
      ensures l'.invites[j].reserved == Sum(Holds(l'.sessions, j))
           && l'.invites[j].used == Sum(Charges(l'.sessions, j))
           && l'.invites[j].used + l'.invites[j].reserved <= l'.invites[j].quota
    {
      assert l.invites[j] == l.invites[j];
      SumsAfterUpdate(l.sessions, session, l'.sessions[session], j);
    }
  }

  lemma GrowthIsAffordable(v: Invite, s: Session, moment: int)
    requires Remaining(v) >= 0
    ensures 0 <= Growth(v, s, moment) <= Remaining(v)
    ensures Growth(v, s, moment) % Lanes(s.laneCount) == 0
  {
    var lanes := Lanes(s.laneCount);
    var wanted := Elapsed(s, moment) + STREAM_WINDOW_SECONDS;
    if Span(s) < wanted {
      var added := Min(lanes * (wanted - Span(s)), Max(0, Remaining(v)));
      assert added >= 0 && 0 <= added % lanes <= added;
      RemovingRemainder(added, lanes);
    }
  }

  /** Lane counts are small, so each divisor is checked on its own. */
  lemma RemovingRemainder(a: nat, n: nat)
    requires 1 <= n <= MAX_LANES_PER_SESSION
    ensures (a - a % n) % n == 0 && 0 <= a % n < n && a % n <= a && a - a % n == n * (a / n)
  {
    if n == 1 {
    } else if n == 2 {
    } else if n == 3 {
    } else {
      assert n == 4;
    }
  }

  lemma ExtendIsSound(l: Ledger, invite: int, session: int, moment: int)
    requires Sound(l)
    ensures Sound(Extend(l, invite, session, moment).0)
  {
    if IsOpen(l, invite, session) {
      var v := l.invites[invite];
      assert Remaining(v) >= 0;
      GrowthIsAffordable(v, l.sessions[session], moment);
      HoldIsSound(l, session, Growth(v, l.sessions[session], moment));
    }
  }

  lemma CloseIsSound(l: Ledger, session: nat, charged: int)
    requires Sound(l) && session < |l.sessions| && l.sessions[session].settled.None?
    requires 0 <= charged <= l.sessions[session].reserved
    ensures Sound(Close(l, session, charged))
  {
    var l' := Close(l, session, charged);
    forall j {:trigger l'.invites[j]} | 0 <= j < |l'.invites|
      ensures l'.invites[j].reserved == Sum(Holds(l'.sessions, j))
           && l'.invites[j].used == Sum(Charges(l'.sessions, j))
           && l'.invites[j].used + l'.invites[j].reserved <= l'.invites[j].quota
    {
      assert l.invites[j] == l.invites[j];
      SumsAfterUpdate(l.sessions, session, l'.sessions[session], j);
    }
  }

  lemma SettleIsSound(l: Ledger, invite: int, session: int, usedSeconds: int)
    requires Sound(l)
    ensures Sound(Settle(l, invite, session, usedSeconds).0)
  {
    if IsOpen(l, invite, session) {
      CloseIsSound(l, session, Charge(l.sessions[session], usedSeconds));
    }
  }

  lemma SweepIsSound(l: Ledger, cutoff: int)
    requires Sound(l)
    ensures Sound(Sweep(l, cutoff))
  {
    var l' := Sweep(l, cutoff);
    forall k {:trigger l'.sessions[k]} | 0 <= k < |l'.sessions|
      ensures HasInvite(l', l'.sessions[k].invite) && l'.sessions[k].reserved >= 1
           && 0 <= SettledSeconds(l'.sessions[k]) <= l'.sessions[k].reserved
    {
      assert l.sessions[k] == l.sessions[k];
    }
    forall j {:trigger l'.invites[j]} | 0 <= j < |l'.invites|
      ensures l'.invites[j].reserved == Sum(Holds(l'.sessions, j))
           && l'.invites[j].used == Sum(Charges(l'.sessions, j))
           && l'.invites[j].used + l'.invites[j].reserved <= l'.invites[j].quota
    {
      assert l.invites[j] == l.invites[j];
      SumSplit(Holds(l.sessions, j), Holds(l'.sessions, j), StaleHolds(l, j, cutoff));
      assert Charges(l'.sessions, j) == Charges(l.sessions, j);
      forall k | 0 <= k < |l.sessions| ensures StaleHolds(l, j, cutoff)[k] >= 0 {
        assert l.sessions[k] == l.sessions[k];
      }
      SumBounds(StaleHolds(l, j, cutoff), 0);
    }
  }

  lemma AdjustIsSound(l: Ledger, invite: int, delta: int)
    requires Sound(l)
    ensures Sound(AdjustQuota(l, invite, delta).0)
  {
    var (l', _) := AdjustQuota(l, invite, delta);
    forall j {:trigger l'.invites[j]} | 0 <= j < |l'.invites|
      ensures l'.invites[j].reserved == Sum(Holds(l'.sessions, j))
           && l'.invites[j].used == Sum(Charges(l'.sessions, j))
           && l'.invites[j].used + l'.invites[j].reserved <= l'.invites[j].quota
    {
      assert l.invites[j] == l.invites[j];
    }
  }

  lemma EnablingIsSound(l: Ledger, invite: int, enabled: bool)
    requires Sound(l)
    ensures Sound(SetEnabled(l, invite, enabled).0)
  {
    var (l', _) := SetEnabled(l, invite, enabled);
    forall j {:trigger l'.invites[j]} | 0 <= j < |l'.invites|
      ensures l'.invites[j].reserved == Sum(Holds(l'.sessions, j))
           && l'.invites[j].used == Sum(Charges(l'.sessions, j))
           && l'.invites[j].used + l'.invites[j].reserved <= l'.invites[j].quota
    {
      assert l.invites[j] == l.invites[j];
    }
  }
}
