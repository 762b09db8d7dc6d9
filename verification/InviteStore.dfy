/**
 The store that answers the invitation service: three tables updated in place,
 one transaction per method.
 */
module InviteStore {
  import opened Wrappers
  import opened Sums
  import opened InviteLedger
  import opened LedgerInvariants
  import opened StreamWindow
  import opened KeyMinting

  /** The session keeps its oldest rows but `count`, the others all of theirs. */
  ghost predicate OldestStay(before: seq<KeyRow>, after: seq<KeyRow>, session: int, count: nat) {
    && (forall other {:trigger Stamps(after, other)} :: other != session ==> Stamps(after, other) == Stamps(before, other))
    && Stamps(after, session) == Stamps(before, session)[..Max(0, |Stamps(before, session)| - count)]
  }

  lemma StaysWhole(keys: seq<KeyRow>, session: int)
    ensures OldestStay(keys, keys, session, 0)
  {
    var stamps := Stamps(keys, session);
    assert stamps[..|stamps|] == stamps;
  }

  lemma OldestStayAfterDrop(keys: seq<KeyRow>, session: int, count: nat)
    ensures OldestStay(keys, DropNewest(keys, session, count), session, count)
  {
    forall other ensures Drops(keys, session, count, other) {
      StampsAfterDrop(keys, session, count, other);
    }
    assert Drops(keys, session, count, session);
  }

  /** Goes through the rows from the newest on and leaves out the session's as long
      as `count` lasts. */
  method WithoutNewest(keys: seq<KeyRow>, session: int, count: nat) returns (kept: seq<KeyRow>)
    ensures kept == DropNewest(keys, session, count)
  {
    kept := [];
    var i, left: int := |keys|, count;
    assert keys[..i] == keys;
    while i > 0
      invariant 0 <= i <= |keys| && left >= 0
      invariant DropNewest(keys, session, count) == DropNewest(keys[..i], session, left) + kept
    {
      i := i - 1;
      assert keys[..i + 1][..i] == keys[..i];
      if keys[i].session == session && left > 0 {
        left := left - 1;
      } else {
        kept := [keys[i]] + kept;
      }
    }
  }

  lemma SumNext(xs: seq<int>, k: nat)
    requires k < |xs|
    ensures Sum(xs[..k + 1]) == Sum(xs[..k]) + xs[k]
  {
    assert xs[..k + 1] == xs[..k] + [xs[k]];
    SumAppend(xs[..k], [xs[k]]);
  }

  class Store {
    var invites: seq<Invite>
    var sessions: seq<Session>
    var keys: seq<KeyRow>

    function View(): Ledger
      reads this
    {
      Ledger(invites, sessions, keys)
    }

    ghost predicate Valid()
      reads this
    {
      Sound(View())
    }

    constructor ()
      ensures Valid() && View() == Ledger([], [], [])
    {
      invites, sessions, keys := [], [], [];
    }

    /** An invitation with nothing spent or held. Its counters are within its quota
        exactly when the quota is not negative, which nothing here makes sure of. */
    method CreateInvite(quota: int) returns (invite: nat)
      requires Valid()
      modifies this
      ensures View() == InviteLedger.CreateInvite(old(View()), quota)
      ensures invite == old(|invites|)
      ensures Valid() <==> quota >= 0
    {
      CreateIsSoundIff(View(), quota);
      invite := |invites|;
      invites := invites + [Invite(quota, 0, 0, true)];
    }

    method ReserveSession(invite: int, requestedSeconds: int, laneCount: int, now: int) returns (session: Option<nat>)
      requires Valid()
      modifies this
      ensures Valid()
      ensures (View(), session) == Reserve(old(View()), invite, requestedSeconds, laneCount, now)
    {
      ReserveIsSound(View(), invite, requestedSeconds, laneCount, now);
      var requested := Max(1, Min(requestedSeconds, MAX_SESSION_SECONDS));
      var lanes := Lanes(laneCount);
      if !(0 <= invite < |invites|) || !invites[invite].enabled {
        return None;
      }
      var row := invites[invite];
      var remaining := row.quota - row.used - row.reserved;
      var reserved := Min(requested, remaining);
      if reserved <= 0 {
        return None;
      }
      session := Some(|sessions|);
      sessions := sessions + [Session(invite, reserved, lanes, now, None)];
      invites := invites[invite := row.(reserved := row.reserved + reserved)];
    }

    /** `seconds` is `None` when the session is unknown, foreign or settled, and
        otherwise what the next key may stream for. */
    method ExtendSessionWindow(invite: int, session: int, moment: int) returns (seconds: Option<int>)
      requires Valid()
      modifies this
      ensures Valid()
      ensures (View(), seconds) == Extend(old(View()), invite, session, moment)
    {
      ExtendIsSound(View(), invite, session, moment);
      if !IsOpen(View(), invite, session) {
        return None;
      }
      var row := sessions[session];
      ghost var growth := Growth(invites[invite], row, moment);
      assert invites[invite] == View().invites[invite];
      GrowthIsAffordable(invites[invite], row, moment);
      DividingSums(row.reserved, growth, Lanes(row.laneCount));
      var lanes := Lanes(row.laneCount);
      var elapsed := Max(0, CeilSeconds(moment - row.createdAt));
      var covered := row.reserved / lanes;
      var wanted := elapsed + STREAM_WINDOW_SECONDS;
      if covered < wanted {
        var remaining := Max(0, Remaining(invites[invite]));
        var added := Min(lanes * (wanted - covered), remaining);
        added := added - added % lanes;
        assert added == growth;
        if added > 0 {
          sessions := sessions[session := row.(reserved := row.reserved + added)];
          invites := invites[invite := invites[invite].(reserved := invites[invite].reserved + added)];
          covered := covered + added / lanes;
        }
      }
      assert View() == Hold(old(View()), session, growth);
      assert covered == Span(sessions[session]);
      seconds := Some(Max(0, Min(SONIOX_MAX_SESSION_DURATION_SECONDS, covered - elapsed)));
    }

    method SettleSession(invite: int, session: int, usedSeconds: int) returns (quota: Option<Quota>)
      requires Valid()
      modifies this
      ensures Valid()
      ensures (View(), quota) == Settle(old(View()), invite, session, usedSeconds)
    {
      SettleIsSound(View(), invite, session, usedSeconds);
      if !IsOpen(View(), invite, session) {
        return None;
      }
      var row := sessions[session];
      var charged := Max(0, Min(usedSeconds, row.reserved));
      sessions := sessions[session := row.(settled := Some(charged))];
      var payer := invites[invite];
      invites := invites[invite := payer.(used := payer.used + charged, reserved := payer.reserved - row.reserved)];
      quota := Some(QuotaOf(invites[invite]));
    }

    /** Selects the stale reservations first and then closes them one by one. */
    method ExpireStaleReservations(cutoff: int)
      requires Valid()
      modifies this
      ensures Valid()
      ensures View() == Sweep(old(View()), cutoff)
    {
      SweepIsSound(View(), cutoff);
      var l := View();
      var k := 0;
      while k < |l.sessions|
        invariant 0 <= k <= |l.sessions| == |sessions|
        invariant |invites| == |l.invites| && keys == l.keys
        invariant forall j :: k <= j < |sessions| ==> sessions[j] == l.sessions[j]
        invariant forall j :: 0 <= j < k ==> sessions[j] == Sweep(l, cutoff).sessions[j]
        invariant forall i :: 0 <= i < |invites| ==>
          invites[i] == l.invites[i].(reserved := l.invites[i].reserved - Sum(StaleHolds(l, i, cutoff)[..k]))
      {
        forall i | 0 <= i < |invites|
          ensures Sum(StaleHolds(l, i, cutoff)[..k + 1]) == Sum(StaleHolds(l, i, cutoff)[..k]) + StaleHolds(l, i, cutoff)[k]
        {
          SumNext(StaleHolds(l, i, cutoff), k);
        }
        if Stale(l, k, cutoff) {
          var row := l.sessions[k];
          assert HasInvite(l, row.invite);
          sessions := sessions[k := row.(settled := Some(0))];
          var payer := invites[row.invite];
          invites := invites[row.invite := payer.(reserved := payer.reserved - row.reserved)];
        }
        k := k + 1;
      }
      forall i | 0 <= i < |invites| ensures invites[i] == Sweep(l, cutoff).invites[i] {
        assert StaleHolds(l, i, cutoff)[..k] == StaleHolds(l, i, cutoff);
      }
      assert invites == Sweep(l, cutoff).invites;
      assert sessions == Sweep(l, cutoff).sessions;
    }

    method AdjustInviteQuota(invite: int, deltaSeconds: int) returns (quota: Option<int>)
      requires Valid()
      modifies this
      ensures Valid()
      ensures (View(), quota) == AdjustQuota(old(View()), invite, deltaSeconds)
    {
      AdjustIsSound(View(), invite, deltaSeconds);
      if !(0 <= invite < |invites|) {
        return None;
      }
      var row := invites[invite];
      var floor := row.used + row.reserved;
      var updated := Max(floor, row.quota + deltaSeconds);
      invites := invites[invite := row.(quota := updated)];
      quota := Some(updated);
    }

    method SetInviteEnabled(invite: int, enabled: bool) returns (found: bool)
      requires Valid()
      modifies this
      ensures Valid()
      ensures (View(), found) == SetEnabled(old(View()), invite, enabled)
    {
      EnablingIsSound(View(), invite, enabled);
      if !(0 <= invite < |invites|) {
        return false;
      }
      invites := invites[invite := invites[invite].(enabled := enabled)];
      found := true;
    }

    /** Claims the whole batch in one transaction and returns the running total. */
    method ReserveSessionKeys(invite: int, session: int, count: int, now: int) returns (issued: Option<int>)
      requires Valid()
      modifies this`keys
      ensures Valid()
      ensures (View(), issued) == ClaimKeys(old(View()), invite, session, count, now)
    {
      if count < 1 || !IsOpen(View(), invite, session) {
        return None;
      }
      var already := CountRows(keys, session);
      if already + count > KeyBudget(sessions[session].laneCount) {
        return None;
      }
      var i := 0;
      while i < count
        invariant 0 <= i <= count
        invariant keys == old(keys) + NewRows(session, i, now)
      {
        keys := keys + [KeyRow(session, now)];
        i := i + 1;
      }
      assert View().sessions == old(View()).sessions && View().invites == old(View()).invites;
      issued := Some(already + count);
    }

    /** What stays is the session's oldest rows and every row of the others, in order. */
    method ReleaseSessionKeys(session: int, count: int)
      requires Valid()
      modifies this`keys
      ensures Valid()
      ensures View() == ReleaseKeys(old(View()), session, count)
      ensures OldestStay(old(keys), keys, session, Max(0, count))
    {
      if count < 1 {
        StaysWhole(keys, session);
        return;
      }
      OldestStayAfterDrop(keys, session, count);
      keys := WithoutNewest(keys, session, count);
      assert View().sessions == old(View()).sessions && View().invites == old(View()).invites;
    }

    /** Remaining key budget of an open session. */
    method SessionKeyHeadroom(invite: int, session: int) returns (headroom: Option<int>)
      requires Valid()
      ensures headroom.Some? <==> IsOpen(View(), invite, session)
      ensures headroom.Some? ==>
        forall count, now :: 1 <= count ==>
          (ClaimKeys(View(), invite, session, count, now).1.Some? <==> count <= headroom.value)
    {
      if !IsOpen(View(), invite, session) {
        return None;
      }
      headroom := Some(Max(0, KeyBudget(sessions[session].laneCount) - CountRows(keys, session)));
    }
  }
}
