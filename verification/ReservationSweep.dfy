/**
 When the sweep closes a reservation, is every key ever handed out for it dead?

 A batch is claimed, stamped, and only then minted by the provider, so a key's
 life is counted from the mint and the sweep's patience from the stamp.
 */
module ReservationSweep {
  import opened Wrappers
  import opened InviteLedger
  import opened LedgerInvariants
  import opened LedgerRuns
  import opened KeyMinting

  /** The last instant at which a key of this batch can be streaming: redeemed at
      the last moment it can be, and run to its cap. */
  function LastInstant(m: Mint): int { m.at + (m.expires + m.cap) * MICROS }

  function Cutoff(now: int): int { now - RESERVATION_TTL_SECONDS * MICROS }

  /** The batch was made and, from its stamp on, is over within the TTL. */
  predicate DiesWithinTtl(c: Claim) {
    c.mint.Some? && LastInstant(c.mint.value) <= c.stamp + RESERVATION_TTL_SECONDS * MICROS
  }

  lemma {:induction false} ClaimStampsHas(claims: seq<Claim>, i: nat)
    requires i < |claims| && claims[i].count >= 1
    ensures claims[i].stamp in ClaimStamps(claims, claims[i].session)
  {
    var n := |claims| - 1;
    var last := ClaimStamp(claims[n], claims[i].session);
    var stamps := ClaimStamps(claims, claims[i].session);
    if i == n {
      assert last[0] == claims[i].stamp;
      assert stamps[|stamps| - |last|] == claims[i].stamp;
    } else {
      assert claims[..n][i] == claims[i];
      ClaimStampsHas(claims[..n], i);
    }
  }

  /** A stale session was touched by no claim after the cutoff. */
  lemma StaleSessionHasOldClaims(sv: Service, session: nat, cutoff: int, i: nat)
    requires Faithful(sv) && Accounted(sv) && session < |sv.ledger.sessions|
    requires Stale(sv.ledger, session, cutoff)
    requires i < |sv.claims| && sv.claims[i].session == session
    ensures sv.claims[i].stamp < cutoff
  {
    ClaimStampsHas(sv.claims, i);
    assert ClaimStamps(sv.claims, session) == Stamps(sv.ledger.keys, session);
  }

  /** In every run whose failed batches are undisturbed, whatever the sweep
      closes has no live key left, provided each batch dies within the TTL. */
  lemma SweptSessionsAreSilent(sv: Service, steps: seq<Step>, now: int, i: nat)
    requires Sound(sv.ledger) && Accounted(sv) && ReasonableSteps(steps)
    requires Faithful(sv) && UndisturbedRun(sv, steps)
    requires i < |RunSteps(sv, steps).claims|
    requires var c := RunSteps(sv, steps).claims[i];
             && DiesWithinTtl(c)
             && 0 <= c.session < |RunSteps(sv, steps).ledger.sessions|
             && RunSteps(sv, steps).ledger.sessions[c.session].settled.None?
             && Sweep(RunSteps(sv, steps).ledger, Cutoff(now)).sessions[c.session].settled.Some?
    ensures LastInstant(RunSteps(sv, steps).claims[i].mint.value) < now
  {
    RunStaysFaithful(sv, steps);
    KeyRowsStayAccounted(sv, steps);
    var end := RunSteps(sv, steps);
    StaleSessionHasOldClaims(end, end.claims[i].session, Cutoff(now), i);
  }

  /** For the batch claimed last on an open session the bound is exact: no sweep
      at any moment outlives it if and only if it dies within the TTL. */
  lemma SilenceIff(sv: Service, i: nat)
    requires Faithful(sv) && Accounted(sv) && i < |sv.claims|
    requires sv.claims[i].mint.Some?
    requires sv.ledger.sessions[sv.claims[i].session].settled.None?
    requires sv.claims[i].stamp == LastTouched(sv.ledger, sv.claims[i].session)
    ensures (forall now :: Stale(sv.ledger, sv.claims[i].session, Cutoff(now)) ==> LastInstant(sv.claims[i].mint.value) < now)
       <==> DiesWithinTtl(sv.claims[i])
  {
    var c := sv.claims[i];
    var earliest := c.stamp + RESERVATION_TTL_SECONDS * MICROS + 1;
    assert Stale(sv.ledger, c.session, Cutoff(earliest));
  }

  /** A single-use batch dies within the TTL exactly when the provider answers
      within 55 minutes and whatever its cap leaves of five hours. */
  lemma SingleUseBatchDiesWithinTtlIff(c: Claim)
    requires c.mint.Some? && c.mint.value.expires == SINGLE_USE_KEY_EXPIRES_SECONDS
    ensures DiesWithinTtl(c)
       <==> c.mint.value.at - c.stamp <= 3300 * MICROS + (SONIOX_MAX_SESSION_DURATION_SECONDS - c.mint.value.cap) * MICROS
  {
  }

  /** A shared key minted `delay` microseconds after its claim dies within the
      TTL exactly when its cap leaves that delay to spare: a shared key for a
      full five-hour reservation has none. */
  lemma SharedKeyDiesWithinTtlIff(c: Claim)
    requires c.mint.Some? && c.mint.value.expires == SHARED_KEY_EXPIRES_SECONDS
    ensures DiesWithinTtl(c)
       <==> c.mint.value.at - c.stamp <= (SONIOX_MAX_SESSION_DURATION_SECONDS - c.mint.value.cap) * MICROS
  {
  }

  /** A five-hour one-lane recording opened with a shared key that the provider
      took a second to mint, redeemed just before it expires: the sweep closes
      the reservation while that key still streams. */
  lemma SweepClosesUnderSharedKey()
    ensures var l := Ledger([Invite(108000, 0, 0, true)], [], []);
            var steps := [Transact(DoReserve(0, MAX_SESSION_SECONDS, 1, 0)), ClaimBatch(0, 0, 1, 0),
                          MintSucceeds(0, Mint(MICROS, SHARED_KEY_EXPIRES_SECONDS, MAX_SESSION_SECONDS))];
            var sv := RunSteps(Service(l, []), steps);
            var now := RESERVATION_TTL_SECONDS * MICROS + 1;
            && |sv.claims| == 1 && sv.claims[0].mint.Some? && |sv.ledger.sessions| == 1
            && sv.claims[0].mint.value.cap == StreamDuration(sv.ledger.sessions[0])
            && Sweep(sv.ledger, Cutoff(now)).sessions[0].settled == Some(0)
            && now <= LastInstant(sv.claims[0].mint.value)
  {
    var l := Ledger([Invite(108000, 0, 0, true)], [], []);
    var reserve := Transact(DoReserve(0, MAX_SESSION_SECONDS, 1, 0));
    var claim := ClaimBatch(0, 0, 1, 0);
    var mint := MintSucceeds(0, Mint(MICROS, SHARED_KEY_EXPIRES_SECONDS, MAX_SESSION_SECONDS));
    var sv0 := Service(l, []);
    var sv1 := Next(sv0, reserve);
    assert sv1 == Service(Ledger([Invite(108000, 0, 18000, true)], [Session(0, 18000, 1, 0, None)], []), []);
    var sv2 := Next(sv1, claim);
    assert sv2.ledger.keys == [KeyRow(0, 0)] by { assert NewRows(0, 1, 0) == [KeyRow(0, 0)]; }
    assert sv2.claims == [Claim(0, 1, 0, None)];
    var sv3 := Next(sv2, mint);
    var steps := [reserve, claim, mint];
    assert steps[1..] == [claim, mint] && steps[1..][1..] == [mint] && steps[1..][1..][1..] == [];
    assert RunSteps(sv3, []) == sv3;
    assert RunSteps(sv2, [mint]) == sv3;
    assert RunSteps(sv1, [claim, mint]) == sv3;
    assert RunSteps(sv0, steps) == sv3;
    StampsOfSingle(KeyRow(0, 0));
  }

  lemma StampsOfSingle(row: KeyRow)
    ensures Stamps([row], row.session) == [row.issuedAt]
  {
    assert [row][..0] == [];
  }

  /** Two requests on one session: the first claims at 0, the second at ten
      seconds and gets its key, then the first fails and takes the newer row
      with it. The session looks ten seconds staler than its live key. */
  lemma ReleaseTakesAnothersRow()
    ensures var l := Ledger([Invite(108000, 0, 18000, true)], [Session(0, 18000, 1, 0, None)], [KeyRow(0, 0), KeyRow(0, 10 * MICROS)]);
            var key := Mint(10 * MICROS, SHARED_KEY_EXPIRES_SECONDS, MAX_SESSION_SECONDS);
            var sv := Service(l, [Claim(0, 1, 0, None), Claim(0, 1, 10 * MICROS, Some(key))]);
            var sv' := Next(sv, MintFails(0));
            var now := RESERVATION_TTL_SECONDS * MICROS;
            && Faithful(sv) && !Undisturbed(sv.claims, 0) && DiesWithinTtl(sv.claims[1])
            && sv'.claims == [sv.claims[1]] && |sv'.ledger.sessions| == 1
            && Sweep(sv'.ledger, Cutoff(now + 1)).sessions[0].settled == Some(0)
            && now + 1 <= LastInstant(key)
  {
    var rows := [KeyRow(0, 0), KeyRow(0, 10 * MICROS)];
    var key := Mint(10 * MICROS, SHARED_KEY_EXPIRES_SECONDS, MAX_SESSION_SECONDS);
    var claims := [Claim(0, 1, 0, None), Claim(0, 1, 10 * MICROS, Some(key))];
    var l := Ledger([Invite(108000, 0, 18000, true)], [Session(0, 18000, 1, 0, None)], rows);
    assert claims[1].stamp != claims[0].stamp;
    forall s ensures Stamps(rows, s) == ClaimStamps(claims, s) {
      assert rows == [] + NewRows(0, 1, 0) + NewRows(0, 1, 10 * MICROS);
      StampsAppend([], 1, 0, 0, s);
      StampsAppend([] + NewRows(0, 1, 0), 1, 0, 10 * MICROS, s);
      StampsOfParts([claims[0]], [claims[1]], s);
      assert claims == [claims[0]] + [claims[1]];
      StampsOfOne(claims[0], s);
      StampsOfOne(claims[1], s);
    }
    assert rows[..1] == [rows[0]];
    assert [rows[0]][..0] == [];
    assert DropNewest([rows[0]], 0, 0) == [rows[0]];
    assert DropNewest(rows, 0, 1) == [rows[0]];
    StampsOfSingle(rows[0]);
    assert Without(claims, 0) == [claims[1]];
  }
}
