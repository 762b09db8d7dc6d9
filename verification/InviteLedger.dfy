/**
 The quota ledger behind an invitation: what each stored transaction does to
 the `invites`, `sessions` and `session_keys` tables.

 Rows are indexed by their position; every transaction is one atomic step.
 Time is counted in microseconds, the resolution of the stored timestamps.
 */
module InviteLedger {
  import opened Wrappers
  import opened Sums

  const MAX_SESSION_SECONDS := 5 * 60 * 60
  const RESERVATION_TTL_SECONDS := 6 * 60 * 60
  const STREAM_WINDOW_SECONDS := 3 * 60 * 60
  const SONIOX_MAX_SESSION_DURATION_SECONDS := 5 * 60 * 60
  const MAX_LANES_PER_SESSION := 4
  const KEYS_PER_LANE := 256
  const SESSION_KEY_FLOOR := 16
  const SINGLE_USE_KEY_EXPIRES_SECONDS := 300
  const SHARED_KEY_EXPIRES_SECONDS := 3600
  const MICROS := 1_000_000

  datatype Invite = Invite(quota: int, used: int, reserved: int, enabled: bool)

  /** `settled` is `None` while the reservation is open. */
  datatype Session = Session(invite: nat, reserved: int, laneCount: int, createdAt: int, settled: Option<int>)

  datatype KeyRow = KeyRow(session: int, issuedAt: int)

  /** Key rows are kept in the order of their row ids, oldest first. */
  datatype Ledger = Ledger(invites: seq<Invite>, sessions: seq<Session>, keys: seq<KeyRow>)

  datatype Quota = Quota(quota: int, used: int, remaining: int)

  function Min(a: int, b: int): int { if a <= b then a else b }

  function Max(a: int, b: int): int { if a >= b then a else b }

  /** Whole seconds covering a span of microseconds, rounded up. */
  function CeilSeconds(micros: int): int { -((-micros) / MICROS) }

  function Remaining(v: Invite): int { v.quota - v.used - v.reserved }

  function QuotaOf(v: Invite): Quota { Quota(v.quota, v.used, Max(0, Remaining(v))) }

  /** A stored lane count read back within the supported range. */
  function Lanes(laneCount: int): (lanes: int)
    ensures 1 <= lanes <= MAX_LANES_PER_SESSION
  {
    Max(1, Min(laneCount, MAX_LANES_PER_SESSION))
  }

  /** Wall-clock seconds a reservation pays for from the moment it was made. */
  function Span(s: Session): int { s.reserved / Lanes(s.laneCount) }

  /** The cap put on the keys minted together with a new reservation. */
  function StreamDuration(s: Session): int { Max(1, Span(s)) }

  function KeyBudget(laneCount: int): int { Max(SESSION_KEY_FLOOR, KEYS_PER_LANE * Lanes(laneCount)) }

  predicate HasInvite(l: Ledger, invite: int) { 0 <= invite < |l.invites| }

  /** The session exists, belongs to this invitation and is not settled. The
      foreign key says that its invitation exists. */
  predicate IsOpen(l: Ledger, invite: int, session: int) {
    && HasInvite(l, invite)
    && 0 <= session < |l.sessions| && l.sessions[session].invite == invite && l.sessions[session].settled.None?
  }

  // ---------------------------------------------------------------- key rows

  function CountRows(keys: seq<KeyRow>, session: int): nat {
    if keys == [] then 0
    else CountRows(keys[..|keys| - 1], session) + (if keys[|keys| - 1].session == session then 1 else 0)
  }

  /** The stamps of a session's key rows, oldest first. */
  function Stamps(keys: seq<KeyRow>, session: int): (stamps: seq<int>)
    ensures |stamps| == CountRows(keys, session)
  {
    if keys == [] then []
    else
      var last := keys[|keys| - 1];
      Stamps(keys[..|keys| - 1], session) + (if last.session == session then [last.issuedAt] else [])
  }

  /** Deletes the newest `count` rows of a session, whoever inserted them. */
  function DropNewest(keys: seq<KeyRow>, session: int, count: int): seq<KeyRow> {
    if keys == [] then []
    else
      var last := keys[|keys| - 1];
      if last.session == session && count > 0 then DropNewest(keys[..|keys| - 1], session, count - 1)
      else DropNewest(keys[..|keys| - 1], session, count) + [last]
  }

  function NewRows(session: int, count: nat, stamp: int): (rows: seq<KeyRow>)
    ensures |rows| == count
  {
    seq(count, _ => KeyRow(session, stamp))
  }

  /** The newest stamp a sweep measures idleness from. */
  function LastTouched(l: Ledger, session: nat): int
    requires session < |l.sessions|
  {
    MaxOf(Stamps(l.keys, session), l.sessions[session].createdAt)
  }

  function MaxOf(xs: seq<int>, floor: int): (m: int)
    ensures m >= floor && (forall x :: x in xs ==> x <= m) && (m == floor || m in xs)
  {
    if xs == [] then floor
    else
      assert xs == xs[..|xs| - 1] + [xs[|xs| - 1]];
      Max(xs[|xs| - 1], MaxOf(xs[..|xs| - 1], floor))
  }

  // ------------------------------------------------------------ transactions

  function CreateInvite(l: Ledger, quota: int): Ledger {
    l.(invites := l.invites + [Invite(quota, 0, 0, true)])
  }

  function Reserve(l: Ledger, invite: int, requested: int, laneCount: int, now: int): (Ledger, Option<nat>) {
    if !HasInvite(l, invite) || !l.invites[invite].enabled then (l, None)
    else
      var v := l.invites[invite];
      var reserved := Min(Max(1, Min(requested, MAX_SESSION_SECONDS)), Remaining(v));
      if reserved <= 0 then (l, None)
      else
        (l.(invites := l.invites[invite := v.(reserved := v.reserved + reserved)],
            sessions := l.sessions + [Session(invite, reserved, Lanes(laneCount), now, None)]),
         Some(|l.sessions|))
  }

  /** Whole seconds, counted up, since the session was reserved. */
  function Elapsed(s: Session, moment: int): (elapsed: int)
    ensures elapsed >= 0
  {
    Max(0, CeilSeconds(moment - s.createdAt))
  }

  /** Lane-seconds one call adds to a reservation. */
  function Growth(v: Invite, s: Session, moment: int): int {
    var lanes := Lanes(s.laneCount);
    var wanted := Elapsed(s, moment) + STREAM_WINDOW_SECONDS;
    if Span(s) < wanted then
      var added := Min(lanes * (wanted - Span(s)), Max(0, Remaining(v)));
      added - added % lanes
    else 0
  }

  function Hold(l: Ledger, session: nat, added: int): Ledger
    requires session < |l.sessions| && HasInvite(l, l.sessions[session].invite)
  {
    var s := l.sessions[session];
    var v := l.invites[s.invite];
    l.(invites := l.invites[s.invite := v.(reserved := v.reserved + added)],
       sessions := l.sessions[session := s.(reserved := s.reserved + added)])
  }

  /** The second component is the cap of the next key: `None` without an open
      session, zero when the invitation has no time left. */
  function Extend(l: Ledger, invite: int, session: int, moment: int): (Ledger, Option<int>)
  {
    if !IsOpen(l, invite, session) then (l, None)
    else
      var s := l.sessions[session];
      var added := Growth(l.invites[invite], s, moment);
      var held := Hold(l, session, added);
      (held, Some(Max(0, Min(SONIOX_MAX_SESSION_DURATION_SECONDS,
                             Span(held.sessions[session]) - Elapsed(s, moment)))))
  }

  function Close(l: Ledger, session: nat, charged: int): Ledger
    requires session < |l.sessions| && HasInvite(l, l.sessions[session].invite)
  {
    var s := l.sessions[session];
    var v := l.invites[s.invite];
    l.(invites := l.invites[s.invite := v.(used := v.used + charged, reserved := v.reserved - s.reserved)],
       sessions := l.sessions[session := s.(settled := Some(charged))])
  }

  function Charge(s: Session, usedSeconds: int): int { Max(0, Min(usedSeconds, s.reserved)) }

  function Settle(l: Ledger, invite: int, session: int, usedSeconds: int): (Ledger, Option<Quota>)
  {
    if !IsOpen(l, invite, session) then (l, None)
    else
      var closed := Close(l, session, Charge(l.sessions[session], usedSeconds));
      (closed, Some(QuotaOf(closed.invites[invite])))
  }

  predicate Stale(l: Ledger, session: nat, cutoff: int)
    requires session < |l.sessions|
  {
    l.sessions[session].settled.None? && LastTouched(l, session) < cutoff
  }

  /** What a sweep gives back to one invitation. */
  function StaleHolds(l: Ledger, invite: nat, cutoff: int): (holds: seq<int>)
    ensures |holds| == |l.sessions|
  {
    seq(|l.sessions|, k requires 0 <= k < |l.sessions| =>
      if l.sessions[k].invite == invite && Stale(l, k, cutoff) then l.sessions[k].reserved else 0)
  }

  /** Every stale reservation closes at zero, and nothing else changes. */
  function Sweep(l: Ledger, cutoff: int): Ledger {
    Ledger(
      seq(|l.invites|, i requires 0 <= i < |l.invites| =>
        l.invites[i].(reserved := l.invites[i].reserved - Sum(StaleHolds(l, i, cutoff)))),
      seq(|l.sessions|, k requires 0 <= k < |l.sessions| =>
        if Stale(l, k, cutoff) then l.sessions[k].(settled := Some(0)) else l.sessions[k]),
      l.keys)
  }

  function AdjustQuota(l: Ledger, invite: int, delta: int): (Ledger, Option<int>) {
    if !HasInvite(l, invite) then (l, None)
    else
      var v := l.invites[invite];
      var updated := Max(v.used + v.reserved, v.quota + delta);
      (l.(invites := l.invites[invite := v.(quota := updated)]), Some(updated))
  }

  function SetEnabled(l: Ledger, invite: int, enabled: bool): (Ledger, bool) {
    if !HasInvite(l, invite) then (l, false)
    else (l.(invites := l.invites[invite := l.invites[invite].(enabled := enabled)]), true)
  }

  /** Claims a whole batch of key slots, or nothing. */
  function ClaimKeys(l: Ledger, invite: int, session: int, count: int, now: int): (Ledger, Option<int>) {
    if count < 1 || !IsOpen(l, invite, session) then (l, None)
    else
      var issued := CountRows(l.keys, session);
      if issued + count > KeyBudget(l.sessions[session].laneCount) then (l, None)
      else (l.(keys := l.keys + NewRows(session, count, now)), Some(issued + count))
  }

  function ReleaseKeys(l: Ledger, session: int, count: int): Ledger {
    if count < 1 then l else l.(keys := DropNewest(l.keys, session, count))
  }
}
