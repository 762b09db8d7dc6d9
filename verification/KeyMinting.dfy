/**
 Claim, mint, release: the order in which a request takes key slots, asks the
 provider for the keys, and gives the slots back when the provider fails, under
 every interleaving of requests and ledger transactions.
 */
module KeyMinting {
  import opened Wrappers
  import opened InviteLedger
  import opened LedgerInvariants
  import opened LedgerRuns

  /** A minted batch: when the provider made it, for how many seconds it can be
      redeemed, and for how many seconds a redeemed key may stream. */
  datatype Mint = Mint(at: int, expires: nat, cap: nat)

  /** A granted claim that was not released. `mint` is `None` while in flight. */
  datatype Claim = Claim(session: int, count: nat, stamp: int, mint: Option<Mint>)

  /** Claims are kept in the order in which they were granted. */
  datatype Service = Service(ledger: Ledger, claims: seq<Claim>)

  datatype Step =
    | Transact(action: Action)
    | ClaimBatch(invite: int, session: int, count: int, now: int)
    | MintSucceeds(claim: nat, mint: Mint)
    | MintFails(claim: nat)

  function Without(claims: seq<Claim>, i: nat): seq<Claim>
    requires i < |claims|
  {
    claims[..i] + claims[i + 1..]
  }

  /** Steps that do not apply leave the service as it is. */
  function Next(sv: Service, step: Step): Service {
    match step
    case Transact(action) =>
      if action.DoClaim? || action.DoRelease? then sv else sv.(ledger := Apply(sv.ledger, action))
    case ClaimBatch(invite, session, count, now) =>
      var (ledger, issued) := ClaimKeys(sv.ledger, invite, session, count, now);
      if issued.Some? then Service(ledger, sv.claims + [Claim(session, count, now, None)]) else sv
    case MintSucceeds(i, mint) =>
      if i < |sv.claims| && sv.claims[i].mint.None?
      then sv.(claims := sv.claims[i := sv.claims[i].(mint := Some(mint))])
      else sv
    case MintFails(i) =>
      if i < |sv.claims| && sv.claims[i].mint.None?
      then Service(ReleaseKeys(sv.ledger, sv.claims[i].session, sv.claims[i].count), Without(sv.claims, i))
      else sv
  }

  function RunSteps(sv: Service, steps: seq<Step>): Service
    decreases |steps|
  {
    if steps == [] then sv else RunSteps(Next(sv, steps[0]), steps[1..])
  }

  // -------------------------------------------------- what claims account for

  function Copies(stamp: int, count: nat): (stamps: seq<int>)
    ensures |stamps| == count
  {
    seq(count, _ => stamp)
  }

  function ClaimStamp(c: Claim, session: int): seq<int> {
    if c.session == session then Copies(c.stamp, c.count) else []
  }

  /** One stamp per claimed slot of a session, in the order of the claims. */
  function ClaimStamps(claims: seq<Claim>, session: int): seq<int> {
    if claims == [] then []
    else ClaimStamps(claims[..|claims| - 1], session) + ClaimStamp(claims[|claims| - 1], session)
  }

  /** Key slots of a session that are claimed and not released. */
  function Claimed(claims: seq<Claim>, session: int): nat { |ClaimStamps(claims, session)| }

  lemma {:induction false} StampsOfParts(xs: seq<Claim>, ys: seq<Claim>, session: int)
    ensures ClaimStamps(xs + ys, session) == ClaimStamps(xs, session) + ClaimStamps(ys, session)
  {
    if ys == [] {
      assert xs + ys == xs;
    } else {
      var n := |ys| - 1;
      assert (xs + ys)[..|xs + ys| - 1] == xs + ys[..n];
      StampsOfParts(xs, ys[..n], session);
    }
  }

  lemma StampsOfOne(c: Claim, session: int)
    ensures ClaimStamps([c], session) == ClaimStamp(c, session)
  {
    assert [c][..0] == [];
  }

  /** A claim list seen from one of its members. */
  lemma StampsAround(claims: seq<Claim>, i: nat, session: int)
    requires i < |claims|
    ensures ClaimStamps(claims, session)
         == ClaimStamps(claims[..i], session) + ClaimStamp(claims[i], session) + ClaimStamps(claims[i + 1..], session)
    ensures ClaimStamps(Without(claims, i), session)
         == ClaimStamps(claims[..i], session) + ClaimStamps(claims[i + 1..], session)
  {
    assert claims == claims[..i] + [claims[i]] + claims[i + 1..];
    StampsOfParts(claims[..i] + [claims[i]], claims[i + 1..], session);
    StampsOfParts(claims[..i], [claims[i]], session);
    StampsOfOne(claims[i], session);
    StampsOfParts(claims[..i], claims[i + 1..], session);
  }

  lemma StampsIgnoreMint(claims: seq<Claim>, i: nat, mint: Option<Mint>, session: int)
    requires i < |claims|
    ensures ClaimStamps(claims[i := claims[i].(mint := mint)], session) == ClaimStamps(claims, session)
  {
    var claims' := claims[i := claims[i].(mint := mint)];
    StampsAround(claims, i, session);
    StampsAround(claims', i, session);
    assert claims'[..i] == claims[..i] && claims'[i + 1..] == claims[i + 1..];
  }

  // ------------------------------------------------------------ the key table

  lemma StampsLast(keys: seq<KeyRow>, row: KeyRow, other: int)
    ensures Stamps(keys + [row], other) == Stamps(keys, other) + (if row.session == other then [row.issuedAt] else [])
  {
    assert (keys + [row])[..|keys|] == keys;
  }

  lemma RowsLast(session: int, count: nat, stamp: int)
    requires count >= 1
    ensures NewRows(session, count, stamp) == NewRows(session, count - 1, stamp) + [KeyRow(session, stamp)]
    ensures Copies(stamp, count) == Copies(stamp, count - 1) + [stamp]
  {
  }

  lemma Regroup<T>(a: seq<T>, b: seq<T>, c: seq<T>)
    ensures a + (b + c) == a + b + c
  {
  }

  lemma {:induction false} StampsAppend(keys: seq<KeyRow>, count: nat, session: int, stamp: int, other: int)
    ensures Stamps(keys + NewRows(session, count, stamp), other)
         == Stamps(keys, other) + (if other == session then Copies(stamp, count) else [])
  {
    if count == 0 {
      assert keys + NewRows(session, 0, stamp) == keys;
      assert Stamps(keys, other) + [] == Stamps(keys, other);
    } else {
      var row, fewer := KeyRow(session, stamp), NewRows(session, count - 1, stamp);
      StampsAppend(keys, count - 1, session, stamp, other);
      RowsLast(session, count, stamp);
      Regroup(keys, fewer, [row]);
      StampsLast(keys + fewer, row, other);
      if other == session {
        Regroup(Stamps(keys, other), Copies(stamp, count - 1), [stamp]);
      }
    }
  }

  lemma DropOneMore(stamps: seq<int>, x: int, count: nat)
    requires count >= 1
    ensures (stamps + [x])[..Max(0, |stamps| + 1 - count)] == stamps[..Max(0, |stamps| - (count - 1))]
  {
  }

  lemma StampsWithout(keys: seq<KeyRow>, other: int)
    requires keys != []
    ensures var last := keys[|keys| - 1];
            Stamps(keys, other) == Stamps(keys[..|keys| - 1], other) + (if last.session == other then [last.issuedAt] else [])
  {
    assert Stamps(keys[..|keys| - 1], other) + [] == Stamps(keys[..|keys| - 1], other);
  }

  function AllBut(stamps: seq<int>, count: nat): seq<int> { stamps[..Max(0, |stamps| - count)] }

  /** A release leaves another session's stamps alone and takes the newest of its own. */
  ghost predicate Drops(keys: seq<KeyRow>, session: int, count: nat, other: int) {
    Stamps(DropNewest(keys, session, count), other)
      == if other == session then AllBut(Stamps(keys, other), count) else Stamps(keys, other)
  }

  lemma DropsOwnLast(keys: seq<KeyRow>, session: int, count: nat, other: int)
    requires keys != [] && keys[|keys| - 1].session == session && count > 0
    requires Drops(keys[..|keys| - 1], session, count - 1, other)
    ensures Drops(keys, session, count, other)
  {
    StampsWithout(keys, other);
    if other == session {
      DropOneMore(Stamps(keys[..|keys| - 1], other), keys[|keys| - 1].issuedAt, count);
    }
  }

  lemma DropsPastLast(keys: seq<KeyRow>, session: int, count: nat, other: int)
    requires keys != [] && keys[|keys| - 1].session != session
    requires Drops(keys[..|keys| - 1], session, count, other)
    ensures Drops(keys, session, count, other)
  {
    StampsWithout(keys, other);
    StampsLast(DropNewest(keys[..|keys| - 1], session, count), keys[|keys| - 1], other);
  }

  /** Releasing takes a session's newest stamps and no other session's. */
  lemma {:induction false} StampsAfterDrop(keys: seq<KeyRow>, session: int, count: nat, other: int)
    ensures Drops(keys, session, count, other)
  {
    if count == 0 {
      NothingDropped(keys, session);
      assert AllBut(Stamps(keys, other), 0) == Stamps(keys, other);
    } else if keys != [] {
      if keys[|keys| - 1].session == session {
        StampsAfterDrop(keys[..|keys| - 1], session, count - 1, other);
        DropsOwnLast(keys, session, count, other);
      } else {
        StampsAfterDrop(keys[..|keys| - 1], session, count, other);
        DropsPastLast(keys, session, count, other);
      }
    }
  }

  lemma {:induction false} NothingDropped(keys: seq<KeyRow>, session: int)
    ensures DropNewest(keys, session, 0) == keys
  {
    if keys != [] {
      NothingDropped(keys[..|keys| - 1], session);
    }
  }

  // ------------------------------------------------------- counts, always

  /** Every session has as many rows as its claims took slots. */
  ghost predicate RowsMatch(keys: seq<KeyRow>, claims: seq<Claim>) {
    forall s {:trigger Claimed(claims, s)} {:trigger CountRows(keys, s)} :: CountRows(keys, s) == Claimed(claims, s)
  }

  ghost predicate InBudget(l: Ledger) {
    forall s {:trigger l.sessions[s]} :: 0 <= s < |l.sessions| ==>
      CountRows(l.keys, s) <= KeyBudget(l.sessions[s].laneCount)
  }

  ghost predicate ClaimsNamed(claims: seq<Claim>, sessions: nat) {
    forall i {:trigger claims[i]} :: 0 <= i < |claims| ==> claims[i].count >= 1 && 0 <= claims[i].session < sessions
  }

  /** The rows of every session are as many as its claims, within its budget. */
  ghost predicate Accounted(sv: Service) {
    && RowsMatch(sv.ledger.keys, sv.claims)
    && InBudget(sv.ledger)
    && ClaimsNamed(sv.claims, |sv.ledger.sessions|)
  }

  lemma ClaimKeepsRowsMatched(keys: seq<KeyRow>, claims: seq<Claim>, c: Claim)
    requires RowsMatch(keys, claims)
    ensures RowsMatch(keys + NewRows(c.session, c.count, c.stamp), claims + [c])
  {
    var keys' := keys + NewRows(c.session, c.count, c.stamp);
    forall s ensures CountRows(keys', s) == Claimed(claims + [c], s) {
      StampsAppend(keys, c.count, c.session, c.stamp, s);
      StampsOfParts(claims, [c], s);
      StampsOfOne(c, s);
      assert CountRows(keys, s) == Claimed(claims, s);
    }
  }

  lemma ClaimKeepsBudget(l: Ledger, invite: int, session: int, count: int, now: int)
    requires InBudget(l)
    ensures InBudget(ClaimKeys(l, invite, session, count, now).0)
  {
    var (l', issued) := ClaimKeys(l, invite, session, count, now);
    if issued.Some? {
      forall s {:trigger l'.sessions[s]} | 0 <= s < |l'.sessions|
        ensures CountRows(l'.keys, s) <= KeyBudget(l'.sessions[s].laneCount)
      {
        StampsAppend(l.keys, count, session, now, s);
        assert l.sessions[s] == l'.sessions[s];
      }
    }
  }

  lemma MintKeepsRowsMatched(keys: seq<KeyRow>, claims: seq<Claim>, i: nat, mint: Mint)
    requires RowsMatch(keys, claims) && i < |claims|
    ensures RowsMatch(keys, claims[i := claims[i].(mint := Some(mint))])
  {
    forall s ensures CountRows(keys, s) == Claimed(claims[i := claims[i].(mint := Some(mint))], s) {
      StampsIgnoreMint(claims, i, Some(mint), s);
      assert CountRows(keys, s) == Claimed(claims, s);
    }
  }

  /** A claim's slots are all still there to be released: the count of rows is
      what makes this so, not which rows they are. */
  lemma ReleaseKeepsRowsMatched(keys: seq<KeyRow>, claims: seq<Claim>, i: nat)
    requires RowsMatch(keys, claims) && i < |claims|
    ensures RowsMatch(DropNewest(keys, claims[i].session, claims[i].count), Without(claims, i))
    ensures forall s :: CountRows(DropNewest(keys, claims[i].session, claims[i].count), s) <= CountRows(keys, s)
  {
    var c := claims[i];
    var keys' := DropNewest(keys, c.session, c.count);
    forall s
      ensures CountRows(keys', s) == Claimed(Without(claims, i), s)
      ensures CountRows(keys', s) <= CountRows(keys, s)
    {
      StampsAfterDrop(keys, c.session, c.count, s);
      StampsAround(claims, i, s);
      assert CountRows(keys, s) == Claimed(claims, s);
    }
  }

  lemma {:induction false} NobodysStamps(claims: seq<Claim>, session: int, sessions: nat)
    requires session >= sessions && ClaimsNamed(claims, sessions)
    ensures Claimed(claims, session) == 0
  {
    if claims != [] {
      assert claims[|claims| - 1] == claims[|claims| - 1];
      assert forall i :: 0 <= i < |claims| - 1 ==> claims[..|claims| - 1][i] == claims[i];
      NobodysStamps(claims[..|claims| - 1], session, sessions);
    }
  }

  lemma TransactionKeepsAccount(sv: Service, action: Action)
    requires Sound(sv.ledger) && Accounted(sv)
    requires !action.DoClaim? && !action.DoRelease?
    ensures Accounted(sv.(ledger := Apply(sv.ledger, action)))
  {
    var l, l' := sv.ledger, Apply(sv.ledger, action);
    assert l'.keys == l.keys;
    forall s {:trigger l'.sessions[s]} | 0 <= s < |l'.sessions|
      ensures CountRows(l'.keys, s) <= KeyBudget(l'.sessions[s].laneCount)
    {
      if s < |l.sessions| {
        ApplyKeepsSession(l, action, s);
        assert l.sessions[s] == l.sessions[s];
      } else {
        NobodysStamps(sv.claims, s, |l.sessions|);
        assert CountRows(l.keys, s) == Claimed(sv.claims, s);
      }
    }
    assert |l.sessions| <= |l'.sessions| by {
      if |l.sessions| > 0 { ApplyKeepsSession(l, action, |l.sessions| - 1); }
    }
  }

  lemma StepKeepsAccount(sv: Service, step: Step)
    requires Sound(sv.ledger) && Accounted(sv)
    requires step.Transact? && step.action.DoCreate? ==> step.action.quota >= 0
    ensures Sound(Next(sv, step).ledger) && Accounted(Next(sv, step))
  {
    match step
    case Transact(action) =>
      if !action.DoClaim? && !action.DoRelease? {
        ApplyIsSound(sv.ledger, action);
        TransactionKeepsAccount(sv, action);
      }
    case ClaimBatch(invite, session, count, now) =>
      if ClaimKeys(sv.ledger, invite, session, count, now).1.Some? {
        SoundIgnoresKeys(sv.ledger, ClaimKeys(sv.ledger, invite, session, count, now).0.keys);
        ClaimKeepsRowsMatched(sv.ledger.keys, sv.claims, Claim(session, count, now, None));
        ClaimKeepsBudget(sv.ledger, invite, session, count, now);
      }
    case MintSucceeds(i, mint) =>
      if i < |sv.claims| && sv.claims[i].mint.None? {
        MintKeepsRowsMatched(sv.ledger.keys, sv.claims, i, mint);
      }
    case MintFails(i) =>
      if i < |sv.claims| && sv.claims[i].mint.None? {
        ReleaseKeepsAccount(sv, i);
      }
  }

  lemma RemainingClaims(claims: seq<Claim>, i: nat, k: nat)
    requires i < |claims| && k < |Without(claims, i)|
    ensures Without(claims, i)[k] in claims
  {
    assert Without(claims, i)[k] == claims[if k < i then k else k + 1];
  }

  lemma ReleaseKeepsAccount(sv: Service, i: nat)
    requires Sound(sv.ledger) && Accounted(sv) && i < |sv.claims| && sv.claims[i].mint.None?
    ensures Sound(Next(sv, MintFails(i)).ledger) && Accounted(Next(sv, MintFails(i)))
  {
    var sv' := Next(sv, MintFails(i));
    assert sv.claims[i].count >= 1;
    SoundIgnoresKeys(sv.ledger, sv'.ledger.keys);
    ReleaseKeepsRowsMatched(sv.ledger.keys, sv.claims, i);
    forall s {:trigger sv'.ledger.sessions[s]} | 0 <= s < |sv'.ledger.sessions|
      ensures CountRows(sv'.ledger.keys, s) <= KeyBudget(sv'.ledger.sessions[s].laneCount)
    {
      assert sv.ledger.sessions[s] == sv'.ledger.sessions[s];
    }
    forall k {:trigger sv'.claims[k]} | 0 <= k < |sv'.claims|
      ensures sv'.claims[k].count >= 1 && 0 <= sv'.claims[k].session < |sv'.ledger.sessions|
    {
      RemainingClaims(sv.claims, i, k);
      var j :| 0 <= j < |sv.claims| && sv.claims[j] == sv'.claims[k];
    }
  }

  predicate ReasonableSteps(steps: seq<Step>) {
    forall k :: 0 <= k < |steps| && steps[k].Transact? && steps[k].action.DoCreate? ==> steps[k].action.quota >= 0
  }

  /** Under any interleaving of claims, mints, failures, releases and ledger
      transactions, a session has exactly as many key rows as claimed minus
      released, and never more than its budget, although a release deletes
      whichever rows are newest. */
  lemma {:induction false} KeyRowsStayAccounted(sv: Service, steps: seq<Step>)
    requires Sound(sv.ledger) && Accounted(sv) && ReasonableSteps(steps)
    ensures Sound(RunSteps(sv, steps).ledger) && Accounted(RunSteps(sv, steps))
    decreases |steps|
  {
    if steps != [] {
      StepKeepsAccount(sv, steps[0]);
      KeyRowsStayAccounted(Next(sv, steps[0]), steps[1..]);
    }
  }

  // ------------------------------------------------ stamps, when undisturbed

  /** The rows of every session carry the stamps of its own claims, in order. */
  ghost predicate Faithful(sv: Service) {
    forall s {:trigger ClaimStamps(sv.claims, s)} :: Stamps(sv.ledger.keys, s) == ClaimStamps(sv.claims, s)
  }

  /** No claim granted later on the same session and still held carries another stamp. */
  predicate Undisturbed(claims: seq<Claim>, i: nat)
    requires i < |claims|
  {
    forall k :: i < k < |claims| && claims[k].session == claims[i].session ==> claims[k].stamp == claims[i].stamp
  }

  /** Dropping `|r|` equal entries from the end of `r + a` leaves `a` exactly
      when `a` repeats that entry. */
  lemma {:induction false} ShiftedTailIff(x: int, n: nat, a: seq<int>)
    requires n >= 1
    ensures (Copies(x, n) + a)[..|a|] == a <==> forall k :: 0 <= k < |a| ==> a[k] == x
  {
    var shifted := (Copies(x, n) + a)[..|a|];
    if shifted == a {
      AllRepeat(x, n, a, |a|);
    }
    if forall k :: 0 <= k < |a| ==> a[k] == x {
      forall k | 0 <= k < |a| ensures shifted[k] == a[k] {
        assert k >= n ==> shifted[k] == a[k - n];
      }
    }
  }

  lemma {:induction false} AllRepeat(x: int, n: nat, a: seq<int>, upto: nat)
    requires n >= 1 && upto <= |a| && (Copies(x, n) + a)[..|a|] == a
    ensures forall k :: 0 <= k < upto ==> a[k] == x
  {
    if upto > 0 {
      AllRepeat(x, n, a, upto - 1);
      var k := upto - 1;
      assert a[k] == (Copies(x, n) + a)[..|a|][k];
      assert k >= n ==> a[k] == a[k - n];
    }
  }

  lemma {:induction false} LaterStampsIff(claims: seq<Claim>, session: int, x: int)
    requires forall i :: 0 <= i < |claims| ==> claims[i].count >= 1
    ensures (forall k :: 0 <= k < |ClaimStamps(claims, session)| ==> ClaimStamps(claims, session)[k] == x)
       <==> (forall i :: 0 <= i < |claims| && claims[i].session == session ==> claims[i].stamp == x)
  {
    if claims != [] {
      var n := |claims| - 1;
      var init, last := claims[..n], claims[n];
      var stamps := ClaimStamps(claims, session);
      var front := ClaimStamps(init, session);
      LaterStampsIff(init, session, x);
      if forall k :: 0 <= k < |stamps| ==> stamps[k] == x {
        forall k | 0 <= k < |front| ensures front[k] == x { assert stamps[k] == front[k]; }
        if last.session == session {
          assert stamps[|front|] == last.stamp;
        }
        forall i | 0 <= i < |claims| && claims[i].session == session ensures claims[i].stamp == x {
          if i < n { assert init[i] == claims[i]; }
        }
      }
      if forall i :: 0 <= i < |claims| && claims[i].session == session ==> claims[i].stamp == x {
        assert forall i :: 0 <= i < |init| ==> init[i] == claims[i];
      }
    }
  }

  /** Dropping the last `|r|` entries of `b + r + a` leaves `b + a` exactly when
      `r + a` starts with `a`. */
  lemma DropMiddleIff(b: seq<int>, r: seq<int>, a: seq<int>)
    ensures (b + r + a)[..|b| + |a|] == b + a <==> (r + a)[..|a|] == a
  {
    var left := (b + r + a)[..|b| + |a|];
    assert left == b + (r + a)[..|a|];
    assert left[|b|..] == (r + a)[..|a|];
    assert (b + a)[|b|..] == a;
  }

  lemma UndisturbedIff(claims: seq<Claim>, i: nat)
    requires i < |claims|
    ensures var later := claims[i + 1..];
            (Undisturbed(claims, i) <==>
             forall k :: 0 <= k < |later| && later[k].session == claims[i].session ==> later[k].stamp == claims[i].stamp)
  {
    var later := claims[i + 1..];
    if forall k :: 0 <= k < |later| && later[k].session == claims[i].session ==> later[k].stamp == claims[i].stamp {
      forall k | i < k < |claims| && claims[k].session == claims[i].session ensures claims[k].stamp == claims[i].stamp {
        assert later[k - i - 1] == claims[k];
      }
    }
  }

  /** A failed batch gives back its own rows, as far as stamps can tell, exactly
      when no claim of another stamp granted on that session since is still held. */
  lemma ReleaseIsFaithfulIff(sv: Service, i: nat)
    requires Faithful(sv) && Accounted(sv) && i < |sv.claims| && sv.claims[i].mint.None?
    ensures Faithful(Next(sv, MintFails(i))) <==> Undisturbed(sv.claims, i)
  {
    var sv' := Next(sv, MintFails(i));
    var c := sv.claims[i];
    assert c.count >= 1;
    forall t | t != c.session ensures Stamps(sv'.ledger.keys, t) == ClaimStamps(sv'.claims, t) {
      OtherStampsStay(sv, i, t);
    }
    assert Faithful(sv') <==> Stamps(sv'.ledger.keys, c.session) == ClaimStamps(sv'.claims, c.session);
    OwnStampsStayIff(sv, i);
  }

  lemma OtherStampsStay(sv: Service, i: nat, session: int)
    requires Faithful(sv) && i < |sv.claims| && session != sv.claims[i].session
    ensures Stamps(DropNewest(sv.ledger.keys, sv.claims[i].session, sv.claims[i].count), session)
         == ClaimStamps(Without(sv.claims, i), session)
  {
    var front, back := ClaimStamps(sv.claims[..i], session), ClaimStamps(sv.claims[i + 1..], session);
    StampsAround(sv.claims, i, session);
    assert front + [] + back == front + back;
    StampsAfterDrop(sv.ledger.keys, sv.claims[i].session, sv.claims[i].count, session);
    assert ClaimStamps(sv.claims, session) == Stamps(sv.ledger.keys, session);
  }

  /** A session's stamps after a release: all but as many of the newest. */
  lemma StampsLeft(sv: Service, i: nat, b: seq<int>, r: seq<int>, a: seq<int>)
    requires Faithful(sv) && i < |sv.claims|
    requires b == ClaimStamps(sv.claims[..i], sv.claims[i].session)
    requires r == Copies(sv.claims[i].stamp, sv.claims[i].count)
    requires a == ClaimStamps(sv.claims[i + 1..], sv.claims[i].session)
    ensures var c := sv.claims[i];
            && Stamps(DropNewest(sv.ledger.keys, c.session, c.count), c.session) == (b + r + a)[..|b| + |a|]
            && ClaimStamps(Without(sv.claims, i), c.session) == b + a
  {
    var c := sv.claims[i];
    StampsAround(sv.claims, i, c.session);
    StampsAfterDrop(sv.ledger.keys, c.session, c.count, c.session);
    var stamps := Stamps(sv.ledger.keys, c.session);
    assert ClaimStamps(sv.claims, c.session) == stamps;
    assert stamps == b + r + a;
    assert |stamps| - c.count == |b| + |a|;
  }

  lemma OwnStampsStayIff(sv: Service, i: nat)
    requires Faithful(sv) && i < |sv.claims| && ClaimsNamed(sv.claims, |sv.ledger.sessions|)
    ensures var c := sv.claims[i];
            (Stamps(DropNewest(sv.ledger.keys, c.session, c.count), c.session) == ClaimStamps(Without(sv.claims, i), c.session)
             <==> Undisturbed(sv.claims, i))
  {
    var c := sv.claims[i];
    var later := sv.claims[i + 1..];
    var b, r, a := ClaimStamps(sv.claims[..i], c.session), Copies(c.stamp, c.count), ClaimStamps(later, c.session);
    StampsLeft(sv, i, b, r, a);
    DropMiddleIff(b, r, a);
    ShiftedTailIff(c.stamp, c.count, a);
    LaterUndisturbedIff(sv.claims, i, a);
  }

  lemma LaterUndisturbedIff(claims: seq<Claim>, i: nat, a: seq<int>)
    requires i < |claims| && a == ClaimStamps(claims[i + 1..], claims[i].session)
    requires forall k :: 0 <= k < |claims| ==> claims[k].count >= 1
    ensures (forall k :: 0 <= k < |a| ==> a[k] == claims[i].stamp) <==> Undisturbed(claims, i)
  {
    var later := claims[i + 1..];
    forall k | 0 <= k < |later| ensures later[k].count >= 1 { assert later[k] == claims[i + 1 + k]; }
    LaterStampsIff(later, claims[i].session, claims[i].stamp);
    UndisturbedIff(claims, i);
  }

  /** Every failure in the run is undisturbed. */
  ghost predicate UndisturbedRun(sv: Service, steps: seq<Step>)
    decreases |steps|
  {
    steps == [] ||
    (&& (steps[0].MintFails? && steps[0].claim < |sv.claims| ==> Undisturbed(sv.claims, steps[0].claim))
     && UndisturbedRun(Next(sv, steps[0]), steps[1..]))
  }

  lemma StepStaysFaithful(sv: Service, step: Step)
    requires Faithful(sv) && Accounted(sv)
    requires step.MintFails? && step.claim < |sv.claims| ==> Undisturbed(sv.claims, step.claim)
    ensures Faithful(Next(sv, step))
  {
    var sv' := Next(sv, step);
    match step
    case Transact(action) =>
    case ClaimBatch(invite, session, count, now) =>
      if sv' != sv {
        forall s ensures Stamps(sv'.ledger.keys, s) == ClaimStamps(sv'.claims, s) {
          StampsAppend(sv.ledger.keys, count, session, now, s);
          StampsOfParts(sv.claims, [Claim(session, count, now, None)], s);
          StampsOfOne(Claim(session, count, now, None), s);
          assert ClaimStamps(sv.claims, s) == Stamps(sv.ledger.keys, s);
        }
      }
    case MintSucceeds(i, mint) =>
      if sv' != sv {
        forall s ensures Stamps(sv'.ledger.keys, s) == ClaimStamps(sv'.claims, s) {
          StampsIgnoreMint(sv.claims, i, Some(mint), s);
          assert ClaimStamps(sv.claims, s) == Stamps(sv.ledger.keys, s);
        }
      }
    case MintFails(i) =>
      if i < |sv.claims| && sv.claims[i].mint.None? {
        ReleaseIsFaithfulIff(sv, i);
      }
  }

  lemma {:induction false} RunStaysFaithful(sv: Service, steps: seq<Step>)
    requires Sound(sv.ledger) && Accounted(sv) && ReasonableSteps(steps)
    requires Faithful(sv) && UndisturbedRun(sv, steps)
    ensures Faithful(RunSteps(sv, steps))
    decreases |steps|
  {
    if steps != [] {
      StepKeepsAccount(sv, steps[0]);
      StepStaysFaithful(sv, steps[0]);
      RunStaysFaithful(Next(sv, steps[0]), steps[1..]);
    }
  }
}
