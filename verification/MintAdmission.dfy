/**
 Admission to the key-mint pool: a lease covers a whole batch or nothing.
 */
module MintAdmission {
  import opened Wrappers
  import opened Sums

  class SonioxKeyMintAdmission {
    const capacity: nat
    var available: int
    /** The batches that hold a lease, in the order they were admitted; each of them
        knows its own. */
    var leases: seq<int>

    ghost predicate Valid()
      reads this
    {
      Balanced(Pool(capacity, available, leases))
    }

    constructor (capacity: nat)
      ensures Valid() && this.capacity == capacity && leases == []
    {
      this.capacity := capacity;
      available := capacity;
      leases := [];
    }

    /** Waits until the whole batch fits or the deadline has passed; `turns` is what
        happens while it waits, and it may still be waiting when they are over. */
    method Acquire(count: int, turns: seq<Turn>) returns (verdict: Verdict)
      requires Valid()
      modifies this
      ensures Valid()
      ensures (verdict, Pool(capacity, available, leases)) == Await(Pool(capacity, old(available), old(leases)), count, turns)
    {
      if count < 1 || count > capacity {
        return Refused;
      }
      ghost var before := Pool(capacity, available, leases);
      var i := 0;
      assert turns[0..] == turns;
      while available < count
        invariant 0 <= i <= |turns| && Valid()
        invariant Await(before, count, turns) == Await(Pool(capacity, available, leases), count, turns[i..])
        decreases |turns| - i
      {
        if i == |turns| {
          return Waiting;
        }
        if turns[i].TimedOut? {
          return Refused;
        }
        assert turns[i..][1..] == turns[i + 1..];
        MeanwhileStaysBalanced(Pool(capacity, available, leases), turns[i]);
        Wait(turns[i]);
        i := i + 1;
      }
      SumAppend(leases, [count]);
      available := available - count;
      leases := leases + [count];
      verdict := Admitted;
    }

    /** The lock is free, and others take or give back leases. */
    method Wait(turn: Turn)
      requires Valid()
      modifies this
      ensures Pool(capacity, available, leases) == Meanwhile(Pool(capacity, old(available), old(leases)), turn)
    {
      ghost var p := Pool(capacity, available, leases);
      match turn {
        case TimedOut =>
        case Taken(count) =>
          if 1 <= count <= available {
            available := available - count;
            leases := leases + [count];
          }
        case GivenBack(k) =>
          if k < |leases| {
            available := available + leases[k];
            leases := leases[..k] + leases[k + 1..];
          }
      }
    }

    /** Returning a lease that is held never raises; returning more than is
        outstanding always does. */
    method Release(count: int) returns (ok: bool)
      requires Valid()
      modifies this
      ensures ok <==> old(available) + count <= capacity
      ensures count in old(leases) ==> ok && Valid() && multiset(leases) == multiset(old(leases)) - multiset{count}
      ensures !ok ==> available == old(available) && leases == old(leases)
      ensures ok ==> available == old(available) + count && (count !in old(leases) ==> leases == old(leases))
    {
      ghost var p := Pool(capacity, available, leases);
      if available + count > capacity {
        if count in leases { ghost var at := LeaseOf(p, count); }
        return false;
      }
      available := available + count;
      ok := true;
      if count in leases {
        var at :| 0 <= at < |leases| && leases[at] == count;
        GiveBackStaysBalanced(p, at);
        WithoutOne(leases, at);
        leases := leases[..at] + leases[at + 1..];
      }
    }
  }

  /** Where a held lease is; all held together never exceed the capacity. */
  lemma LeaseOf(p: Pool, count: int) returns (at: nat)
    requires Balanced(p) && count in p.leases
    ensures at < |p.leases| && p.leases[at] == count && p.available + count <= p.capacity
  {
    at :| 0 <= at < |p.leases| && p.leases[at] == count;
    SumBounds(p.leases, at);
  }

  lemma WithoutOne(xs: seq<int>, at: nat)
    requires at < |xs|
    ensures multiset(xs[..at] + xs[at + 1..]) == multiset(xs) - multiset{xs[at]}
  {
    assert xs == xs[..at] + [xs[at]] + xs[at + 1..];
  }

  datatype Verdict = Admitted | Waiting | Refused

  datatype Pool = Pool(capacity: nat, available: int, leases: seq<int>)

  /** Free and leased permits make up the capacity, and no lease is partial. */
  ghost predicate Balanced(p: Pool) {
    && p.available >= 0
    && p.available + Sum(p.leases) == p.capacity
    && forall k :: 0 <= k < |p.leases| ==> 1 <= p.leases[k] <= p.capacity
  }

  /** What others do while a batch waits. */
  datatype Turn = TimedOut | Taken(count: int) | GivenBack(k: nat)

  function Meanwhile(p: Pool, turn: Turn): Pool {
    match turn
    case TimedOut => p
    case Taken(count) =>
      if 1 <= count <= p.available then p.(available := p.available - count, leases := p.leases + [count]) else p
    case GivenBack(k) => if k < |p.leases| then GiveBack(p, k) else p
  }

  /** The verdict on a batch and the pool that it leaves. */
  function Await(p: Pool, count: int, turns: seq<Turn>): (Verdict, Pool)
    decreases |turns|
  {
    if count < 1 || count > p.capacity then (Refused, p)
    else if count <= p.available then (Admitted, p.(available := p.available - count, leases := p.leases + [count]))
    else if turns == [] then (Waiting, p)
    else if turns[0].TimedOut? then (Refused, p)
    else Await(Meanwhile(p, turns[0]), count, turns[1..])
  }

  function After(p: Pool, turns: seq<Turn>): Pool
    decreases |turns|
  {
    if turns == [] then p else After(Meanwhile(p, turns[0]), turns[1..])
  }

  lemma MeanwhileStaysBalanced(p: Pool, turn: Turn)
    requires Balanced(p)
    ensures Balanced(Meanwhile(p, turn))
  {
    if turn.Taken? {
      SumBounds(p.leases, 0);
      SumAppend(p.leases, [turn.count]);
    } else if turn.GivenBack? && turn.k < |p.leases| {
      GiveBackStaysBalanced(p, turn.k);
    }
  }

  /** The batch fits after the first `i` turns, none of which was the deadline. */
  ghost predicate FitsAfter(p: Pool, count: int, turns: seq<Turn>, i: nat)
    requires i <= |turns|
  {
    count <= After(p, turns[..i]).available && forall j :: 0 <= j < i ==> !turns[j].TimedOut?
  }

  lemma FitsNext(p: Pool, count: int, turns: seq<Turn>, i: nat)
    requires turns != [] && !turns[0].TimedOut? && 1 <= i <= |turns|
    ensures FitsAfter(p, count, turns, i) <==> FitsAfter(Meanwhile(p, turns[0]), count, turns[1..], i - 1)
  {
    assert turns[..i][1..] == turns[1..][..i - 1];
    assert forall j :: 1 <= j < i ==> turns[j] == turns[1..][j - 1];
    assert forall j :: 0 <= j < i - 1 ==> turns[1..][j] == turns[j + 1];
  }

  /** A batch is admitted exactly when it is one that the pool could ever hold and
      at some turn before its deadline the whole of it is free; it takes all of it
      or nothing, and free and leased permits go on making up the capacity. */
  lemma {:induction false} AdmittedIff(p: Pool, count: int, turns: seq<Turn>)
    requires Balanced(p)
    ensures Balanced(Await(p, count, turns).1) && Await(p, count, turns).1.capacity == p.capacity
    ensures Await(p, count, turns).0 == Admitted
       <==> 1 <= count <= p.capacity && exists i :: 0 <= i <= |turns| && FitsAfter(p, count, turns, i)
    ensures Await(p, count, turns).0 == Admitted ==> count in Await(p, count, turns).1.leases
    decreases |turns|
  {
    if 1 <= count <= p.capacity {
      if count <= p.available {
        SumAppend(p.leases, [count]);
        assert FitsAfter(p, count, turns, 0);
      } else {
        assert !FitsAfter(p, count, turns, 0) by { assert turns[..0] == []; }
        if turns != [] && !turns[0].TimedOut? {
          var next := Meanwhile(p, turns[0]);
          MeanwhileStaysBalanced(p, turns[0]);
          AdmittedIff(next, count, turns[1..]);
          forall i | 1 <= i <= |turns|
            ensures FitsAfter(p, count, turns, i) <==> FitsAfter(next, count, turns[1..], i - 1)
          {
            FitsNext(p, count, turns, i);
          }
          if i :| 0 <= i <= |turns[1..]| && FitsAfter(next, count, turns[1..], i) {
            assert FitsAfter(p, count, turns, i + 1);
          }
        }
      }
    }
  }

  lemma SumWithout(xs: seq<int>, at: nat)
    requires at < |xs|
    ensures Sum(xs[..at] + xs[at + 1..]) == Sum(xs) - xs[at]
  {
    var front, back := xs[..at], xs[at + 1..];
    assert xs == front + ([xs[at]] + back);
    SumAppend(front, [xs[at]] + back);
    SumAppend([xs[at]], back);
    SumAppend(front, back);
  }

  /** Gives back the lease at position `k`. */
  function GiveBack(p: Pool, k: nat): Pool
    requires k < |p.leases|
  {
    p.(available := p.available + p.leases[k], leases := p.leases[..k] + p.leases[k + 1..])
  }

  lemma GiveBackStaysBalanced(p: Pool, k: nat)
    requires Balanced(p) && k < |p.leases|
    ensures Balanced(GiveBack(p, k)) && GiveBack(p, k).available <= p.capacity
  {
    SumWithout(p.leases, k);
    var p' := GiveBack(p, k);
    forall j | 0 <= j < |p'.leases| ensures 1 <= p'.leases[j] <= p'.capacity {
      assert p'.leases[j] == p.leases[if j < k then j else j + 1];
    }
    SumBounds(p'.leases, 0);
  }

  /** Positions at which successive leases are given back. */
  ghost predicate Returns(p: Pool, order: seq<nat>)
    decreases |order|
  {
    order == [] || (order[0] < |p.leases| && Returns(GiveBack(p, order[0]), order[1..]))
  }

  function GiveBackAll(p: Pool, order: seq<nat>): Pool
    requires Returns(p, order)
    decreases |order|
  {
    if order == [] then p else GiveBackAll(GiveBack(p, order[0]), order[1..])
  }

  /** A batch waits only for leases that others hold and will give back: in
      whatever order they come back, once they have, it is admitted. */
  lemma {:induction false} WaitingEnds(p: Pool, order: seq<nat>, count: int)
    requires Balanced(p) && Returns(p, order) && |order| == |p.leases|
    requires 1 <= count <= p.capacity
    ensures Balanced(GiveBackAll(p, order))
    ensures count <= GiveBackAll(p, order).available
    decreases |order|
  {
    if order != [] {
      GiveBackStaysBalanced(p, order[0]);
      WaitingEnds(GiveBack(p, order[0]), order[1..], count);
    }
  }
}
