/**
 The token bucket rate limiter (p2p/token_bucket.py), over exact real numbers.

 The source takes tokens first and lets the caller sleep off a negative balance. Time is passed in;
 it never runs backwards.
 */
module TokenBuckets {

  /** A call that took tokens, and when its caller may go on. */
  datatype Grant = Grant(amount: real, at: real)

  function Min(a: real, b: real): real
  {
    if a <= b then a else b
  }

  function Total(gs: seq<Grant>): real
  {
    if gs == [] then 0.0 else Total(gs[..|gs| - 1]) + gs[|gs| - 1].amount
  }

  /** The tokens of all callers that were free to go on at time t. */
  function ReleasedBy(gs: seq<Grant>, t: real): real
  {
    if gs == [] then 0.0
    else ReleasedBy(gs[..|gs| - 1], t) + (if gs[|gs| - 1].at <= t then gs[|gs| - 1].amount else 0.0)
  }

  /** What may have got through by time t: the initial fill and what the rate has added since. */
  function Allowance(rate: real, capacity: real, start: real, t: real): real
  {
    capacity + rate * (t - start)
  }

  lemma AllowanceGrows(rate: real, capacity: real, start: real, t: real, u: real)
    requires rate > 0.0 && t <= u
    ensures Allowance(rate, capacity, start, t) <= Allowance(rate, capacity, start, u)
    ensures Allowance(rate, capacity, start, start) == capacity
  {
    RateGrows(rate, t - start, u - start);
  }

  /** Whoever goes on with tokens does so no earlier than the rate allows for everything taken so far. */
  ghost predicate Paced(gs: seq<Grant>, rate: real, capacity: real, start: real)
  {
    forall k :: 0 <= k < |gs| ==>
      0.0 <= gs[k].amount && (gs[k].amount > 0.0 ==> Total(gs[..k + 1]) <= Allowance(rate, capacity, start, gs[k].at))
  }

  lemma {:induction false} ReleasedAtMostTotal(gs: seq<Grant>, t: real)
    requires forall k :: 0 <= k < |gs| ==> 0.0 <= gs[k].amount
    ensures 0.0 <= ReleasedBy(gs, t) <= Total(gs)
  {
    if gs != [] {
      ReleasedAtMostTotal(gs[..|gs| - 1], t);
    }
  }

  lemma RateGrows(rate: real, a: real, b: real)
    requires rate > 0.0 && a <= b
    ensures rate * a <= rate * b
  {
  }

  /** The bound at every moment: capacity plus what the rate has added since the start. */
  lemma {:induction false} ReleaseBound(gs: seq<Grant>, rate: real, capacity: real, start: real, t: real)
    requires Paced(gs, rate, capacity, start) && rate > 0.0 && capacity >= 0.0 && start <= t
    ensures ReleasedBy(gs, t) <= Allowance(rate, capacity, start, t)
  {
    hide Allowance;
    AllowanceGrows(rate, capacity, start, start, t);
    if gs != [] {
      var init, last := gs[..|gs| - 1], gs[|gs| - 1];
      if last.at <= t && last.amount > 0.0 {
        ReleasedAtMostTotal(gs, t);
        assert gs[..|gs| - 1 + 1] == gs;
        AllowanceGrows(rate, capacity, start, last.at, t);
      } else {
        forall k | 0 <= k < |init|
          ensures Total(init[..k + 1]) == Total(gs[..k + 1]) && init[k] == gs[k]
        {
          assert init[..k + 1] == gs[..k + 1];
        }
        ReleaseBound(init, rate, capacity, start, t);
      }
    }
  }

  lemma PacedAppend(gs: seq<Grant>, g: Grant, rate: real, capacity: real, start: real)
    requires Paced(gs, rate, capacity, start) && 0.0 <= g.amount
    requires g.amount > 0.0 ==> Total(gs) + g.amount <= Allowance(rate, capacity, start, g.at)
    ensures Paced(gs + [g], rate, capacity, start) && Total(gs + [g]) == Total(gs) + g.amount
  {
    hide Allowance;
    var gs' := gs + [g];
    assert gs'[..|gs|] == gs;
    forall k | 0 <= k < |gs'|
      ensures 0.0 <= gs'[k].amount
      ensures gs'[k].amount > 0.0 ==> Total(gs'[..k + 1]) <= Allowance(rate, capacity, start, gs'[k].at)
    {
      if k < |gs| {
        assert gs'[..k + 1] == gs[..k + 1];
      } else {
        assert gs'[..k + 1] == gs';
      }
    }
  }

  /** The balance at a moment, from the balance at the last refill; it may be negative. */
  function Balance(rate: real, capacity: real, tokens: real, last: real, when: real): real
  {
    Min(capacity, tokens + rate * (when - last))
  }

  /** An idle bucket fills at its rate until it is full. */
  lemma BalanceIs(rate: real, capacity: real, tokens: real, last: real, when: real)
    ensures var filled := tokens + rate * (when - last);
            Balance(rate, capacity, tokens, last, when) == if filled <= capacity then filled else capacity
  {
  }

  lemma BalanceGrows(rate: real, capacity: real, tokens: real, last: real, t: real, u: real)
    requires rate > 0.0 && t <= u
    ensures Balance(rate, capacity, tokens, last, t) <= Balance(rate, capacity, tokens, last, u) <= capacity
  {
    RateGrows(rate, t - last, u - last);
  }

  lemma BalanceNow(rate: real, capacity: real, tokens: real, last: real)
    requires tokens <= capacity
    ensures Balance(rate, capacity, tokens, last, last) == tokens
  {
  }

  /** Refilling adds no more than the allowance grows by. */
  lemma RefillWithin(rate: real, capacity: real, start: real, tokens: real, last: real, now: real, taken: real)
    requires taken + tokens <= Allowance(rate, capacity, start, last)
    ensures taken + Balance(rate, capacity, tokens, last, now) <= Allowance(rate, capacity, start, now)
  {
    assert rate * (last - start) + rate * (now - last) == rate * (now - start);
  }

  /** When a caller in debt wakes up. */
  function WakeAt(rate: real, debt: real, now: real): real
    requires rate > 0.0
  {
    now + debt * (1.0 / rate)
  }

  /** The sleep pays the debt exactly. */
  lemma SleepPays(rate: real, capacity: real, start: real, debt: real, now: real)
    requires rate > 0.0 && debt >= 0.0 && capacity >= 0.0
    ensures var until := WakeAt(rate, debt, now);
            && until >= now && rate * (until - now) == debt
            && Allowance(rate, capacity, start, until) == Allowance(rate, capacity, start, now) + debt
            && Balance(rate, capacity, -debt, now, until) >= 0.0
  {
    var s := 1.0 / rate;
    assert rate * s == 1.0 && s > 0.0;
    assert rate * (now + debt * s - start) == rate * (now - start) + debt * (rate * s);
    assert rate * (debt * s) == debt * (rate * s);
  }

  class TokenBucket {
    const rate: real
    const capacity: real
    var numTokens: real
    var lastRefill: real
    ghost const start: real
    ghost var grants: seq<Grant>

    ghost predicate Valid()
      reads this
    {
      && rate > 0.0 && capacity >= 0.0 && start <= lastRefill && numTokens <= capacity
      && Total(grants) + numTokens <= Allowance(rate, capacity, start, lastRefill)
      && Paced(grants, rate, capacity, start)
    }

    constructor (rate: real, capacity: real, now: real)
      requires rate > 0.0 && capacity >= 0.0
      ensures Valid() && grants == [] && start == now && numTokens == capacity
    {
      this.rate, this.capacity, numTokens, lastRefill, start, grants := rate, capacity, capacity, now, now, [];
    }

    /** The balance at a moment; it may be negative. */
    function TokensAt(when: real): real
      reads this
    {
      Balance(rate, capacity, numTokens, lastRefill, when)
    }

    /** Refills, then deducts; asking for a negative amount is an error. */
    method Deduct(num: real, now: real) returns (ok: bool)
      requires Valid() && lastRefill <= now
      modifies this`numTokens, this`lastRefill
      ensures ok <==> num >= 0.0
      ensures ok ==> numTokens == old(TokensAt(now)) - num && lastRefill == now
      ensures ok ==> numTokens <= capacity && Total(grants) + num + numTokens <= Allowance(rate, capacity, start, now)
      ensures !ok ==> numTokens == old(numTokens) && lastRefill == old(lastRefill)
    {
      hide Allowance, Balance, Paced, Total;
      if num < 0.0 {
        return false;
      }
      RefillWithin(rate, capacity, start, numTokens, lastRefill, now, Total(grants));
      BalanceGrows(rate, capacity, numTokens, lastRefill, now, now);
      numTokens := TokensAt(now);
      lastRefill := now;
      numTokens := numTokens - num;
      return true;
    }

    /** Takes tokens, going into debt if need be; the caller sleeps until the debt is paid. */
    method Take(num: real, now: real) returns (ok: bool, releaseAt: real)
      requires Valid() && lastRefill <= now
      modifies this
      ensures Valid() && (ok <==> num >= 0.0)
      ensures ok ==> grants == old(grants) + [Grant(num, releaseAt)] && releaseAt >= now && lastRefill == now
      ensures ok ==> numTokens == old(TokensAt(now)) - num
      ensures ok ==> TokensAt(releaseAt) >= 0.0 && (numTokens >= 0.0 ==> releaseAt == now)
      ensures var filled := old(numTokens) + rate * (now - old(lastRefill));
              && (ok && num <= capacity && num <= filled ==> releaseAt == now)
              && (ok && capacity < num && capacity <= filled ==> rate * (releaseAt - now) == num - capacity)
              && (ok && filled < num && filled <= capacity ==> rate * (releaseAt - now) == num - filled)
      ensures !ok ==> unchanged(this)
    {
      hide Allowance, Balance, Paced, Total, WakeAt;
      BalanceIs(rate, capacity, numTokens, lastRefill, now);
      ok := Deduct(num, now);
      releaseAt := now;
      if !ok {
        return;
      }
      BalanceNow(rate, capacity, numTokens, now);
      if numTokens < 0.0 {
        var debt := -numTokens;
        SleepPays(rate, capacity, start, debt, now);
        releaseAt := WakeAt(rate, debt, now);
      }
      PacedAppend(grants, Grant(num, releaseAt), rate, capacity, start);
      grants := grants + [Grant(num, releaseAt)];
    }

    /** Takes tokens only if there are enough right now. */
    method TakeNowait(num: real, seen: real, now: real) returns (res: NowaitResult)
      requires Valid() && lastRefill <= seen <= now
      modifies this
      ensures Valid()
      ensures var balance := old(TokensAt(seen));
              res == if (if balance > 0.0 then balance else 0.0) < num then NotEnough
                     else if num < 0.0 then Negative else Taken
      ensures res == Taken ==> grants == old(grants) + [Grant(num, now)] && lastRefill == now
      ensures res == Taken ==> numTokens == old(TokensAt(now)) - num
      ensures res == Taken && num > 0.0 ==> numTokens >= 0.0
      ensures 0.0 <= num <= capacity && num <= old(numTokens) + rate * (seen - old(lastRefill)) ==> res == Taken
      ensures num > 0.0 && (num > capacity || num > old(numTokens) + rate * (seen - old(lastRefill))) ==>
                res == NotEnough
      ensures res != Taken ==> unchanged(this)
    {
      hide Allowance, Balance, Paced, Total;
      BalanceIs(rate, capacity, numTokens, lastRefill, seen);
      var balance := TokensAt(seen);
      var available := if balance > 0.0 then balance else 0.0;
      if available < num {
        return NotEnough;
      }
      BalanceGrows(rate, capacity, numTokens, lastRefill, seen, now);
      var ok := Deduct(num, now);
      if !ok {
        return Negative;
      }
      PacedAppend(grants, Grant(num, now), rate, capacity, start);
      grants := grants + [Grant(num, now)];
      return Taken;
    }

    /** However takes of both kinds were mixed, nobody got through faster than the rate. */
    lemma NeverTooFast(t: real)
      requires Valid() && start <= t
      ensures ReleasedBy(grants, t) <= capacity + rate * (t - start)
    {
      hide Paced, Total, ReleasedBy;
      ReleaseBound(grants, rate, capacity, start, t);
    }
  }

  datatype NowaitResult = Taken | NotEnough | Negative
}
