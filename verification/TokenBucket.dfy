/**
  Rate limiting with a token bucket. Times are nanoseconds; the number of tokens earned in a stretch
  of time is the exact product with the rate, rounded down.
 */
module TokenBuckets {

  const UNLIMITED: nat := 1_000_000_000
  const SECOND: nat := 1_000_000_000

  datatype Bucket = Bucket(lastRefill: nat, size: nat, maxTokens: nat, smallest: nat, rate: nat) {

    ghost predicate Valid(now: nat) {
      smallest <= size <= maxTokens && lastRefill <= now
    }

    /** The time since the last refill, zero if the clock went back. */
    function Elapsed(now: nat): nat {
      if lastRefill <= now then now - lastRefill else 0
    }

    function Earned(now: nat): nat {
      Elapsed(now) * rate / SECOND
    }

    /** Nothing happens, not even to the refill time, until a whole token has been earned. */
    function Refilled(now: nat): Bucket
    {
      if Earned(now) > 0
      then this.(size := if size + Earned(now) < maxTokens then size + Earned(now) else maxTokens, lastRefill := now)
      else this
    }

    function Consumed(now: nat, tokens: nat): Bucket
    {
      var b := Refilled(now);
      var size' := if tokens <= b.size then b.size - tokens else if tokens == UNLIMITED then 0 else b.size;
      b.(size := size', smallest := if smallest < size' then smallest else size')
    }

    predicate Grants(now: nat, tokens: nat)
    {
      tokens <= Refilled(now).size || rate == UNLIMITED
    }

    /** Tokens in the bucket and the fraction being earned, in billionths of a token. */
    ghost function Potential(now: nat): nat
    {
      size * SECOND + Elapsed(now) * rate
    }
  }

  function MakeBucket(maxTokens: nat, rate: nat, now: nat): Bucket {
    if maxTokens == 0 || rate == 0
    then Bucket(now, UNLIMITED, UNLIMITED, UNLIMITED, UNLIMITED)
    else Bucket(now, maxTokens, maxTokens, maxTokens, rate)
  }

  class TokenBucket {
    var lastRefill: nat
    var currentSize: nat
    var maxTokenCount: nat
    var smallestSize: nat
    var refillRate: nat

    ghost function State(): Bucket
      reads this
    {
      Bucket(lastRefill, currentSize, maxTokenCount, smallestSize, refillRate)
    }

    constructor (maxTokens: nat, rate: nat, now: nat)
      ensures State() == MakeBucket(maxTokens, rate, now) && State().Valid(now)
    {
      new;
      Reset(maxTokens, rate, now);
    }

    method Reset(maxTokens: nat, rate: nat, now: nat)
      modifies this
      ensures State() == MakeBucket(maxTokens, rate, now) && State().Valid(now)
    {
      var maxTokens', rate' := maxTokens, rate;
      if maxTokens' == 0 || rate' == 0 {
        rate', maxTokens' := UNLIMITED, UNLIMITED;
      }
      smallestSize, maxTokenCount, currentSize := maxTokens', maxTokens', maxTokens';
      refillRate, lastRefill := rate', now;
    }

    method Refill(now: nat)
      modifies this
      ensures State() == old(State()).Refilled(now)
      ensures old(State()).Valid(now) ==> State().Valid(now)
    {
      var elapsed := if lastRefill <= now then now - lastRefill else 0;
      var tokensToAdd := elapsed * refillRate / SECOND;
      if tokensToAdd > 0 {
        currentSize := if currentSize + tokensToAdd < maxTokenCount then currentSize + tokensToAdd else maxTokenCount;
        lastRefill := now;
      }
    }

    /** The largest burst since the last reset: how far below its capacity the bucket has been. */
    method LargestBurst() returns (burst: nat)
      requires exists now: nat :: State().Valid(now)
      ensures burst == State().maxTokens - State().smallest
    {
      burst := maxTokenCount - smallestSize;
    }

    method TryConsume(tokens: nat, now: nat) returns (ok: bool)
      modifies this
      ensures State() == old(State()).Consumed(now, tokens)
      ensures ok == old(State()).Grants(now, tokens)
      ensures old(State()).Valid(now) ==> State().Valid(now)
    {
      Refill(now);
      var possible := currentSize >= tokens;
      if possible {
        currentSize := currentSize - tokens;
      } else if tokens == UNLIMITED {
        currentSize := 0;
      }
      smallestSize := if smallestSize < currentSize then smallestSize else currentSize;
      ok := possible || refillRate == UNLIMITED;
    }
  }

  // ---------------------------------------------------------------------------------------------
  // Whole runs

  datatype Call = Call(time: nat, tokens: nat)

  ghost predicate Ordered(from: nat, calls: seq<Call>)
    decreases |calls|
  {
    calls != [] ==> from <= calls[0].time && Ordered(calls[0].time, calls[1..])
  }

  ghost function EndTime(from: nat, calls: seq<Call>): nat
    decreases |calls|
  {
    if calls == [] then from else EndTime(calls[0].time, calls[1..])
  }

  ghost function After(b: Bucket, calls: seq<Call>): Bucket
    decreases |calls|
  {
    if calls == [] then b else After(b.Consumed(calls[0].time, calls[0].tokens), calls[1..])
  }

  /** The tokens of the calls that were granted. */
  ghost function Granted(b: Bucket, calls: seq<Call>): nat
    decreases |calls|
  {
    if calls == [] then 0
    else
      (if b.Grants(calls[0].time, calls[0].tokens) then calls[0].tokens else 0) +
      Granted(b.Consumed(calls[0].time, calls[0].tokens), calls[1..])
  }

  /** The tokens earned at the refills, before capping. */
  ghost function Credited(b: Bucket, calls: seq<Call>): nat
    decreases |calls|
  {
    if calls == [] then 0
    else b.Earned(calls[0].time) + Credited(b.Consumed(calls[0].time, calls[0].tokens), calls[1..])
  }

  lemma EarnedBounds(b: Bucket, now: nat)
    ensures b.Earned(now) * SECOND <= b.Elapsed(now) * b.rate < (b.Earned(now) + 1) * SECOND
  {
  }

  /** One call: what is granted is taken from the potential, and less than one token is left unaccounted. */
  lemma CallPays(b: Bucket, call: Call)
    requires b.Valid(call.time) && b.rate != UNLIMITED
    ensures var b' := b.Consumed(call.time, call.tokens);
            && b'.Valid(call.time) && b'.rate == b.rate && b'.maxTokens == b.maxTokens
            && b'.Potential(call.time) + (if b.Grants(call.time, call.tokens) then call.tokens else 0) * SECOND
               <= b.Potential(call.time)
            && b'.Potential(call.time) < (b.maxTokens + 1) * SECOND
  {
  }

  /** A run keeps a bucket valid and its limits as they are, whatever these are. */
  lemma {:induction false} RunKeeps(b: Bucket, from: nat, calls: seq<Call>)
    requires b.Valid(from) && Ordered(from, calls)
    ensures var b' := After(b, calls);
            b'.Valid(EndTime(from, calls)) && b'.rate == b.rate && b'.maxTokens == b.maxTokens
    decreases |calls|
  {
    if calls != [] { RunKeeps(b.Consumed(calls[0].time, calls[0].tokens), calls[0].time, calls[1..]); }
  }

  lemma {:induction false} OrderedSplit(from: nat, calls: seq<Call>, i: nat)
    requires Ordered(from, calls) && i < |calls|
    ensures Ordered(from, calls[..i]) && Ordered(calls[i].time, calls[i + 1..])
    ensures EndTime(from, calls[..i]) <= calls[i].time
    decreases i
  {
    if i > 0 {
      OrderedSplit(calls[0].time, calls[1..], i - 1);
      assert calls[..i][1..] == calls[1..][..i - 1];
      assert calls[1..][i..] == calls[i + 1..];
    }
  }

  lemma PotentialGrows(b: Bucket, s: nat, t: nat)
    requires b.lastRefill <= s <= t
    ensures b.Potential(t) == b.Potential(s) + (t - s) * b.rate
  {
  }

  lemma {:induction false} RunPays(b: Bucket, from: nat, calls: seq<Call>)
    requires b.Valid(from) && b.rate != UNLIMITED && Ordered(from, calls)
    ensures EndTime(from, calls) >= from
    ensures After(b, calls).Valid(EndTime(from, calls))
    ensures After(b, calls).Potential(EndTime(from, calls)) + Granted(b, calls) * SECOND
            <= b.Potential(from) + (EndTime(from, calls) - from) * b.rate
    decreases |calls|
  {
    if calls != [] {
      var call := calls[0];
      PotentialGrows(b, from, call.time);
      CallPays(b, call);
      RunPays(b.Consumed(call.time, call.tokens), call.time, calls[1..]);
      TimesAdd(call.time - from, EndTime(call.time, calls[1..]) - call.time, b.rate);
    }
  }

  lemma TimesAdd(x: nat, y: nat, r: nat)
    ensures (x + y) * r == x * r + y * r
  {
  }

  /**
    After a call at time `s`, however the bucket was used before, the calls up to time `t` are granted
    fewer than `maxTokens + rate * (t - s) + 1` tokens.
   */
  lemma RateLimit(b: Bucket, call: Call, calls: seq<Call>)
    requires b.Valid(call.time) && b.rate != UNLIMITED && Ordered(call.time, calls)
    ensures Granted(b.Consumed(call.time, call.tokens), calls) * SECOND
            < (b.maxTokens + 1) * SECOND + (EndTime(call.time, calls) - call.time) * b.rate
  {
    CallPays(b, call);
    RunPays(b.Consumed(call.time, call.tokens), call.time, calls);
  }

  /** The same for every bucket as it is built or reset, and for every call `i` of every run on it. */
  lemma RateLimitFromStart(maxTokens: nat, rate: nat, start: nat, calls: seq<Call>, i: nat)
    requires maxTokens != 0 && rate != 0 && rate != UNLIMITED && Ordered(start, calls) && i < |calls|
    ensures var later := Granted(After(MakeBucket(maxTokens, rate, start), calls[..i]).Consumed(calls[i].time, calls[i].tokens),
                                 calls[i + 1..]);
            later * SECOND < (maxTokens + 1) * SECOND + (EndTime(calls[i].time, calls[i + 1..]) - calls[i].time) * rate
  {
    var b := MakeBucket(maxTokens, rate, start);
    OrderedSplit(start, calls, i);
    RunKeeps(b, start, calls[..i]);
    RateLimit(After(b, calls[..i]), calls[i], calls[i + 1..]);
  }

  /** From the start on the burst is the capacity itself: the bucket starts full, with nothing earned yet. */
  lemma BurstFromStart(maxTokens: nat, rate: nat, start: nat, calls: seq<Call>)
    requires maxTokens != 0 && rate != 0 && rate != UNLIMITED && Ordered(start, calls)
    ensures Granted(MakeBucket(maxTokens, rate, start), calls) * SECOND
            <= maxTokens * SECOND + (EndTime(start, calls) - start) * rate
    ensures forall tokens: nat :: MakeBucket(maxTokens, rate, start).Grants(start, tokens) <==> tokens <= maxTokens
  {
    RunPays(MakeBucket(maxTokens, rate, start), start, calls);
  }

  /** A bucket without limit grants every call. */
  lemma {:induction false} UnlimitedGrantsAll(b: Bucket, calls: seq<Call>)
    requires b.rate == UNLIMITED
    ensures Granted(b, calls) == Requested(calls)
    decreases |calls|
  {
    if calls != [] { UnlimitedGrantsAll(b.Consumed(calls[0].time, calls[0].tokens), calls[1..]); }
  }

  /** A zero argument means no limit. */
  lemma ZeroIsUnlimited(maxTokens: nat, rate: nat, start: nat, calls: seq<Call>)
    requires maxTokens == 0 || rate == 0
    ensures Granted(MakeBucket(maxTokens, rate, start), calls) == Requested(calls)
  {
    UnlimitedGrantsAll(MakeBucket(maxTokens, rate, start), calls);
  }

  ghost function Requested(calls: seq<Call>): nat {
    if calls == [] then 0 else calls[0].tokens + Requested(calls[1..])
  }

  lemma {:induction false} CreditKept(b: Bucket, from: nat, calls: seq<Call>)
    requires b.lastRefill <= from && b.Earned(from) == 0 && Ordered(from, calls)
    ensures EndTime(from, calls) >= from
    ensures b.Elapsed(EndTime(from, calls)) * b.rate < 2 * Credited(b, calls) * SECOND + SECOND
    decreases |calls|
  {
    if calls == [] {
      EarnedBounds(b, from);
    } else {
      var call := calls[0];
      var b' := b.Consumed(call.time, call.tokens);
      EarnedBounds(b, call.time);
      CreditKept(b', call.time, calls[1..]);
      TimesAdd(b.Elapsed(call.time), b'.Elapsed(EndTime(call.time, calls[1..])), b.rate);
    }
  }

  /**
    Every refill discards the fraction of a token beyond the last whole one, so frequent calls lose
    credit. They lose less than half of it: over `elapsed`, at least `(rate * elapsed - 1) / 2` is credited.
   */
  lemma CreditFloor(b: Bucket, calls: seq<Call>)
    requires Ordered(b.lastRefill, calls)
    ensures (EndTime(b.lastRefill, calls) - b.lastRefill) * b.rate - SECOND < 2 * Credited(b, calls) * SECOND
  {
    CreditKept(b, b.lastRefill, calls);
  }

  /** No refill reaches the cap, and no call asks for everything. */
  ghost predicate Uncapped(b: Bucket, calls: seq<Call>)
    decreases |calls|
  {
    calls != [] ==>
      && b.size + b.Earned(calls[0].time) <= b.maxTokens
      && calls[0].tokens < UNLIMITED
      && Uncapped(b.Consumed(calls[0].time, calls[0].tokens), calls[1..])
  }

  /** Below the cap tokens are conserved. */
  lemma {:induction false} TokensConserved(b: Bucket, calls: seq<Call>)
    requires b.rate != UNLIMITED && Uncapped(b, calls)
    ensures After(b, calls).size + Granted(b, calls) == b.size + Credited(b, calls)
    decreases |calls|
  {
    if calls != [] { TokensConserved(b.Consumed(calls[0].time, calls[0].tokens), calls[1..]); }
  }

  // ---------------------------------------------------------------------------------------------
  // A single call in numbers

  /** In a second a bucket earns its rate, in no time nothing. */
  lemma EarnedPerSecond(b: Bucket)
    ensures b.Earned(b.lastRefill + 1_000_000_000) == b.rate && b.Earned(b.lastRefill) == 0
    ensures forall now: nat | now <= b.lastRefill :: b.Earned(now) == 0
  {
  }

  /** What is there, up to the capacity, is granted, and taken; what is not there is neither. */
  lemma CallInNumbers(b: Bucket, now: nat, tokens: nat)
    requires b.Valid(now)
    ensures var there := if b.size + b.Earned(now) < b.maxTokens then b.size + b.Earned(now) else b.maxTokens;
            var after := b.Consumed(now, tokens);
            && (b.Grants(now, tokens) <==> tokens <= there || b.rate == 1_000_000_000)
            && after.size == (if tokens <= there then there - tokens else if tokens == 1_000_000_000 then 0 else there)
            && after.lastRefill == (if b.Earned(now) > 0 then now else b.lastRefill)
            && after.rate == b.rate && after.maxTokens == b.maxTokens
  {
  }

  /** A bucket as it is built: full, or without limit for a zero argument. */
  lemma MadeBucket(maxTokens: nat, rate: nat, now: nat)
    ensures var b := MakeBucket(maxTokens, rate, now);
            && b.lastRefill == now && b.size == b.maxTokens == b.smallest
            && (maxTokens != 0 && rate != 0 ==> b.maxTokens == maxTokens && b.rate == rate)
            && (maxTokens == 0 || rate == 0 ==> b.maxTokens == 1_000_000_000 == b.rate)
  {
  }

  /** The smallest size recorded is the smallest one that the bucket had after any call of a run. */
  lemma {:induction false} SmallestSeen(b: Bucket, calls: seq<Call>) returns (i: nat)
    requires b.smallest == b.size
    ensures i <= |calls| && After(b, calls[..i]).size == After(b, calls).smallest
    ensures forall j | 0 <= j <= |calls| :: After(b, calls).smallest <= After(b, calls[..j]).size
    decreases |calls|
  {
    if calls == [] {
      i := 0;
    } else {
      var front, n := calls[..|calls| - 1], |calls| - 1;
      i := SmallestSeen(b, front);
      AfterPush(b, front, calls[n]);
      assert calls == front + [calls[n]] && calls[..|calls|] == calls;
      assert forall j | 0 <= j <= n :: calls[..j] == front[..j];
      if After(b, calls).smallest != After(b, front).smallest { i := |calls|; }
    }
  }

  lemma {:induction false} AfterPush(b: Bucket, calls: seq<Call>, call: Call)
    ensures After(b, calls + [call]) == After(b, calls).Consumed(call.time, call.tokens)
    decreases |calls|
  {
    if calls == [] {
      assert ([call])[1..] == [] && calls + [call] == [call];
    } else {
      assert (calls + [call])[1..] == calls[1..] + [call];
      AfterPush(b.Consumed(calls[0].time, calls[0].tokens), calls[1..], call);
    }
  }
}
