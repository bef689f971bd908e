/** The gateway's rate limiter: one bucket per key, made full on the key's first event. */
module RateLimiter {
  import opened TokenBucket

  /** One check: the key and the two clock readings it takes. */
  datatype Check = Check(key: string, created: int, now: int)

  function BucketFor(p: Limits, table: map<string, Level>, check: Check): Level {
    if check.key in table then table[check.key] else Full(p, check.created)
  }

  function Allowed(p: Limits, table: map<string, Level>, check: Check): bool {
    p.capacity <= 0.0 || Respond(p, BucketFor(p, table, check), Consume(1.0, check.now)).Granted?
  }

  function Checked(p: Limits, table: map<string, Level>, check: Check): map<string, Level> {
    if p.capacity <= 0.0 then table
    else table[check.key := Step(p, BucketFor(p, table, check), Consume(1.0, check.now))]
  }

  function CheckedAll(p: Limits, table: map<string, Level>, checks: seq<Check>): map<string, Level> {
    if checks == [] then table else
    var n := |checks| - 1;
    Checked(p, CheckedAll(p, table, checks[..n]), checks[n])
  }

  /** The checks of one key. */
  function Own(checks: seq<Check>, key: string): seq<Check> {
    if checks == [] then [] else
    var n := |checks| - 1;
    Own(checks[..n], key) + (if checks[n].key == key then [checks[n]] else [])
  }

  /** What the table says about one key. */
  function Entry(table: map<string, Level>, key: string): seq<Level> {
    if key in table then [table[key]] else []
  }

  /** A key's bucket, and so its next answer, depends on that key's own checks alone. */
  lemma {:induction false} TenantsAreIsolated(p: Limits, checks: seq<Check>, check: Check)
    ensures Entry(CheckedAll(p, map[], checks), check.key)
            == Entry(CheckedAll(p, map[], Own(checks, check.key)), check.key)
    ensures Allowed(p, CheckedAll(p, map[], checks), check)
            == Allowed(p, CheckedAll(p, map[], Own(checks, check.key)), check)
  {
    hide Step, Respond;
    if checks != [] {
      var n := |checks| - 1;
      TenantsAreIsolated(p, checks[..n], check);
      var own := Own(checks[..n], check.key);
      if checks[n].key == check.key {
        assert (own + [checks[n]])[..|own|] == own;
      } else {
        assert own + [] == own;
      }
    }
  }

  /** How many of the checks were allowed, from an empty table. */
  function AllowedCount(p: Limits, checks: seq<Check>): nat {
    if checks == [] then 0 else
    var n := |checks| - 1;
    AllowedCount(p, checks[..n]) + (if Allowed(p, CheckedAll(p, map[], checks[..n]), checks[n]) then 1 else 0)
  }

  lemma {:induction false} OwnChecksAreBounded(p: Limits, checks: seq<Check>, key: string)
    requires 0.0 < p.capacity && 0.0 <= p.rate
    requires forall i | 0 <= i < |checks| :: checks[i].key == key
    ensures checks == [] ==> key !in CheckedAll(p, map[], checks)
    ensures checks != [] ==>
              && key in CheckedAll(p, map[], checks)
              && var b := CheckedAll(p, map[], checks)[key];
                 && checks[0].created <= b.refilledAt && InRange(p, b)
                 && AllowedCount(p, checks) as real + b.tokens
                    <= p.capacity + Earned(p, checks[0].created, b.refilledAt)
  {
    hide Earned, Refilled;
    if checks != [] {
      var n := |checks| - 1;
      OwnChecksAreBounded(p, checks[..n], key);
      var table := CheckedAll(p, map[], checks[..n]);
      var b := BucketFor(p, table, checks[n]);
      var r := Refilled(p, b, checks[n].now);
      RefillKeepsRange(p, b, checks[n].now);
      EarnedAdds(p, checks[0].created, b.refilledAt, r.refilledAt);
      EarnedIsNonnegative(p, b.refilledAt, b.refilledAt);
    }
  }

  /** How many of one key's checks were allowed, among everyone's. */
  function AllowedOf(p: Limits, checks: seq<Check>, key: string): nat {
    if checks == [] then 0 else
    var n := |checks| - 1;
    AllowedOf(p, checks[..n], key)
      + (if checks[n].key == key && Allowed(p, CheckedAll(p, map[], checks[..n]), checks[n]) then 1 else 0)
  }

  lemma {:induction false} AllowedOfOwn(p: Limits, checks: seq<Check>, key: string)
    ensures AllowedOf(p, checks, key) == AllowedCount(p, Own(checks, key))
    ensures forall i | 0 <= i < |Own(checks, key)| :: Own(checks, key)[i].key == key
  {
    hide Allowed, CheckedAll;
    if checks != [] {
      var n := |checks| - 1;
      AllowedOfOwn(p, checks[..n], key);
      if checks[n].key == key {
        TenantsAreIsolated(p, checks[..n], checks[n]);
        var own := Own(checks[..n], key);
        assert (own + [checks[n]])[..|own|] == own;
      } else {
        assert Own(checks[..n], key) + [] == Own(checks[..n], key);
      }
    }
  }

  /** Whatever other keys do in between, the events a key got through since its bucket was
      made, plus what the bucket holds, are at most the capacity plus what the bucket's refill
      clock earned, however the clock readings move. */
  lemma TenantIsBounded(p: Limits, checks: seq<Check>, key: string)
    requires 0.0 < p.capacity && 0.0 <= p.rate
    ensures var table, own := CheckedAll(p, map[], checks), Own(checks, key);
            && (key in table <==> own != [])
            && (own == [] ==> AllowedOf(p, checks, key) == 0)
            && (own != [] ==>
                  var b := table[key];
                  && own[0].created <= b.refilledAt && InRange(p, b)
                  && AllowedOf(p, checks, key) as real + b.tokens
                     <= p.capacity + Earned(p, own[0].created, b.refilledAt))
  {
    hide CheckedAll, Own, AllowedOf, Earned, InRange;
    var own := Own(checks, key);
    AllowedOfOwn(p, checks, key);
    TenantsAreIsolated(p, checks, Check(key, 0, 0));
    OwnChecksAreBounded(p, own, key);
  }

  /** The same over any later window: whatever other keys do in it, the events a key got through
      in it, plus what its bucket then holds, are at most what the bucket held plus what its
      refill clock earned. */
  lemma {:induction false} TenantWindowBound(p: Limits, before: seq<Check>, window: seq<Check>, key: string)
    requires 0.0 < p.capacity && 0.0 <= p.rate && key in CheckedAll(p, map[], before)
    ensures key in CheckedAll(p, map[], before + window)
    ensures var (b, t) := (CheckedAll(p, map[], before)[key], CheckedAll(p, map[], before + window)[key]);
            && InRange(p, b) && InRange(p, t) && b.refilledAt <= t.refilledAt
            && (AllowedOf(p, before + window, key) - AllowedOf(p, before, key)) as real + t.tokens
               <= b.tokens + Earned(p, b.refilledAt, t.refilledAt)
    decreases |window|
  {
    hide Earned, Refilled;
    var b := CheckedAll(p, map[], before)[key];
    EarnedIsNonnegative(p, b.refilledAt, b.refilledAt);
    if window == [] {
      assert before + window == before;
      TenantIsBounded(p, before, key);
    } else {
      var n := |window| - 1;
      var all := before + window;
      assert all[..|all| - 1] == before + window[..n] && all[|all| - 1] == window[n];
      TenantWindowBound(p, before, window[..n], key);
      var last := CheckedAll(p, map[], before + window[..n])[key];
      if window[n].key == key {
        RefillKeepsRange(p, last, window[n].now);
        EarnedAdds(p, b.refilledAt, last.refilledAt, Refilled(p, last, window[n].now).refilledAt);
      }
    }
  }

  // ----- What a tenant is owed -----

  function Charges(checks: seq<Check>): (cs: seq<Charge>)
    ensures |cs| == |checks|
    ensures forall i | 0 <= i < |cs| :: cs[i] == Charge(1.0, checks[i].now)
  {
    if checks == [] then [] else
    var n := |checks| - 1;
    Charges(checks[..n]) + [Charge(1.0, checks[n].now)]
  }

  /** The clock does not run backwards over a key's checks. */
  predicate ClockIsMonotone(own: seq<Check>) {
    && (forall i | 0 <= i < |own| :: own[0].created <= own[i].now)
    && forall i, j | 0 <= i < j < |own| :: own[i].now <= own[j].now
  }

  /** Checks of one key alone are charges of one token against its bucket. */
  lemma {:induction false} OwnChecksAreCharges(p: Limits, own: seq<Check>, key: string)
    requires 0.0 < p.capacity && own != []
    requires forall i | 0 <= i < |own| :: own[i].key == key
    ensures key in CheckedAll(p, map[], own)
    ensures CheckedAll(p, map[], own)[key] == After(p, Full(p, own[0].created), Calls(Charges(own)))
    ensures AllowedCount(p, own) == |own| <==> AllGranted(p, own[0].created, Charges(own))
    ensures AllowedCount(p, own) <= |own|
  {
    hide Step, Respond;
    var n := |own| - 1;
    var cs := Charges(own);
    assert cs[..n] == Charges(own[..n]);
    assert Calls(cs)[..|Calls(cs)| - 1] == Calls(cs[..n]);
    if n == 0 {
      assert own[..0] == [] && cs[..0] == [];
    } else {
      OwnChecksAreCharges(p, own[..n], key);
    }
  }

  lemma {:induction false} TotalOfOnes(cs: seq<Charge>)
    requires forall i | 0 <= i < |cs| :: cs[i].cost == 1.0
    ensures Total(cs) == |cs| as real
  {
    if cs != [] {
      TotalOfOnes(cs[..|cs| - 1]);
    }
  }

  /** The events from i to j are within one capacity plus what the rate earned over them. */
  predicate WindowFits(p: Limits, own: seq<Check>, i: nat, j: nat)
    requires i <= j < |own|
  {
    (j - i + 1) as real <= p.capacity + Earned(p, own[i].now, own[j].now)
  }

  lemma WindowOfOnes(p: Limits, own: seq<Check>, i: nat, j: nat)
    requires i <= j < |own|
    ensures 0.0 <= Slack(p, Charges(own)[..j + 1], i) <==> WindowFits(p, own, i, j)
  {
    hide Earned, Charges;
    TotalOfOnes(Charges(own)[..j + 1][i..]);
  }

  lemma ConformsIff(p: Limits, own: seq<Check>)
    ensures Conforms(p, Charges(own)) <==> forall i, j | 0 <= i <= j < |own| :: WindowFits(p, own, i, j)
  {
    hide Slack, WindowFits, Charges;
    var cs := Charges(own);
    if Conforms(p, cs) {
      forall i, j | 0 <= i <= j < |own|
        ensures WindowFits(p, own, i, j)
      {
        WindowOfOnes(p, own, i, j);
        var k := j + 1;
        assert 0.0 <= Slack(p, cs[..k], i);
      }
    }
    if forall i, j | 0 <= i <= j < |own| :: WindowFits(p, own, i, j) {
      forall i, j | 0 <= i < j <= |cs|
        ensures 0.0 <= Slack(p, cs[..j], i)
      {
        WindowOfOnes(p, own, i, j - 1);
      }
    }
  }

  lemma NoneAllowed(p: Limits)
    ensures AllowedCount(p, []) == 0
  {
  }

  /** With a monotone clock, every event of a key gets through, whatever other keys do,
      exactly when no window of its events holds more than one capacity plus what the
      rate earns over the window: one token an event. */
  lemma TenantNeverRefusedIff(p: Limits, checks: seq<Check>, key: string)
    requires 0.0 < p.capacity && 0.0 <= p.rate && ClockIsMonotone(Own(checks, key))
    ensures var own := Own(checks, key);
            AllowedOf(p, checks, key) == |own| <==> forall i, j | 0 <= i <= j < |own| :: WindowFits(p, own, i, j)
  {
    hide Conforms, AllGranted, AllowedOf, Own, CheckedAll, AllowedCount, WindowFits, Charges;
    var own := Own(checks, key);
    AllowedOfOwn(p, checks, key);
    ConformsIff(p, own);
    if own == [] {
      NoneAllowed(p);
    } else {
      OwnChecksAreCharges(p, own, key);
      NeverRefusedIff(p, own[0].created, Charges(own));
    }
  }

  lemma {:induction false} BurstLevel(p: Limits, own: seq<Check>, key: string, now: int)
    requires 0.0 < p.capacity && 0.0 <= p.rate && own != []
    requires forall i | 0 <= i < |own| :: own[i].key == key && own[i].now == now
    ensures key in CheckedAll(p, map[], own)
    ensures now <= CheckedAll(p, map[], own)[key].refilledAt
    ensures CheckedAll(p, map[], own)[key].tokens == p.capacity - AllowedCount(p, own) as real
    ensures AllowedCount(p, own) == if |own| <= p.capacity.Floor then |own| else p.capacity.Floor
  {
    hide Earned;
    var n := |own| - 1;
    EarnedIsNonnegative(p, now, now);
    if own[0].created <= now {
      EarnedIsNonnegative(p, own[0].created, now);
    }
    if n == 0 {
      assert own[..0] == [];
    } else {
      BurstLevel(p, own[..n], key, now);
    }
  }

  /** A new key that asks n times at one clock reading gets through exactly as many whole
      tokens as the capacity holds, whatever other keys do in between. */
  lemma BurstAllowance(p: Limits, checks: seq<Check>, key: string, now: int)
    requires 0.0 < p.capacity && 0.0 <= p.rate
    requires forall i | 0 <= i < |checks| :: checks[i].key == key ==> checks[i].now == now
    ensures var n := |Own(checks, key)|;
            AllowedOf(p, checks, key) == if n <= p.capacity.Floor then n else p.capacity.Floor
  {
    hide CheckedAll, AllowedOf, AllowedCount;
    var own := Own(checks, key);
    AllowedOfOwn(p, checks, key);
    OwnAreChecks(checks, key);
    if own == [] {
      NoneAllowed(p);
    } else {
      BurstLevel(p, own, key, now);
    }
  }

  lemma {:induction false} OwnAreChecks(checks: seq<Check>, key: string)
    ensures forall i | 0 <= i < |Own(checks, key)| :: Own(checks, key)[i] in checks && Own(checks, key)[i].key == key
  {
    if checks != [] {
      OwnAreChecks(checks[..|checks| - 1], key);
    }
  }

  /** A capacity of zero or less turns the limiter off. */
  lemma {:induction false} DisabledAllowsAll(p: Limits, checks: seq<Check>, key: string)
    requires p.capacity <= 0.0
    ensures AllowedOf(p, checks, key) == |Own(checks, key)|
    ensures CheckedAll(p, map[], checks) == map[]
  {
    if checks != [] {
      DisabledAllowsAll(p, checks[..|checks| - 1], key);
    }
  }

  /** The key an event is charged to: its tenant, or its device if it has none. */
  function RateKey(tenant: string, device: string): string {
    if tenant == "" then "device:" + device else "tenant:" + tenant
  }

  /** Two devices share a bucket exactly when they share a tenant, or are the same device
      without one; no tenant's name can claim a device's bucket. */
  lemma SharedBucketIff(tenant: string, device: string, tenant': string, device': string)
    ensures RateKey(tenant, device) == RateKey(tenant', device') <==>
            tenant == tenant' && (tenant == "" ==> device == device')
  {
    var a, b := RateKey(tenant, device), RateKey(tenant', device');
    assert a[0] == (if tenant == "" then 'd' else 't');
    assert b[0] == (if tenant' == "" then 'd' else 't');
    assert a[7..] == (if tenant == "" then device else tenant);
    assert b[7..] == (if tenant' == "" then device' else tenant');
  }

  class RateLimiter {
    const limits: Limits
    var buckets: map<string, TokenBucket>

    /** Each key owns its bucket. */
    ghost predicate Valid()
      reads this, buckets.Values
    {
      && (forall k | k in buckets :: buckets[k].limits == limits)
      && forall j, k | j in buckets && k in buckets && j != k :: buckets[j] != buckets[k]
    }

    ghost function Table(): map<string, Level>
      reads this, buckets.Values
    {
      map k | k in buckets :: buckets[k].State()
    }

    constructor (limits: Limits)
      ensures this.limits == limits && Valid() && Table() == map[]
    {
      this.limits := limits;
      buckets := map[];
    }

    method CheckRateLimit(key: string, created: int, now: int) returns (allowed: bool)
      requires Valid()
      modifies this, buckets.Values
      ensures Valid() && fresh(buckets.Values - old(buckets.Values))
      ensures Table() == Checked(limits, old(Table()), Check(key, created, now))
      ensures allowed == Allowed(limits, old(Table()), Check(key, created, now))
    {
      if limits.capacity <= 0.0 {
        return true;
      }
      if key !in buckets {
        var bucket := new TokenBucket(limits, created);
        buckets := buckets[key := bucket];
      }
      assert buckets[key].State() == BucketFor(limits, old(Table()), Check(key, created, now));
      allowed := buckets[key].TryConsume(1.0, now);
    }
  }
}
