/** The token bucket over reals. */
module TokenBucket {
  import opened Basics

  datatype Limits = Limits(capacity: real, rate: real) {
    predicate Valid() {
      0.0 <= capacity && 0.0 <= rate
    }
  }

  datatype Level = Level(tokens: real, refilledAt: int)

  /** What the rate earns between two clock readings in nanoseconds. */
  function Earned(p: Limits, start: int, end: int): real {
    (end - start) as real / 1000000000.0 * p.rate
  }

  lemma EarnedAdds(p: Limits, a: int, b: int, c: int)
    ensures Earned(p, a, b) + Earned(p, b, c) == Earned(p, a, c)
  {
    assert (b - a) as real / 1000000000.0 + (c - b) as real / 1000000000.0 == (c - a) as real / 1000000000.0;
  }

  lemma EarnedIsNonnegative(p: Limits, a: int, b: int)
    requires 0.0 <= p.rate && a <= b
    ensures 0.0 <= Earned(p, a, b)
    ensures Earned(p, a, a) == 0.0
  {
  }

  /** The rate is tokens per second, the clock counts nanoseconds. */
  lemma OneSecondEarnsRate(p: Limits, start: int)
    ensures Earned(p, start, start + 1000000000) == p.rate
  {
    assert 1000000000 as real / 1000000000.0 == 1.0;
  }

  function Refilled(p: Limits, b: Level, now: int): Level {
    if now <= b.refilledAt then b
    else Level(Min(p.capacity, b.tokens + Earned(p, b.refilledAt, now)), now)
  }

  datatype Call = Consume(cost: real, now: int) | Available(now: int)

  datatype Answer = Granted | Refused | Tokens(amount: real)

  function Respond(p: Limits, b: Level, call: Call): Answer {
    var r := Refilled(p, b, call.now);
    match call
    case Consume(cost, _) => if r.tokens < cost then Refused else Granted
    case Available(_) => Tokens(r.tokens)
  }

  function Step(p: Limits, b: Level, call: Call): Level {
    var r := Refilled(p, b, call.now);
    if Respond(p, b, call).Granted? then r.(tokens := r.tokens - call.cost) else r
  }

  function After(p: Limits, b: Level, calls: seq<Call>): Level {
    if calls == [] then b else
    var before := After(p, b, calls[..|calls| - 1]);
    Step(p, before, calls[|calls| - 1])
  }

  function Responses(p: Limits, b: Level, calls: seq<Call>): seq<Answer>
    decreases |calls|
  {
    if calls == [] then [] else
    [Respond(p, b, calls[0])] + Responses(p, Step(p, b, calls[0]), calls[1..])
  }

  /** The total cost granted over the calls. */
  function Spent(p: Limits, b: Level, calls: seq<Call>): real {
    if calls == [] then 0.0 else
    var n := |calls| - 1;
    Spent(p, b, calls[..n])
      + (if Respond(p, After(p, b, calls[..n]), calls[n]).Granted? then calls[n].cost else 0.0)
  }

  predicate CostsAreNonnegative(calls: seq<Call>) {
    forall i | 0 <= i < |calls| :: calls[i].Consume? ==> 0.0 <= calls[i].cost
  }

  predicate InRange(p: Limits, b: Level) {
    0.0 <= b.tokens <= p.capacity
  }

  function Full(p: Limits, start: int): Level {
    Level(p.capacity, start)
  }

  // ----- Range and conservation, for any clock -----

  lemma RefillKeepsRange(p: Limits, b: Level, now: int)
    requires p.Valid() && InRange(p, b)
    ensures InRange(p, Refilled(p, b, now))
    ensures b.refilledAt <= Refilled(p, b, now).refilledAt
    ensures Refilled(p, b, now).tokens <= b.tokens + Earned(p, b.refilledAt, Refilled(p, b, now).refilledAt)
  {
    EarnedIsNonnegative(p, b.refilledAt, if now <= b.refilledAt then b.refilledAt else now);
  }

  /** However the clock moves, the level stays in [0, capacity], and what was granted plus
      what is left never exceeds what was there plus what the refill clock's advance earned. */
  lemma {:induction false} Conservation(p: Limits, b: Level, calls: seq<Call>)
    requires p.Valid() && InRange(p, b) && CostsAreNonnegative(calls)
    ensures var t := After(p, b, calls);
            && InRange(p, t)
            && b.refilledAt <= t.refilledAt
            && Spent(p, b, calls) + t.tokens <= b.tokens + Earned(p, b.refilledAt, t.refilledAt)
  {
    hide Earned, Refilled;
    EarnedIsNonnegative(p, b.refilledAt, b.refilledAt);
    if calls != [] {
      var n := |calls| - 1;
      Conservation(p, b, calls[..n]);
      var before := After(p, b, calls[..n]);
      var r := Refilled(p, before, calls[n].now);
      RefillKeepsRange(p, before, calls[n].now);
      EarnedAdds(p, b.refilledAt, before.refilledAt, r.refilledAt);
    }
  }

  lemma {:induction false} AfterAppend(p: Limits, b: Level, xs: seq<Call>, ys: seq<Call>)
    ensures After(p, b, xs + ys) == After(p, After(p, b, xs), ys)
    decreases |ys|
  {
    hide Step;
    if ys == [] {
      assert xs + ys == xs;
    } else {
      var n := |ys| - 1;
      AfterAppend(p, b, xs, ys[..n]);
      assert (xs + ys)[..|xs + ys| - 1] == xs + ys[..n];
    }
  }

  /** In any window of any call sequence from a full bucket, the cost granted is at most
      the capacity plus what the refill clock's advance over the window earned. */
  lemma WindowBound(p: Limits, start: int, before: seq<Call>, window: seq<Call>)
    requires p.Valid() && CostsAreNonnegative(before + window)
    ensures var b := After(p, Full(p, start), before);
            var t := After(p, Full(p, start), before + window);
            Spent(p, b, window) <= p.capacity + Earned(p, b.refilledAt, t.refilledAt)
  {
    hide Earned;
    assert before == (before + window)[..|before|] && window == (before + window)[|before|..];
    Conservation(p, Full(p, start), before);
    var b := After(p, Full(p, start), before);
    Conservation(p, b, window);
    AfterAppend(p, Full(p, start), before, window);
  }

  ghost predicate AlwaysInRange(p: Limits) {
    forall start: int, calls: seq<Call> | CostsAreNonnegative(calls) :: InRange(p, After(p, Full(p, start), calls))
  }

  /** The level stays in range for every sequence of calls exactly when the capacity and
      the rate are not negative. */
  lemma AlwaysInRangeIff(p: Limits)
    ensures AlwaysInRange(p) <==> p.Valid()
  {
    if p.Valid() {
      forall start: int, calls: seq<Call> | CostsAreNonnegative(calls)
        ensures InRange(p, After(p, Full(p, start), calls))
      {
        Conservation(p, Full(p, start), calls);
      }
    } else if p.capacity < 0.0 {
      var none: seq<Call> := [];
      assert CostsAreNonnegative(none);
      assert !InRange(p, After(p, Full(p, 0), none));
    } else {
      NegativeRateDrains(p);
    }
  }

  lemma Outruns(amount: real, speed: real, time: real)
    requires 0.0 < speed && amount / speed < time
    ensures amount < time * speed
  {
    assert 0.0 < (time - amount / speed) * speed;
    assert amount / speed * speed == amount;
  }

  lemma NegativeRateDrains(p: Limits)
    requires 0.0 <= p.capacity && p.rate < 0.0
    ensures !AlwaysInRange(p)
  {
    var seconds := (p.capacity / (-p.rate)).Floor + 1;
    var now := seconds * 1000000000;
    assert now as real / 1000000000.0 == seconds as real;
    Outruns(p.capacity, -p.rate, seconds as real);
    assert Earned(p, 0, now) < -p.capacity;
    var calls := [Available(now)];
    assert CostsAreNonnegative(calls);
    assert calls[..0] == [];
    assert After(p, Full(p, 0), []) == Full(p, 0);
    assert After(p, Full(p, 0), calls) == Step(p, Full(p, 0), calls[0]);
    assert !InRange(p, After(p, Full(p, 0), calls));
  }

  // ----- With a clock that never steps back, calls that grant nothing are harmless -----

  /** Refilling in two steps is refilling once. */
  lemma RefillComposes(p: Limits, b: Level, t1: int, t2: int)
    requires p.Valid() && t1 <= t2
    ensures Refilled(p, Refilled(p, b, t1), t2) == Refilled(p, b, t2)
  {
    if b.refilledAt < t1 {
      EarnedAdds(p, b.refilledAt, t1, t2);
      EarnedIsNonnegative(p, t1, t2);
    }
  }

  predicate NotBefore(calls: seq<Call>, time: int) {
    calls != [] ==> time <= calls[0].now
  }

  /** A call that grants nothing changes no answer and no later level, provided the next
      call's clock reading is no earlier. */
  lemma HarmlessCall(p: Limits, b: Level, extra: Call, later: seq<Call>)
    requires p.Valid() && !Respond(p, b, extra).Granted? && NotBefore(later, extra.now)
    ensures Responses(p, Step(p, b, extra), later) == Responses(p, b, later)
  {
    hide Refilled;
    if later != [] {
      RefillComposes(p, b, extra.now, later[0].now);
      assert Step(p, Step(p, b, extra), later[0]) == Step(p, b, later[0]);
    }
  }

  predicate Monotone(calls: seq<Call>) {
    forall i, j | 0 <= i < j < |calls| :: calls[i].now <= calls[j].now
  }

  lemma {:induction false} ResponsesAppend(p: Limits, b: Level, xs: seq<Call>, ys: seq<Call>)
    ensures Responses(p, b, xs + ys) == Responses(p, b, xs) + Responses(p, After(p, b, xs), ys)
    decreases |ys|
  {
    hide Step, Respond;
    if ys == [] {
      assert xs + ys == xs;
    } else {
      var rest := ys[1..];
      assert xs + ys == (xs + [ys[0]]) + rest;
      ResponsesAppend(p, b, xs + [ys[0]], rest);
      ResponsesOneMore(p, b, xs, ys[0]);
      assert (xs + [ys[0]])[..|xs|] == xs;
    }
  }

  lemma {:induction false} ResponsesOneMore(p: Limits, b: Level, xs: seq<Call>, y: Call)
    ensures Responses(p, b, xs + [y]) == Responses(p, b, xs) + [Respond(p, After(p, b, xs), y)]
    decreases |xs|
  {
    hide Step, Respond;
    if xs == [] {
      assert xs + [y] == [y];
    } else {
      var first := Step(p, b, xs[0]);
      ResponsesOneMore(p, first, xs[1..], y);
      assert (xs + [y])[1..] == xs[1..] + [y];
      AfterAppend(p, b, [xs[0]], xs[1..]);
      assert [xs[0]] + xs[1..] == xs;
      assert [xs[0]][..0] == [];
      assert After(p, b, [xs[0]]) == first;
    }
  }

  /** Anywhere in a call sequence with a monotone clock, a TokensAvailable call or a refused
      TryConsume leaves every other answer as it would have been without it. */
  lemma ExtraCallsChangeNothing(p: Limits, b: Level, before: seq<Call>, extra: Call, later: seq<Call>)
    requires p.Valid() && Monotone(before + [extra] + later)
    requires !Respond(p, After(p, b, before), extra).Granted?
    ensures Responses(p, b, before + [extra] + later)
            == Responses(p, b, before) + [Respond(p, After(p, b, before), extra)]
               + Responses(p, After(p, b, before), later)
    ensures Responses(p, b, before + later)
            == Responses(p, b, before) + Responses(p, After(p, b, before), later)
  {
    hide Respond, Step;
    var all := before + [extra] + later;
    assert all[|before|] == extra;
    if later != [] {
      assert all[|before| + 1] == later[0];
    }
    HarmlessCall(p, After(p, b, before), extra, later);
    ResponsesAppend(p, b, before + [extra], later);
    ResponsesOneMore(p, b, before, extra);
    assert (before + [extra])[..|before|] == before;
    ResponsesAppend(p, b, before, later);
  }

  /** With a clock that steps back it is not harmless: a TokensAvailable call from the future
      turns a refusal into a grant. */
  lemma AheadOfTimeCallHelps()
    ensures var p := Limits(10.0, 1.0);
            var b := Level(0.0, 0);
            var ahead := Available(10000000000);
            var consume := Consume(7.0, 5000000000);
            Respond(p, b, consume).Refused? && Respond(p, Step(p, b, ahead), consume).Granted?
  {
  }

  ghost predicate AvailableIsHarmless(p: Limits, b: Level, now: int) {
    forall later: seq<Call> | CostsAreNonnegative(later) ::
      Responses(p, Step(p, b, Available(now)), later) == Responses(p, b, later)
  }

  /** Where refilling adds nothing, only the tokens matter. */
  lemma {:induction false} SameTokensSameResponses(p: Limits, b: Level, c: Level, later: seq<Call>)
    requires p.Valid() && InRange(p, b) && InRange(p, c) && b.tokens == c.tokens && CostsAreNonnegative(later)
    requires p.rate == 0.0 || p.capacity == 0.0
    ensures Responses(p, b, later) == Responses(p, c, later)
    decreases |later|
  {
    if later != [] {
      RefillAddsNothing(p, b, later[0].now);
      RefillAddsNothing(p, c, later[0].now);
      hide Refilled;
      SameTokensSameResponses(p, Step(p, b, later[0]), Step(p, c, later[0]), later[1..]);
    }
  }

  lemma RefillAddsNothing(p: Limits, b: Level, now: int)
    requires p.Valid() && InRange(p, b) && (p.rate == 0.0 || p.capacity == 0.0)
    ensures Refilled(p, b, now).tokens == b.tokens
  {
    EarnedIsNonnegative(p, b.refilledAt, if now <= b.refilledAt then b.refilledAt else now);
    if p.rate == 0.0 {
      assert (now - b.refilledAt) as real / 1000000000.0 * 0.0 == 0.0;
    }
  }

  lemma EarnsSomething(p: Limits, a: int, b: int)
    requires 0.0 < p.rate && a < b
    ensures 0.0 < Earned(p, a, b)
  {
    var seconds := (b - a) as real / 1000000000.0;
    assert 0.0 < seconds;
    assert 0.0 < seconds * p.rate;
  }

  lemma OneResponse(p: Limits, b: Level, call: Call)
    ensures Responses(p, b, [call]) == [Respond(p, b, call)]
  {
    hide Respond, Step;
    assert [call][1..] == [];
  }

  /** A bucket that is not full: the call moves the level, and a reading shows it. */
  lemma AheadShowsInReading(p: Limits, b: Level, now: int)
    requires p.Valid() && InRange(p, b) && b.refilledAt < now && 0.0 < p.rate && b.tokens < p.capacity
    ensures !AvailableIsHarmless(p, b, now)
  {
    EarnsSomething(p, b.refilledAt, now);
    hide Earned;
    var ahead, read := Step(p, b, Available(now)), Available(b.refilledAt);
    var later := [read];
    OneResponse(p, b, read);
    OneResponse(p, ahead, read);
    assert Respond(p, ahead, read) != Respond(p, b, read);
    assert CostsAreNonnegative(later) && Responses(p, ahead, later)[0] != Responses(p, b, later)[0];
  }

  /** A full bucket: the call moves the refill clock, so emptying it at the old time earns
      nothing until the later one. */
  lemma AheadShowsAfterEmptying(p: Limits, b: Level, now: int)
    requires p.Valid() && b.refilledAt < now && 0.0 < p.rate && 0.0 < p.capacity && b.tokens == p.capacity
    ensures !AvailableIsHarmless(p, b, now)
  {
    EarnsSomething(p, b.refilledAt, now);
    hide Earned;
    var ahead, empty, read := Step(p, b, Available(now)), Consume(p.capacity, b.refilledAt), Available(now);
    assert ahead == Level(p.capacity, now);
    assert Step(p, ahead, empty) == Level(0.0, now) && Step(p, b, empty) == Level(0.0, b.refilledAt);
    var later := [empty, read];
    assert later[1..] == [read];
    OneResponse(p, Step(p, ahead, empty), read);
    OneResponse(p, Step(p, b, empty), read);
    assert Respond(p, Level(0.0, now), read) != Respond(p, Level(0.0, b.refilledAt), read);
    assert CostsAreNonnegative(later) && Responses(p, ahead, later)[1] != Responses(p, b, later)[1];
  }

  /** A TokensAvailable call leaves every later answer unchanged, whatever the clock does next,
      exactly when it does not advance the refill clock or nothing can be earned. */
  lemma AvailableIsHarmlessIff(p: Limits, b: Level, now: int)
    requires p.Valid() && InRange(p, b)
    ensures AvailableIsHarmless(p, b, now) <==> now <= b.refilledAt || p.rate == 0.0 || p.capacity == 0.0
  {
    hide Responses, Earned;
    if now <= b.refilledAt {
      assert Step(p, b, Available(now)) == b;
    } else if p.rate == 0.0 || p.capacity == 0.0 {
      RefillAddsNothing(p, b, now);
      forall later: seq<Call> | CostsAreNonnegative(later)
        ensures Responses(p, Step(p, b, Available(now)), later) == Responses(p, b, later)
      {
        SameTokensSameResponses(p, Step(p, b, Available(now)), b, later);
      }
    } else if b.tokens < p.capacity {
      AheadShowsInReading(p, b, now);
    } else {
      AheadShowsAfterEmptying(p, b, now);
    }
  }

  // ----- Exactly when a caller is never refused -----

  datatype Charge = Charge(cost: real, at: int)

  predicate InTimeOrder(cs: seq<Charge>, start: int) {
    && (forall i | 0 <= i < |cs| :: start <= cs[i].at && 0.0 <= cs[i].cost)
    && forall i, j | 0 <= i < j < |cs| :: cs[i].at <= cs[j].at
  }

  function Calls(cs: seq<Charge>): seq<Call> {
    if cs == [] then [] else
    var n := |cs| - 1;
    Calls(cs[..n]) + [Consume(cs[n].cost, cs[n].at)]
  }

  /** Every charge is granted, starting from a full bucket. */
  predicate AllGranted(p: Limits, start: int, cs: seq<Charge>) {
    cs == [] ||
    var n := |cs| - 1;
    && AllGranted(p, start, cs[..n])
    && Respond(p, After(p, Full(p, start), Calls(cs[..n])), Consume(cs[n].cost, cs[n].at)).Granted?
  }

  function Total(cs: seq<Charge>): real {
    if cs == [] then 0.0 else Total(cs[..|cs| - 1]) + cs[|cs| - 1].cost
  }

  /** What the window from charge i to the last leaves of one capacity plus its earnings. */
  function Slack(p: Limits, cs: seq<Charge>, i: nat): real
    requires i < |cs|
  {
    p.capacity + Earned(p, cs[i].at, cs[|cs| - 1].at) - Total(cs[i..])
  }

  /** No window of charges costs more than the capacity plus what the rate earns over it. */
  ghost predicate Conforms(p: Limits, cs: seq<Charge>) {
    forall i, j | 0 <= i < j <= |cs| :: 0.0 <= Slack(p, cs[..j], i)
  }

  /** The level if every charge were deducted, granted or not. */
  function Debited(p: Limits, start: int, cs: seq<Charge>): Level {
    if cs == [] then Full(p, start) else
    var n := |cs| - 1;
    var r := Refilled(p, Debited(p, start, cs[..n]), cs[n].at);
    r.(tokens := r.tokens - cs[n].cost)
  }

  lemma SlackOneMore(p: Limits, cs: seq<Charge>, i: nat)
    requires 2 <= |cs| && i < |cs| - 1
    ensures var n := |cs| - 1;
            Slack(p, cs, i) == Slack(p, cs[..n], i) + Earned(p, cs[n - 1].at, cs[n].at) - cs[n].cost
  {
    hide Earned;
    var n := |cs| - 1;
    EarnedAdds(p, cs[i].at, cs[n - 1].at, cs[n].at);
    assert cs[i..][..|cs[i..]| - 1] == cs[..n][i..];
  }

  lemma LastSlack(p: Limits, cs: seq<Charge>)
    requires cs != []
    ensures Slack(p, cs, |cs| - 1) == p.capacity - cs[|cs| - 1].cost
  {
    var n := |cs| - 1;
    var last := cs[n..];
    assert |last| == 1 && last[..0] == [];
    assert Total(last) == Total(last[..0]) + last[0].cost;
    hide Earned;
    EarnedAdds(p, cs[n].at, cs[n].at, cs[n].at);
  }

  /** The level after deducting every charge is the slack of the tightest window. */
  lemma {:induction false} DebitedIsTightestSlack(p: Limits, start: int, cs: seq<Charge>) returns (tightest: nat)
    requires p.Valid() && cs != [] && InTimeOrder(cs, start)
    ensures tightest < |cs|
    ensures var b := Debited(p, start, cs);
            && b.refilledAt == cs[|cs| - 1].at
            && b.tokens == Slack(p, cs, tightest)
            && forall i | 0 <= i < |cs| :: b.tokens <= Slack(p, cs, i)
  {
    hide Earned, Slack;
    var n := |cs| - 1;
    LastSlack(p, cs);
    if n == 0 {
      EarnedIsNonnegative(p, start, cs[0].at);
      assert cs[..0] == [];
      tightest := 0;
    } else {
      var before := DebitedIsTightestSlack(p, start, cs[..n]);
      LastSlack(p, cs[..n]);
      var earned := Earned(p, cs[n - 1].at, cs[n].at);
      EarnedIsNonnegative(p, cs[n].at, cs[n].at);
      assert Refilled(p, Debited(p, start, cs[..n]), cs[n].at).tokens
          == Min(p.capacity, Slack(p, cs[..n], before) + earned);
      forall i | 0 <= i < n
        ensures Slack(p, cs, i) == Slack(p, cs[..n], i) + earned - cs[n].cost
      {
        SlackOneMore(p, cs, i);
      }
      tightest := if Slack(p, cs[..n], before) + earned < p.capacity then before else n;
    }
  }

  /** While everything is granted the bucket is the debited one. */
  lemma {:induction false} GrantedIsDebited(p: Limits, start: int, cs: seq<Charge>)
    requires AllGranted(p, start, cs)
    ensures After(p, Full(p, start), Calls(cs)) == Debited(p, start, cs)
  {
    hide Refilled;
    if cs != [] {
      var n := |cs| - 1;
      GrantedIsDebited(p, start, cs[..n]);
      assert Calls(cs)[..|Calls(cs)| - 1] == Calls(cs[..n]);
    }
  }

  /** A caller with a monotone clock is never refused exactly when no window of its charges
      costs more than the capacity plus what the rate earns over the window. */
  lemma {:induction false} NeverRefusedIff(p: Limits, start: int, cs: seq<Charge>)
    requires p.Valid() && InTimeOrder(cs, start)
    ensures AllGranted(p, start, cs) <==> Conforms(p, cs)
  {
    hide Slack, Refilled, Conforms;
    if cs == [] {
      assert Conforms(p, cs) by {
        NoWindowConforms(p);
      }
    } else {
      var n := |cs| - 1;
      NeverRefusedIff(p, start, cs[..n]);
      ConformsOneMore(p, cs);
      var tightest := DebitedIsTightestSlack(p, start, cs);
      if AllGranted(p, start, cs[..n]) {
        GrantedIsDebited(p, start, cs[..n]);
        assert AllGranted(p, start, cs) <==> 0.0 <= Debited(p, start, cs).tokens;
        assert AllGranted(p, start, cs) <==> forall i | 0 <= i < |cs| :: 0.0 <= Slack(p, cs, i);
        assert AllGranted(p, start, cs) <==> Conforms(p, cs);
      } else {
        assert !AllGranted(p, start, cs);
        assert !Conforms(p, cs);
      }
    }
  }

  lemma NoWindowConforms(p: Limits)
    ensures Conforms(p, [])
  {
  }

  lemma ConformsOneMore(p: Limits, cs: seq<Charge>)
    requires cs != []
    ensures Conforms(p, cs) <==>
            Conforms(p, cs[..|cs| - 1]) && forall i | 0 <= i < |cs| :: 0.0 <= Slack(p, cs, i)
  {
    hide Slack;
    var n := |cs| - 1;
    assert cs[..|cs|] == cs;
    assert forall j | 0 <= j <= n :: cs[..n][..j] == cs[..j];
    if Conforms(p, cs) {
      forall i, j | 0 <= i < j <= n
        ensures 0.0 <= Slack(p, cs[..n][..j], i)
      {
        assert 0.0 <= Slack(p, cs[..j], i);
      }
      forall i | 0 <= i < |cs|
        ensures 0.0 <= Slack(p, cs, i)
      {
        assert 0.0 <= Slack(p, cs[..|cs|], i);
      }
    } else {
      var i, j :| 0 <= i < j <= |cs| && Slack(p, cs[..j], i) < 0.0;
      if j <= n {
        assert Slack(p, cs[..n][..j], i) < 0.0;
      }
    }
  }

  lemma EnoughForCharge(p: Limits, b: Level, c: Charge)
    requires p.Valid() && b.refilledAt <= c.at && c.cost <= p.capacity
    requires 0.0 <= b.tokens
    requires c.cost <= Earned(p, b.refilledAt, c.at) || b.tokens == p.capacity
    ensures c.cost <= Refilled(p, b, c.at).tokens
  {
    hide Earned;
    EarnedIsNonnegative(p, b.refilledAt, c.at);
  }

  /** A caller that never asks for more than the capacity, nor for more than the rate earned
      since its last request, is never refused. */
  lemma {:induction false} SteadyCallerNeverRefused(p: Limits, start: int, cs: seq<Charge>)
    requires p.Valid() && InTimeOrder(cs, start)
    requires forall i | 0 <= i < |cs| :: cs[i].cost <= p.capacity
    requires forall i | 0 < i < |cs| :: cs[i].cost <= Earned(p, cs[i - 1].at, cs[i].at)
    ensures AllGranted(p, start, cs)
    ensures cs != [] ==> 0.0 <= Debited(p, start, cs).tokens
  {
    hide Earned, Slack, Refilled;
    if cs != [] {
      var n := |cs| - 1;
      SteadyCallerNeverRefused(p, start, cs[..n]);
      GrantedIsDebited(p, start, cs[..n]);
      var b := Debited(p, start, cs[..n]);
      if n > 0 {
        var _ := DebitedIsTightestSlack(p, start, cs[..n]);
      }
      EnoughForCharge(p, b, cs[n]);
    }
  }

  // ----- The bucket object -----

  class TokenBucket {
    const limits: Limits
    var tokens: real
    var refilledAt: int

    function State(): Level
      reads this
    {
      Level(tokens, refilledAt)
    }

    constructor (limits: Limits, now: int)
      ensures this.limits == limits && State() == Full(limits, now)
    {
      this.limits := limits;
      tokens, refilledAt := limits.capacity, now;
    }

    method Refill(now: int)
      modifies this
      ensures State() == Refilled(limits, old(State()), now)
    {
      if now <= refilledAt {
        return;
      }
      var elapsedSeconds := (now - refilledAt) as real / 1000000000.0;
      var more := tokens + elapsedSeconds * limits.rate;
      tokens := if more < limits.capacity then more else limits.capacity;
      refilledAt := now;
    }

    method TryConsume(cost: real, now: int) returns (granted: bool)
      modifies this
      ensures State() == Step(limits, old(State()), Consume(cost, now))
      ensures granted == Respond(limits, old(State()), Consume(cost, now)).Granted?
    {
      Refill(now);
      if tokens < cost {
        return false;
      }
      tokens := tokens - cost;
      return true;
    }

    method TokensAvailable(now: int) returns (amount: real)
      modifies this
      ensures State() == Step(limits, old(State()), Available(now))
      ensures Tokens(amount) == Respond(limits, old(State()), Available(now))
    {
      Refill(now);
      return tokens;
    }
  }
}
