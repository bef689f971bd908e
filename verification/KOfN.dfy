/** K-of-N confirmation over a sliding window, and the burst detector used with it. */
module KOfN {
  import opened Basics

  // ----- The specification: counting over all inputs so far -----

  /** Positives among the inputs with index in [low, high). */
  function Positives(inputs: seq<bool>, low: nat, high: nat): (c: nat)
    requires low <= high <= |inputs|
    ensures c <= high - low
    decreases high
  {
    if low == high then 0 else Positives(inputs, low, high - 1) + (if inputs[high - 1] then 1 else 0)
  }

  function Start(t: nat, n: nat): nat {
    if t <= n then 0 else t - n
  }

  /** At least k of the last min(n, t) inputs were positive. */
  predicate Confirmed(inputs: seq<bool>, k: nat, n: nat) {
    Positives(inputs, Start(|inputs|, n), |inputs|) >= k
  }

  /** The i-th input turned confirmation on. */
  predicate Edge(inputs: seq<bool>, i: nat, k: nat, n: nat)
    requires i < |inputs|
  {
    Confirmed(inputs[..i + 1], k, n) && !Confirmed(inputs[..i], k, n)
  }

  lemma {:induction false} Split(inputs: seq<bool>, low: nat, mid: nat, high: nat)
    requires low <= mid <= high <= |inputs|
    ensures Positives(inputs, low, high) == Positives(inputs, low, mid) + Positives(inputs, mid, high)
    decreases high
  {
    if mid < high {
      Split(inputs, low, mid, high - 1);
    }
  }

  lemma {:induction false} SameRange(a: seq<bool>, b: seq<bool>, low: nat, high: nat, shift: nat)
    requires low <= high <= |a| && high + shift <= |b|
    requires forall i :: low <= i < high ==> a[i] == b[i + shift]
    ensures Positives(a, low, high) == Positives(b, low + shift, high + shift)
    decreases high
  {
    if low < high {
      SameRange(a, b, low, high - 1, shift);
    }
  }

  lemma {:induction false} AllOf(inputs: seq<bool>, low: nat, high: nat, on: bool)
    requires low <= high <= |inputs| && forall i :: low <= i < high ==> inputs[i] == on
    ensures Positives(inputs, low, high) == if on then high - low else 0
    decreases high
  {
    if low < high {
      AllOf(inputs, low, high - 1, on);
    }
  }

  // ----- The confirmer -----

  /** The window after one more input: the oldest is dropped once there are more than n. */
  lemma WindowSlides(history: seq<bool>, raw: bool, n: nat)
    ensures var w := history[Start(|history|, n)..];
            var h := history + [raw];
            h[Start(|h|, n)..] == if |w| + 1 > n then (w + [raw])[1..] else w + [raw]
  {
  }

  lemma CountGrows(w: seq<bool>, raw: bool)
    ensures Positives(w + [raw], 0, |w| + 1) == Positives(w, 0, |w|) + (if raw then 1 else 0)
  {
    SameRange(w, w + [raw], 0, |w|, 0);
  }

  lemma CountShrinks(w: seq<bool>)
    requires w != []
    ensures Positives(w, 0, |w|) == (if w[0] then 1 else 0) + Positives(w[1..], 0, |w| - 1)
  {
    Split(w, 0, 1, |w|);
    SameRange(w[1..], w, 0, |w| - 1, 1);
  }

  lemma CountOfWindow(history: seq<bool>, n: nat)
    ensures var w := history[Start(|history|, n)..];
            Positives(w, 0, |w|) == Positives(history, Start(|history|, n), |history|)
  {
    var low := Start(|history|, n);
    SameRange(history[low..], history, 0, |history| - low, low);
  }

  class KOfNConfirmer {
    const k: nat
    const n: nat
    var window: seq<bool>
    var positiveCount: nat
    ghost var history: seq<bool>

    /** The window is the last n inputs and the counter counts it. */
    ghost predicate Valid()
      reads this
    {
      && 1 <= k <= n
      && window == history[Start(|history|, n)..]
      && positiveCount == Positives(window, 0, |window|)
    }

    constructor (k: nat, n: nat)
      requires 1 <= k <= n
      ensures Valid() && this.k == k && this.n == n && history == []
    {
      this.k, this.n := k, n;
      window, positiveCount, history := [], 0, [];
    }

    /** Answers whether at least k of the last min(n, t) inputs were positive. */
    method Update(raw: bool) returns (confirmed: bool)
      requires Valid()
      modifies this
      ensures Valid() && history == old(history) + [raw]
      ensures confirmed <==> Confirmed(history, k, n)
    {
      hide Positives;
      WindowSlides(history, raw, n);
      CountGrows(window, raw);
      window := window + [raw];
      if raw {
        positiveCount := positiveCount + 1;
      }
      history := history + [raw];
      if |window| > n {
        CountShrinks(window);
        if window[0] {
          positiveCount := positiveCount - 1;
        }
        window := window[1..];
      }
      CountOfWindow(history, n);
      confirmed := positiveCount >= k;
    }

    method Reset()
      requires Valid()
      modifies this
      ensures Valid() && history == []
    {
      window, positiveCount, history := [], 0, [];
    }
  }

  // ----- Isolated positives -----

  /** Positives at least n inputs apart. */
  predicate Spaced(inputs: seq<bool>, n: nat) {
    forall i, j :: 0 <= i < j < |inputs| && inputs[i] && inputs[j] ==> j - i >= n
  }

  lemma {:induction false} AtMostOne(inputs: seq<bool>, n: nat, low: nat, high: nat)
    requires Spaced(inputs, n) && low <= high <= |inputs| && high - low <= n
    ensures Positives(inputs, low, high) <= 1
    decreases high
  {
    if low < high {
      if inputs[high - 1] {
        AllOf(inputs, low, high - 1, false);
      } else {
        AtMostOne(inputs, n, low, high - 1);
      }
    }
  }

  /** Isolated positives never confirm when two are needed. */
  lemma SpacedNeverConfirms(inputs: seq<bool>, k: nat, n: nat)
    requires 2 <= k <= n && Spaced(inputs, n)
    ensures !Confirmed(inputs, k, n)
  {
    AtMostOne(inputs, n, Start(|inputs|, n), |inputs|);
  }

  // ----- The burst detector -----

  /** The detector fires on the first `burst` frames of every `period`. */
  predicate Fires(burst: nat, period: nat, frame: nat) {
    period > 0 && Local(frame, period) < burst
  }

  function Frames(burst: nat, period: nat, t: nat): (s: seq<bool>)
    ensures |s| == t && forall f :: 0 <= f < t ==> s[f] == Fires(burst, period, f)
  {
    seq(t, f requires 0 <= f => Fires(burst, period, f))
  }

  /** Confirmation turns on at this frame of the detector's stream. */
  predicate TurnsOn(burst: nat, period: nat, k: nat, n: nat, frame: nat) {
    Edge(Frames(burst, period, frame + 1), frame, k, n)
  }

  function LastN(burst: nat, period: nat, n: nat, t: nat): nat {
    Positives(Frames(burst, period, t), Start(t, n), t)
  }

  lemma TurnsOnByCount(burst: nat, period: nat, k: nat, n: nat, frame: nat)
    ensures TurnsOn(burst, period, k, n, frame)
            <==> LastN(burst, period, n, frame + 1) >= k && LastN(burst, period, n, frame) < k
  {
    var s := Frames(burst, period, frame + 1);
    assert s[..frame + 1] == s;
    assert s[..frame] == Frames(burst, period, frame);
  }

  /** The position of a frame within its period. */
  function Local(frame: nat, period: nat): (j: nat)
    requires period > 0
    ensures j < period && j <= frame
  {
    frame % period
  }

  lemma LocalIs(frame: nat, period: nat, b: nat, j: nat)
    requires period > 0 && frame == period * b + j && j < period
    ensures Local(frame, period) == j
  {
    Remainder(frame, period, b, j);
  }

  /** The remainders of frames near one whose remainder is j. */
  lemma NearbyRemainder(f: nat, p: nat, g: nat)
    requires p > 0
    ensures f <= g && Local(f, p) + (g - f) < p ==> Local(g, p) == Local(f, p) + (g - f)
    ensures g < f && f - g <= Local(f, p) ==> Local(g, p) == Local(f, p) - (f - g)
    ensures g < f && Local(f, p) < f - g <= Local(f, p) + p ==> Local(g, p) == Local(f, p) + p - (f - g)
  {
    var b, j := f / p, Local(f, p);
    assert f == p * b + j;
    if f <= g && j + (g - f) < p {
      Remainder(g, p, b, j + (g - f));
    } else if g < f && f - g <= j {
      Remainder(g, p, b, j - (f - g));
    } else if g < f && j < f - g <= j + p {
      assert b >= 1;
      assert p * b == p * (b - 1) + p;
      Remainder(g, p, b - 1, j + p - (f - g));
    }
  }

  /** In the burst, from its k-th frame on, confirmation is on. */
  lemma OnDuringBurst(burst: nat, period: nat, k: nat, n: nat, frame: nat)
    requires 1 <= k <= n && period > 0 && k - 1 <= Local(frame, period) < burst
    ensures LastN(burst, period, n, frame + 1) >= k
  {
    hide Local;
    var s, t := Frames(burst, period, frame + 1), frame + 1;
    forall g | t - k <= g < t
      ensures s[g]
    {
      NearbyRemainder(frame, period, g);
    }
    Split(s, Start(t, n), t - k, t);
    AllOf(s, t - k, t, true);
  }

  /** Early in a burst, or just before one, confirmation is off: what is left of the
      previous burst in the window is too little. */
  lemma OffBeforeBurst(burst: nat, period: nat, k: nat, n: nat, t: nat, j: nat)
    requires 1 <= k <= n && k <= burst < period && period - burst > n - k
    requires j < k && j <= t && (t == j || Local(t - j, period) == 0)
    ensures LastN(burst, period, n, t) < k
  {
    hide Local;
    var s, b := Frames(burst, period, t), t - j;
    var low := Start(t, n);
    var gap := if b < period - burst then 0 else b - (period - burst);
    if b <= low {
    } else {
      Split(s, low, b, t);
      if low < gap {
        Split(s, low, gap, b);
      }
      var quiet := if low < gap then gap else low;
      forall g | quiet <= g < b
        ensures !s[g]
      {
        assert Local(b, period) == 0;
        NearbyRemainder(b, period, g);
      }
      AllOf(s, quiet, b, false);
    }
  }

  lemma NegativeLast(s: seq<bool>, n: nat)
    requires n >= 1 && s != [] && !s[|s| - 1]
    ensures var t := |s| - 1;
            Positives(s, Start(t + 1, n), t + 1) <= Positives(s[..t], Start(t, n), t)
  {
    var t := |s| - 1;
    var low, was := Start(t + 1, n), Start(t, n);
    SameRange(s[..t], s, was, t, 0);
    Split(s, was, low, t);
  }

  /** A negative frame cannot turn confirmation on. */
  lemma NegativeKeepsOff(burst: nat, period: nat, n: nat, frame: nat)
    requires n >= 1 && !Fires(burst, period, frame)
    ensures LastN(burst, period, n, frame + 1) <= LastN(burst, period, n, frame)
  {
    hide Positives, Fires;
    var s := Frames(burst, period, frame + 1);
    assert s[..frame] == Frames(burst, period, frame);
    NegativeLast(s, n);
  }

  lemma BurstStart(frame: nat, period: nat)
    requires period > 0
    ensures frame == Local(frame, period) || Local(frame - Local(frame, period), period) == 0
  {
    hide Local;
    NearbyRemainder(frame, period, frame - Local(frame, period));
  }

  lemma TurnsOnOncePerBurst(burst: nat, period: nat, k: nat, n: nat, frame: nat)
    requires 1 <= k <= n && k <= burst && period - burst > n - k
    ensures TurnsOn(burst, period, k, n, frame) <==> Local(frame, period) == k - 1
  {
    hide TurnsOn, LastN, Local;
    TurnsOnByCount(burst, period, k, n, frame);
    var j := Local(frame, period);
    BurstStart(frame, period);
    if j >= burst {
      NegativeKeepsOff(burst, period, n, frame);
    } else if j >= k {
      NearbyRemainder(frame, period, frame - 1);
      OnDuringBurst(burst, period, k, n, frame - 1);
    } else {
      OffBeforeBurst(burst, period, k, n, frame, j);
      if j < k - 1 {
        NextStart(frame, j, period);
        OffBeforeBurst(burst, period, k, n, frame + 1, j + 1);
      } else {
        OnDuringBurst(burst, period, k, n, frame);
      }
    }
  }

  lemma NextStart(frame: nat, j: nat, period: nat)
    requires period > 0 && j <= frame && (frame == j || Local(frame - j, period) == 0)
    ensures frame + 1 == j + 1 || Local(frame + 1 - (j + 1), period) == 0
  {
  }

  /** When the gap is too short, confirmation is still on when the second burst begins. */
  lemma StillOnAtSecondBurst(burst: nat, period: nat, k: nat, n: nat)
    requires 1 <= k <= n && k <= burst && period > 0 && period - burst <= n - k
    ensures LastN(burst, period, n, period + k - 1) >= k
  {
    hide Local;
    var t := period + k - 1;
    var s, low := Frames(burst, period, t), Start(t, n);
    var last := if burst < period then burst - 1 else period - 1;
    forall g | period <= g < t
      ensures s[g]
    {
      if g - period < period {
        LocalIs(g, period, 1, g - period);
      }
    }
    AllOf(s, period, t, true);
    LocalIs(last, period, 0, last);
    assert s[last];
    Split(s, low, last, t);
    Split(s, last, last + 1, t);
    Split(s, last + 1, period, t);
  }

  /** With bursts of at least k frames, confirmation turns on exactly once per burst, at
      its k-th frame, if and only if the gap between bursts exceeds n - k frames. */
  lemma OneEdgePerBurstIff(burst: nat, period: nat, k: nat, n: nat)
    requires 1 <= k <= n && k <= burst && period > 0
    ensures (forall frame: nat :: TurnsOn(burst, period, k, n, frame) <==> Local(frame, period) == k - 1)
            <==> period - burst > n - k
  {
    if period - burst > n - k {
      forall frame: nat
        ensures TurnsOn(burst, period, k, n, frame) <==> Local(frame, period) == k - 1
      {
        TurnsOnOncePerBurst(burst, period, k, n, frame);
      }
    } else {
      var frame := period + k - 1;
      StillOnAtSecondBurst(burst, period, k, n);
      TurnsOnByCount(burst, period, k, n, frame);
      assert !TurnsOn(burst, period, k, n, frame);
      if k - 1 < period {
        LocalIs(frame, period, 1, k - 1);
        assert Local(frame, period) == k - 1;
      } else {
        FirstEdge(burst, period, k, n);
      }
    }
  }

  /** A detector that fires on every frame confirms at frame k - 1. */
  lemma FirstEdge(burst: nat, period: nat, k: nat, n: nat)
    requires 1 <= k <= n && period > 0 && period <= k - 1 && k <= burst
    ensures TurnsOn(burst, period, k, n, k - 1) && Local(k - 1, period) != k - 1
  {
    TurnsOnByCount(burst, period, k, n, k - 1);
    var s := Frames(burst, period, k);
    AllOf(s, 0, k, true);
    AllOf(Frames(burst, period, k - 1), 0, k - 1, true);
  }
}
