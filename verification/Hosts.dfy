/**
 * A remote host: a shared, mutable record.  Its key does not change once it is
 * stored; its success window decides when it is thought to be gone.
 */
module Hosts {
  import opened Keys

  const SUCCESS_WINDOW: nat := 20

  /** The double nearest to 0.3; it lies a little below 3/10. */
  const BAD_LINK: real := 5404319552844595.0 / 18014398509481984.0

  function Sum(s: seq<int>): int {
    if s == [] then 0 else s[0] + Sum(s[1..])
  }

  lemma {:induction false} SumConcat(s: seq<int>, t: seq<int>)
    ensures Sum(s + t) == Sum(s) + Sum(t)
  {
    if s == [] {
      assert s + t == t;
    } else {
      SumConcat(s[1..], t);
      assert (s + t)[1..] == s[1..] + t;
    }
  }

  lemma SumRotated(s: seq<int>, p: nat)
    requires p <= |s|
    ensures Sum(s[p..] + s[..p]) == Sum(s)
  {
    assert s == s[..p] + s[p..];
    SumConcat(s[..p], s[p..]);
    SumConcat(s[p..], s[..p]);
  }

  /** Overwriting the oldest element of a ring makes it the newest. */
  lemma RotatedOn(before: seq<int>, after: seq<int>, index: nat, x: int)
    requires |before| == SUCCESS_WINDOW && after == before[index % SUCCESS_WINDOW := x]
    ensures var p, q := index % SUCCESS_WINDOW, (index + 1) % SUCCESS_WINDOW;
            after[q..] + after[..q] == (before[p..] + before[..p])[1..] + [x]
  {
    var p := index % SUCCESS_WINDOW;
    if p == SUCCESS_WINDOW - 1 {
      assert (index + 1) % SUCCESS_WINDOW == 0;
      assert before[p..] == [before[p]];
      assert after == before[..p] + [x];
    } else {
      assert (index + 1) % SUCCESS_WINDOW == p + 1;
      assert after[..p + 1] == before[..p] + [x];
      assert (before[p..] + before[..p])[1..] == before[p + 1..] + before[..p];
    }
  }

  function Average(recent: seq<int>): real {
    Sum(recent) as real / SUCCESS_WINDOW as real
  }

  class Host {
    const key: Key
    const successWin: array<int>
    var successWinIndex: nat
    var successAvg: real
    var latency: real
    var failureTime: real

    ghost predicate Valid()
      reads this, successWin
    {
      && successWin.Length == SUCCESS_WINDOW
      && successAvg == Average(Recent())
    }

    /** The window, oldest outcome first. */
    ghost function Recent(): (r: seq<int>)
      reads this`successWinIndex, successWin
      requires successWin.Length == SUCCESS_WINDOW
      ensures |r| == SUCCESS_WINDOW
    {
      var p := successWinIndex % SUCCESS_WINDOW;
      successWin[p..] + successWin[..p]
    }

    constructor (k: Key)
      ensures Valid() && key == k && fresh(successWin)
      ensures Recent() == InitialWindow()
      ensures latency == 0.0 && failureTime == 0.0
    {
      key := k;
      successWin := new int[SUCCESS_WINDOW];
      successWinIndex := 0;
      successAvg := 0.5;
      latency := 0.0;
      failureTime := 0.0;
      new;
      for i := 0 to SUCCESS_WINDOW / 2
        invariant successWinIndex == 0 && successAvg == 0.5 && latency == 0.0 && failureTime == 0.0
        invariant forall j :: 0 <= j < i ==> successWin[j] == 0
      {
        successWin[i] := 0;
      }
      for i := SUCCESS_WINDOW / 2 to SUCCESS_WINDOW
        invariant successWinIndex == 0 && successAvg == 0.5 && latency == 0.0 && failureTime == 0.0
        invariant forall j :: 0 <= j < SUCCESS_WINDOW / 2 ==> successWin[j] == 0
        invariant forall j :: SUCCESS_WINDOW / 2 <= j < i ==> successWin[j] == 1
      {
        successWin[i] := 1;
      }
      assert Recent() == InitialWindow();
      InitialAverage();
    }

    method UpdateStat(success: int)
      requires Valid()
      modifies this`successWinIndex, this`successAvg, successWin
      ensures Valid()
      ensures Recent() == old(Recent())[1..] + [success]
    {
      successWin[successWinIndex % SUCCESS_WINDOW] := success;
      successWinIndex := successWinIndex + 1;
      RotatedOn(old(successWin[..]), successWin[..], old(successWinIndex), success);
      var total := 0;
      for i := 0 to SUCCESS_WINDOW
        invariant total == Sum(successWin[..i])
        modifies {}
      {
        assert successWin[..i + 1] == successWin[..i] + [successWin[i]];
        SumConcat(successWin[..i], [successWin[i]]);
        total := total + successWin[i];
      }
      assert successWin[..SUCCESS_WINDOW] == successWin[..];
      SumRotated(successWin[..], successWinIndex % SUCCESS_WINDOW);
      successAvg := total as real / SUCCESS_WINDOW as real;
    }

    method UpdateLatency(l: real)
      modifies this`latency
      ensures latency == Smoothed(old(latency), l)
    {
      if l < 0.0 {
        return;
      }
      if latency < 0.00001 {
        latency := l;
      } else {
        latency := 0.9 * latency + 0.1 * l;
      }
    }

    method SetFailureTime(f: real)
      modifies this`failureTime
      ensures failureTime == f
    {
      failureTime := f;
    }
  }

  // ------------------------------------------------------------------ latency

  /** The latency after one more sample: a negative one says nothing, the first is taken as it is. */
  function Smoothed(latency: real, sample: real): real {
    if sample < 0.0 then latency
    else if latency < 0.00001 then sample
    else 0.9 * latency + 0.1 * sample
  }

  /** The latency of a new host after a run of samples. */
  function LatencyAfter(samples: seq<real>): real {
    if samples == [] then 0.0 else Smoothed(LatencyAfter(samples[..|samples| - 1]), samples[|samples| - 1])
  }

  predicate Counted(samples: seq<real>) {
    exists i :: 0 <= i < |samples| && samples[i] >= 0.0
  }

  /** Whatever the run, the latency lies among the samples that counted; with none, it is still 0. */
  lemma {:induction false} LatencyStaysInRange(samples: seq<real>, lo: real, hi: real)
    requires 0.0 <= lo && forall i :: 0 <= i < |samples| && samples[i] >= 0.0 ==> lo <= samples[i] <= hi
    ensures if Counted(samples) then lo <= LatencyAfter(samples) <= hi else LatencyAfter(samples) == 0.0
  {
    if samples != [] {
      var rest, last := samples[..|samples| - 1], samples[|samples| - 1];
      LatencyStaysInRange(rest, lo, hi);
      assert Counted(samples) <==> Counted(rest) || last >= 0.0;
    }
  }

  function Pow(x: real, k: nat): real {
    if k == 0 then 1.0 else x * Pow(x, k - 1)
  }

  function Samples(x: real, k: nat): (s: seq<real>)
    ensures |s| == k && forall i :: 0 <= i < k ==> s[i] == x
  {
    seq(k, _ => x)
  }

  /**
   * Under equal samples the latency nears them, the difference shrinking by a
   * tenth each time; from below 0.00001 it is there at once.
   */
  lemma {:induction false} LatencyConverges(samples: seq<real>, x: real, k: nat)
    requires k > 0 && x >= 0.00001
    ensures var before, after := LatencyAfter(samples), LatencyAfter(samples + Samples(x, k));
            && after >= 0.00001
            && after - x == if before < 0.00001 then 0.0 else Pow(0.9, k) * (before - x)
  {
    var all := samples + Samples(x, k);
    assert all[..|all| - 1] == samples + Samples(x, k - 1);
    if k == 1 {
      assert samples + Samples(x, 0) == samples;
      assert Pow(0.9, 1) == 0.9 * Pow(0.9, 0);
    } else {
      LatencyConverges(samples, x, k - 1);
      Tenth(Pow(0.9, k - 1), LatencyAfter(samples) - x);
    }
  }

  lemma Tenth(p: real, d: real)
    ensures (0.9 * p) * d == 0.9 * (p * d)
  {
  }

  // -------------------------------------------------------- runs of failures

  function Repeat(x: int, n: nat): (s: seq<int>)
    ensures |s| == n && forall i :: 0 <= i < n ==> s[i] == x
  {
    seq(n, _ => x)
  }

  function InitialWindow(): seq<int> {
    Repeat(0, SUCCESS_WINDOW / 2) + Repeat(1, SUCCESS_WINDOW / 2)
  }

  lemma {:induction false} SumRepeat(x: int, n: nat)
    ensures Sum(Repeat(x, n)) == x * n
  {
    if n > 0 {
      SumRepeat(x, n - 1);
      assert Repeat(x, n)[1..] == Repeat(x, n - 1);
    }
  }

  lemma InitialAverage()
    ensures Average(InitialWindow()) == 0.5
  {
    SumConcat(Repeat(0, 10), Repeat(1, 10));
    SumRepeat(0, 10);
    SumRepeat(1, 10);
  }

  /** Outcomes are recorded as 0 or 1. */
  predicate Outcomes(s: seq<int>) {
    forall i :: 0 <= i < |s| ==> 0 <= s[i] <= 1
  }

  /** The window after f further failures and nothing else. */
  function AfterFailures(recent: seq<int>, f: nat): (r: seq<int>)
    requires |recent| == SUCCESS_WINDOW
    ensures |r| == SUCCESS_WINDOW
  {
    (recent + Repeat(0, f))[f..]
  }

  lemma {:induction false} SumBound(s: seq<int>)
    requires Outcomes(s)
    ensures 0 <= Sum(s) <= |s|
  {
    if s != [] {
      SumBound(s[1..]);
    }
  }

  lemma SumAfterFailures(recent: seq<int>, f: nat)
    requires |recent| == SUCCESS_WINDOW
    ensures Sum(AfterFailures(recent, f)) == if f < SUCCESS_WINDOW then Sum(recent[f..]) else 0
  {
    var r := AfterFailures(recent, f);
    if f < SUCCESS_WINDOW {
      assert r == recent[f..] + Repeat(0, f);
      SumConcat(recent[f..], Repeat(0, f));
      SumRepeat(0, f);
    } else {
      assert r == Repeat(0, SUCCESS_WINDOW);
      SumRepeat(0, SUCCESS_WINDOW);
    }
  }

  /** A link is bad once at most five of the last twenty sends worked. */
  lemma BadLinkIff(recent: seq<int>)
    ensures Average(recent) < BAD_LINK <==> Sum(recent) <= 5
    ensures Average(recent) > BAD_LINK <==> Sum(recent) >= 6
  {
  }

  /** Fifteen failures in a row make any link bad. */
  lemma FifteenFailuresAreBad(recent: seq<int>, f: nat)
    requires |recent| == SUCCESS_WINDOW && Outcomes(recent) && f >= 15
    ensures Average(AfterFailures(recent, f)) < BAD_LINK
  {
    SumAfterFailures(recent, f);
    BadLinkIff(AfterFailures(recent, f));
    if f < SUCCESS_WINDOW {
      SumBound(recent[f..]);
    }
  }

  /** For a host never heard from, exactly fifteen are needed. */
  lemma FreshHostTurnsBad(f: nat)
    ensures Average(AfterFailures(InitialWindow(), f)) < BAD_LINK <==> f >= 15
  {
    var w := InitialWindow();
    SumAfterFailures(w, f);
    BadLinkIff(AfterFailures(w, f));
    if f < 10 {
      assert w[f..] == Repeat(0, 10 - f) + Repeat(1, 10);
      SumConcat(Repeat(0, 10 - f), Repeat(1, 10));
      SumRepeat(0, 10 - f);
      SumRepeat(1, 10);
    } else if f < SUCCESS_WINDOW {
      assert w[f..] == Repeat(1, 20 - f);
      SumRepeat(1, 20 - f);
    }
  }
}
