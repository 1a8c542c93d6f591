/** The fixed-window limiter of tinyagentos/auth_middleware.py, with times in seconds as reals. */
module RateLimit {
  import opened Wrappers

  datatype Hit = Hit(start: real, count: nat)

  /** The entry of a key after one more request at `now`. */
  function Next(hit: Option<Hit>, now: real, window: real): Hit {
    match hit
    case None => Hit(now, 1)
    case Some(h) => if now - h.start >= window then Hit(now, 1) else Hit(h.start, h.count + 1)
  }

  class RateLimiter {
    var hits: map<string, Hit>

    constructor ()
      ensures hits == map[]
    {
      hits := map[];
    }

    method RateLimitOk(key: string, now: real, window: real, cap: nat) returns (ok: bool)
      modifies this
      ensures hits == After(old(hits), Call(key, now), window)
      ensures key in old(hits) && now - old(hits)[key].start < window ==>
        hits == old(hits)[key := Hit(old(hits)[key].start, old(hits)[key].count + 1)]
      ensures key !in old(hits) || now - old(hits)[key].start >= window ==> hits == old(hits)[key := Hit(now, 1)]
      ensures ok <==> hits[key].count <= cap
    {
      var start, count := now, 0;
      if key in hits {
        start, count := hits[key].start, hits[key].count;
      }
      if now - start >= window {
        start, count := now, 0;
      }
      count := count + 1;
      hits := hits[key := Hit(start, count)];
      return count <= cap;
    }

    /** A whole run of requests: what each was told, and the table at the end. */
    method Serve(calls: seq<Call>, window: real, cap: nat) returns (told: seq<bool>)
      requires hits == map[]
      modifies this
      ensures hits == HitsAfter(calls, window) && |told| == |calls|
      ensures forall i :: 0 <= i < |calls| ==> told[i] == Ok(calls[..i + 1], window, cap)
    {
      told := [];
      for i := 0 to |calls|
        invariant |told| == i && hits == HitsAfter(calls[..i], window)
        invariant forall j :: 0 <= j < i ==> told[j] == Ok(calls[..j + 1], window, cap)
      {
        assert calls[..i + 1][..i] == calls[..i];
        var ok := RateLimitOk(calls[i].key, calls[i].now, window, cap);
        told := told + [ok];
      }
      assert calls[..|calls|] == calls;
    }
  }

  // ---- runs -------------------------------------------------------------------------------------------

  datatype Call = Call(key: string, now: real)

  function After(hits: map<string, Hit>, c: Call, window: real): map<string, Hit> {
    hits[c.key := Next(Lookup(hits, c.key), c.now, window)]
  }

  function HitsAfter(calls: seq<Call>, window: real): map<string, Hit> {
    if calls == [] then map[] else After(HitsAfter(calls[..|calls| - 1], window), calls[|calls| - 1], window)
  }

  /** Whether the last call of a run was admitted. */
  predicate Ok(calls: seq<Call>, window: real, cap: nat)
    requires calls != []
  {
    HitsAfter(calls, window)[calls[|calls| - 1].key].count <= cap
  }

  /** The admitted calls of `key` from `lo` to `hi`, both included. */
  function Admitted(calls: seq<Call>, key: string, lo: real, hi: real, window: real, cap: nat): nat {
    if calls == [] then 0 else
      var c := calls[|calls| - 1];
      Admitted(calls[..|calls| - 1], key, lo, hi, window, cap)
      + if c.key == key && lo <= c.now <= hi && Ok(calls, window, cap) then 1 else 0
  }

  ghost predicate ClockRuns(calls: seq<Call>) {
    forall i, j :: 0 <= i < j < |calls| ==> calls[i].now <= calls[j].now
  }

  // ---- one key on its own --------------------------------------------------------------------------------

  function HitAfter(times: seq<real>, window: real): (h: Option<Hit>)
    ensures h.None? <==> times == []
  {
    if times == [] then None else
      Some(Next(HitAfter(times[..|times| - 1], window), times[|times| - 1], window))
  }

  function TimesOf(calls: seq<Call>, key: string): seq<real> {
    if calls == [] then [] else
      var c := calls[|calls| - 1];
      TimesOf(calls[..|calls| - 1], key) + if c.key == key then [c.now] else []
  }

  /** What a key is told depends on its own requests only. */
  lemma {:induction false} KeysAreIndependent(calls: seq<Call>, key: string, window: real)
    ensures Lookup(HitsAfter(calls, window), key) == HitAfter(TimesOf(calls, key), window)
  {
    if calls != [] {
      var before := calls[..|calls| - 1];
      KeysAreIndependent(before, key, window);
      if calls[|calls| - 1].key == key {
        assert TimesOf(calls, key)[..|TimesOf(before, key)|] == TimesOf(before, key);
      } else {
        assert TimesOf(calls, key) == TimesOf(before, key);
      }
    }
  }

  function AdmittedTimes(times: seq<real>, lo: real, hi: real, window: real, cap: nat): nat {
    if times == [] then 0 else
      var now := times[|times| - 1];
      AdmittedTimes(times[..|times| - 1], lo, hi, window, cap)
      + if lo <= now <= hi && HitAfter(times, window).value.count <= cap then 1 else 0
  }

  lemma {:induction false} AdmittedPerKey(calls: seq<Call>, key: string, lo: real, hi: real, window: real, cap: nat)
    ensures Admitted(calls, key, lo, hi, window, cap) == AdmittedTimes(TimesOf(calls, key), lo, hi, window, cap)
  {
    if calls != [] {
      var before := calls[..|calls| - 1];
      AdmittedPerKey(before, key, lo, hi, window, cap);
      if calls[|calls| - 1].key == key {
        KeysAreIndependent(calls, key, window);
        assert TimesOf(calls, key)[..|TimesOf(before, key)|] == TimesOf(before, key);
      } else {
        assert TimesOf(calls, key) == TimesOf(before, key);
      }
    }
  }

  // ---- windows -----------------------------------------------------------------------------------------------

  ghost predicate Rising(times: seq<real>) {
    forall i, j :: 0 <= i < j < |times| ==> times[i] <= times[j]
  }

  /** The beginning of the window before the current one. */
  ghost function PreviousStart(times: seq<real>, window: real): real
    requires times != []
  {
    var before := times[..|times| - 1];
    if before == [] then times[0] - window
    else if times[|times| - 1] - HitAfter(before, window).value.start >= window then HitAfter(before, window).value.start
    else PreviousStart(before, window)
  }

  /** Requests from `t` on. */
  ghost function Asked(times: seq<real>, t: real): nat {
    if times == [] then 0 else
      Asked(times[..|times| - 1], t) + if t <= times[|times| - 1] then 1 else 0
  }

  ghost function AdmittedSince(times: seq<real>, t: real, window: real, cap: nat): nat {
    if times == [] then 0 else
      AdmittedSince(times[..|times| - 1], t, window, cap)
      + if t <= times[|times| - 1] && HitAfter(times, window).value.count <= cap then 1 else 0
  }

  lemma {:induction false} NothingSince(times: seq<real>, t: real, window: real, cap: nat)
    requires forall i :: 0 <= i < |times| ==> times[i] < t
    ensures Asked(times, t) == 0 && AdmittedSince(times, t, window, cap) == 0
  {
    if times != [] {
      NothingSince(times[..|times| - 1], t, window, cap);
    }
  }

  function Min(a: nat, b: nat): nat {
    if a < b then a else b
  }

  /** The counter counts the current window; of its requests the first `cap` are admitted. */
  lemma {:induction false} WindowInvariant(times: seq<real>, window: real, cap: nat)
    requires times != [] && Rising(times) && window > 0.0
    ensures var h := HitAfter(times, window).value; var prev := PreviousStart(times, window);
      && h.start <= times[|times| - 1] < h.start + window
      && prev + window <= h.start
      && Asked(times, h.start) == h.count
      && AdmittedSince(times, h.start, window, cap) == Min(h.count, cap)
      && AdmittedSince(times, prev, window, cap) <= cap + Min(h.count, cap)
  {
    var before, now := times[..|times| - 1], times[|times| - 1];
    if before == [] {
      assert AdmittedSince(before, now, window, cap) == 0 && AdmittedSince(before, now - window, window, cap) == 0;
    } else {
      WindowInvariant(before, window, cap);
      var past := HitAfter(before, window).value;
      if now - past.start >= window {
        NothingSince(before, now, window, cap);
      }
    }
  }

  /** What an interval admits is at most what was admitted from its beginning on. */
  lemma {:induction false} IntervalIsPart(times: seq<real>, lo: real, hi: real, t: real, window: real, cap: nat)
    requires t <= lo
    ensures AdmittedTimes(times, lo, hi, window, cap) <= AdmittedSince(times, t, window, cap)
  {
    if times != [] {
      IntervalIsPart(times[..|times| - 1], lo, hi, t, window, cap);
    }
  }

  lemma {:induction false} BurstOfOneKey(times: seq<real>, lo: real, hi: real, window: real, cap: nat)
    requires Rising(times) && window > 0.0 && hi - lo <= window
    ensures AdmittedTimes(times, lo, hi, window, cap) <= 2 * cap
  {
    if times != [] {
      if times[|times| - 1] > hi {
        BurstOfOneKey(times[..|times| - 1], lo, hi, window, cap);
      } else {
        WindowInvariant(times, window, cap);
        IntervalIsPart(times, lo, hi, PreviousStart(times, window), window, cap);
      }
    }
  }

  lemma {:induction false} TimesOfRise(calls: seq<Call>, key: string)
    requires ClockRuns(calls)
    ensures Rising(TimesOf(calls, key))
    ensures forall t :: t in TimesOf(calls, key) ==> calls != [] && t <= calls[|calls| - 1].now
  {
    if calls != [] {
      var before := calls[..|calls| - 1];
      TimesOfRise(before, key);
      var times := TimesOf(before, key);
      forall t | t in times
        ensures t <= calls[|calls| - 1].now
      {
        assert before[|before| - 1] == calls[|calls| - 2];
      }
      assert forall i :: 0 <= i < |times| ==> times[i] in times;
    }
  }

  /** With a clock that does not run back, an interval of one window length admits at most twice the cap per key. */
  lemma BurstIsBounded(calls: seq<Call>, key: string, lo: real, hi: real, window: real, cap: nat)
    requires ClockRuns(calls) && window > 0.0 && hi - lo <= window
    ensures Admitted(calls, key, lo, hi, window, cap) <= 2 * cap
  {
    AdmittedPerKey(calls, key, lo, hi, window, cap);
    TimesOfRise(calls, key);
    BurstOfOneKey(TimesOf(calls, key), lo, hi, window, cap);
  }

  function Copies(key: string, now: real, n: nat): seq<Call> {
    seq(n, k => Call(key, now))
  }

  lemma CopiesSnoc(key: string, now: real, n: nat)
    requires n > 0
    ensures Copies(key, now, n) == Copies(key, now, n - 1) + [Call(key, now)]
  {
  }

  lemma {:induction false} FirstBurst(key: string, n: nat, window: real, cap: nat)
    requires window > 0.0 && n <= cap
    ensures HitsAfter(Copies(key, 0.0, n), window) == if n == 0 then map[] else map[key := Hit(0.0, n)]
    ensures Admitted(Copies(key, 0.0, n), key, 0.0, window, window, cap) == n
  {
    if n > 0 {
      FirstBurst(key, n - 1, window, cap);
      CopiesSnoc(key, 0.0, n);
      assert Copies(key, 0.0, n)[..n - 1] == Copies(key, 0.0, n - 1);
    }
  }

  lemma {:induction false} SecondBurst(key: string, n: nat, window: real, cap: nat)
    requires window > 0.0 && n <= cap
    ensures var calls := Copies(key, 0.0, cap) + Copies(key, window, n);
      && Lookup(HitsAfter(calls, window), key) == (if n > 0 then Some(Hit(window, n)) else
                                                   if cap == 0 then None else Some(Hit(0.0, cap)))
      && Admitted(calls, key, 0.0, window, window, cap) == cap + n
  {
    var calls := Copies(key, 0.0, cap) + Copies(key, window, n);
    if n == 0 {
      assert calls == Copies(key, 0.0, cap);
      FirstBurst(key, cap, window, cap);
    } else {
      SecondBurst(key, n - 1, window, cap);
      CopiesSnoc(key, window, n);
      assert calls[..|calls| - 1] == Copies(key, 0.0, cap) + Copies(key, window, n - 1);
    }
  }

  /** The bound is met for every cap: as many requests as it allows at each end of one window length. */
  lemma BoundIsMet(key: string, window: real, cap: nat)
    requires window > 0.0
    ensures var calls := Copies(key, 0.0, cap) + Copies(key, window, cap);
      ClockRuns(calls) && Admitted(calls, key, 0.0, window, window, cap) == 2 * cap
  {
    SecondBurst(key, cap, window, cap);
  }

  /** The requests of `key` after the instant `t`. */
  function Requests(calls: seq<Call>, key: string, t: real): nat {
    if calls == [] then 0 else
      var c := calls[|calls| - 1];
      Requests(calls[..|calls| - 1], key, t) + if c.key == key && t < c.now then 1 else 0
  }

  lemma {:induction false} RequestsOfKey(calls: seq<Call>, key: string, from: real, t: real)
    requires t < from
    ensures Asked(TimesOf(calls, key), from) <= Requests(calls, key, t)
  {
    if calls != [] {
      var before := calls[..|calls| - 1];
      RequestsOfKey(before, key, from, t);
      if calls[|calls| - 1].key == key {
        assert TimesOf(calls, key)[..|TimesOf(before, key)|] == TimesOf(before, key);
      } else {
        assert TimesOf(calls, key) == TimesOf(before, key);
      }
    }
  }

  /** Who is refused has made more than `cap` requests within the last window length, this one included. */
  lemma OnlyBurstsAreRefused(calls: seq<Call>, window: real, cap: nat)
    requires calls != [] && ClockRuns(calls) && window > 0.0
    requires !Ok(calls, window, cap)
    ensures var c := calls[|calls| - 1]; Requests(calls, c.key, c.now - window) > cap
  {
    var c := calls[|calls| - 1];
    var times := TimesOf(calls, c.key);
    KeysAreIndependent(calls, c.key, window);
    TimesOfRise(calls, c.key);
    WindowInvariant(times, window, cap);
    RequestsOfKey(calls, c.key, HitAfter(times, window).value.start, c.now - window);
  }
}
