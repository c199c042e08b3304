/** What the reference limiter promises: sources do not affect one another, and
    exactly when a window never holds more than `limit` admissions. */
module LimiterBounds {
  import opened Limiter

  // ---------------------------------------------------------------- sources do not meet

  /** The log a limiter is left with after these calls, in order. */
  ghost function Replay(cfg: Config, calls: seq<(string, real)>): seq<Call> {
    if calls == [] then []
    else
      var last := calls[|calls| - 1];
      Extend(cfg, Replay(cfg, calls[..|calls| - 1]), last.0, last.1)
  }

  function OwnCalls(calls: seq<(string, real)>, source: string): seq<(string, real)> {
    if calls == [] then []
    else
      var last := calls[|calls| - 1];
      OwnCalls(calls[..|calls| - 1], source) + if last.0 == source then [last] else []
  }

  lemma {:induction false} OwnAll(log: seq<Call>, source: string)
    requires forall i | 0 <= i < |log| :: log[i].source == source
    ensures Own(log, source) == log
  {
    if log != [] {
      OwnAll(log[..|log| - 1], source);
    }
  }

  lemma {:induction false} ReplayLength(cfg: Config, calls: seq<(string, real)>)
    ensures |Replay(cfg, calls)| == |calls|
  {
    if calls != [] {
      ReplayLength(cfg, calls[..|calls| - 1]);
    }
  }

  lemma {:induction false} ReplaySourceAt(cfg: Config, calls: seq<(string, real)>, i: nat)
    requires i < |calls| == |Replay(cfg, calls)|
    ensures Replay(cfg, calls)[i].source == calls[i].0
  {
    ReplayLength(cfg, calls[..|calls| - 1]);
    if i < |calls| - 1 {
      ReplaySourceAt(cfg, calls[..|calls| - 1], i);
    }
  }

  lemma ReplaySources(cfg: Config, calls: seq<(string, real)>)
    ensures |Replay(cfg, calls)| == |calls|
    ensures forall i | 0 <= i < |calls| :: Replay(cfg, calls)[i].source == calls[i].0
  {
    ReplayLength(cfg, calls);
    forall i | 0 <= i < |calls| ensures Replay(cfg, calls)[i].source == calls[i].0 {
      ReplaySourceAt(cfg, calls, i);
    }
  }

  lemma {:induction false} OwnCallsSource(calls: seq<(string, real)>, source: string)
    ensures forall i | 0 <= i < |OwnCalls(calls, source)| :: OwnCalls(calls, source)[i].0 == source
  {
    if calls != [] {
      OwnCallsSource(calls[..|calls| - 1], source);
    }
  }

  /** One source's verdicts are those it would get if nobody else ever called. */
  lemma {:induction false} SourcesAreIndependent(cfg: Config, calls: seq<(string, real)>, source: string)
    ensures Own(Replay(cfg, calls), source) == Replay(cfg, OwnCalls(calls, source))
  {
    if calls != [] {
      var before, last := calls[..|calls| - 1], calls[|calls| - 1];
      var log := Replay(cfg, before);
      SourcesAreIndependent(cfg, before, source);
      OwnAppend(log, Call(last.0, last.1, Judge(cfg, Own(log, last.0), last.1)), source);
      if last.0 == source {
        var mine := OwnCalls(before, source);
        OwnCallsSource(before, source);
        ReplaySources(cfg, mine);
        OwnAll(Replay(cfg, mine), source);
        assert OwnCalls(calls, source) == mine + [last];
        assert (mine + [last])[..|mine|] == mine;
      } else {
        assert OwnCalls(calls, source) == OwnCalls(before, source);
      }
    }
  }

  // ---------------------------------------------------------------- the sliding window bound

  /** How many calls were admitted in the closed interval. */
  function AdmittedIn(own: seq<Call>, lo: real, hi: real): nat {
    if own == [] then 0
    else
      var last := own[|own| - 1];
      AdmittedIn(own[..|own| - 1], lo, hi)
      + if last.verdict == Admitted && lo <= last.at <= hi then 1 else 0
  }

  lemma AppendOne(cfg: Config, own: seq<Call>, call: Call, lo: real, hi: real)
    ensures SinceTrip(cfg, own + [call])
            == match call.verdict
               case Admitted => SinceTrip(cfg, own) + [call.at]
               case Tripped => if cfg.cooldown != 0 then [] else SinceTrip(cfg, own)
               case Shut => SinceTrip(cfg, own)
    ensures AdmittedIn(own + [call], lo, hi)
            == AdmittedIn(own, lo, hi) + if call.verdict == Admitted && lo <= call.at <= hi then 1 else 0
  {
    assert (own + [call])[..|own|] == own;
  }

  lemma WithinAppend(times: seq<real>, t: real, now: real, window: int)
    ensures Within(times + [t], now, window)
            == Within(times, now, window) + if now - t <= window as real then [t] else []
  {
    assert (times + [t])[..|times|] == times;
  }

  predicate OrderedCalls(calls: seq<(string, real)>) {
    forall i, j | 0 <= i <= j < |calls| :: calls[i].1 <= calls[j].1
  }

  lemma {:induction false} ReplayOrdered(cfg: Config, calls: seq<(string, real)>)
    requires OrderedCalls(calls)
    ensures Ordered(Replay(cfg, calls))
    ensures |Replay(cfg, calls)| == |calls|
    ensures forall i | 0 <= i < |calls| :: Replay(cfg, calls)[i].at == calls[i].1
  {
    if calls != [] {
      ReplayOrdered(cfg, calls[..|calls| - 1]);
    }
  }

  lemma {:induction false} NoneAdmittedEarlier(own: seq<Call>, lo: real, hi: real)
    requires forall i | 0 <= i < |own| :: own[i].at < lo
    ensures AdmittedIn(own, lo, hi) == 0
  {
    if own != [] {
      NoneAdmittedEarlier(own[..|own| - 1], lo, hi);
    }
  }

  /** With no cooling period, or one longer than the window, whatever was admitted
      in the last window still counts against the source. */
  lemma {:induction false} WindowIsRemembered(cfg: Config, own: seq<Call>, lo: real, now: real)
    requires cfg.cooldown == 0 || cfg.cooldown > cfg.window
    requires Ordered(own) && NotBefore(own, now) && !Cooling(cfg, own, now)
    requires now <= lo + cfg.window as real
    ensures AdmittedIn(own, lo, lo + cfg.window as real) <= |Within(SinceTrip(cfg, own), now, cfg.window)|
  {
    if own != [] {
      var before, last := own[..|own| - 1], own[|own| - 1];
      assert forall i | 0 <= i < |before| :: before[i] == own[i];
      WindowIsRemembered(cfg, before, lo, now);
      if last.verdict == Tripped && cfg.cooldown != 0 {
        assert last.at + cfg.cooldown as real <= now;
        NoneAdmittedEarlier(before, lo, lo + cfg.window as real);
      } else if last.verdict == Admitted {
        var kept := SinceTrip(cfg, before);
        assert (kept + [last.at])[..|kept|] == kept;
      }
    }
  }

  function Max0(n: int): nat { if n < 0 then 0 else n }

  lemma WindowBoundStep(cfg: Config, own: seq<Call>, source: string, now: real, lo: real)
    requires cfg.cooldown == 0 || cfg.cooldown > cfg.window
    requires Ordered(own) && NotBefore(own, now)
    requires AdmittedIn(own, lo, lo + cfg.window as real) <= Max0(cfg.limit)
    ensures AdmittedIn(own + [Call(source, now, Judge(cfg, own, now))], lo, lo + cfg.window as real) <= Max0(cfg.limit)
  {
    var call := Call(source, now, Judge(cfg, own, now));
    AppendOne(cfg, own, call, lo, lo + cfg.window as real);
    if call.verdict == Admitted && lo <= now <= lo + cfg.window as real {
      WindowIsRemembered(cfg, own, lo, now);
    }
  }

  lemma {:induction false} WindowBound(cfg: Config, calls: seq<(string, real)>, source: string, lo: real)
    requires cfg.cooldown == 0 || cfg.cooldown > cfg.window
    requires OrderedCalls(calls) && forall i | 0 <= i < |calls| :: calls[i].0 == source
    ensures AdmittedIn(Replay(cfg, calls), lo, lo + cfg.window as real) <= (if cfg.limit < 0 then 0 else cfg.limit)
  {
    if calls != [] {
      var before, last := calls[..|calls| - 1], calls[|calls| - 1];
      var log := Replay(cfg, before);
      WindowBound(cfg, before, source, lo);
      ReplayOrdered(cfg, before);
      ReplaySources(cfg, before);
      OwnAll(log, source);
      WindowBoundStep(cfg, log, source, last.1, lo);
    }
  }

  /** Every closed interval one window long holds at most `limit` admissions of
      any one key, whatever everybody calls and when. */
  ghost predicate BoundsEveryWindow(cfg: Config) {
    forall calls: seq<(string, real)>, source: string, lo: real ::
      OrderedCalls(calls) ==> WindowHolds(cfg, calls, source, lo)
  }

  ghost predicate WindowHolds(cfg: Config, calls: seq<(string, real)>, source: string, lo: real) {
    AdmittedIn(Own(Replay(cfg, calls), source), lo, lo + cfg.window as real) <= Max0(cfg.limit)
  }

  lemma {:induction false} OwnCallsOrdered(calls: seq<(string, real)>, source: string, now: real)
    requires OrderedCalls(calls) && forall i | 0 <= i < |calls| :: calls[i].1 <= now
    ensures OrderedCalls(OwnCalls(calls, source))
    ensures forall i | 0 <= i < |OwnCalls(calls, source)| :: OwnCalls(calls, source)[i].1 <= now
  {
    if calls != [] {
      OwnCallsOrdered(calls[..|calls| - 1], source, calls[|calls| - 1].1);
    }
  }

  lemma LongOrNoCooldownBounds(cfg: Config)
    requires cfg.cooldown == 0 || cfg.cooldown > cfg.window
    ensures BoundsEveryWindow(cfg)
  {
    forall calls: seq<(string, real)>, source: string, lo: real | OrderedCalls(calls)
      ensures WindowHolds(cfg, calls, source, lo)
    {
      SourcesAreIndependent(cfg, calls, source);
      OwnCallsSource(calls, source);
      if calls != [] {
        OwnCallsOrdered(calls, source, calls[|calls| - 1].1);
      }
      WindowBound(cfg, OwnCalls(calls, source), source, lo);
    }
  }

  // ---------------------------------------------------------------- of the limiter itself

  function CallsOf(log: seq<Call>): seq<(string, real)> {
    seq(|log|, i requires 0 <= i < |log| => (log[i].source, log[i].at))
  }

  lemma {:induction false} JudgedIsReplay(cfg: Config, log: seq<Call>)
    requires Judged(cfg, log)
    ensures Replay(cfg, CallsOf(log)) == log
  {
    if log != [] {
      var before, last := log[..|log| - 1], log[|log| - 1];
      JudgedIsReplay(cfg, before);
      assert CallsOf(log)[..|log| - 1] == CallsOf(before);
      assert CallsOf(log)[|log| - 1] == (last.source, last.at);
      JudgedExtends(cfg, before, last);
      assert log == before + [last];
    }
  }

  lemma JudgedExtends(cfg: Config, before: seq<Call>, last: Call)
    requires last.verdict == Judge(cfg, Own(before, last.source), last.at)
    ensures Extend(cfg, before, last.source, last.at) == before + [last]
  {
  }

  /** What a limiter ever admitted of one key, over any closed window, when its
      configuration bounds every window. */
  lemma LimiterIsBounded(limiter: RateLimiter, key: string, lo: real)
    requires limiter.Valid() && BoundsEveryWindow(limiter.cfg)
    ensures AdmittedIn(Own(limiter.history, key), lo, lo + limiter.cfg.window as real) <= (if limiter.cfg.limit < 0 then 0 else limiter.cfg.limit)
  {
    LogIsBounded(limiter.cfg, limiter.history, key, lo);
  }

  lemma LogIsBounded(cfg: Config, log: seq<Call>, key: string, lo: real)
    requires Judged(cfg, log) && Ordered(log) && BoundsEveryWindow(cfg)
    ensures AdmittedIn(Own(log, key), lo, lo + cfg.window as real) <= Max0(cfg.limit)
  {
    JudgedIsReplay(cfg, log);
    CallsAreOrdered(log);
    BoundAt(cfg, CallsOf(log), key, lo);
  }

  lemma CallsAreOrdered(log: seq<Call>)
    requires Ordered(log)
    ensures OrderedCalls(CallsOf(log))
  {
  }

  lemma BoundAt(cfg: Config, calls: seq<(string, real)>, key: string, lo: real)
    requires BoundsEveryWindow(cfg) && OrderedCalls(calls)
    ensures WindowHolds(cfg, calls, key, lo)
  {
  }

  // ---------------------------------------------------------------- and only then

  /** `n` calls of one source at one instant. */
  function Burst(source: string, at: real, n: nat): seq<(string, real)> {
    seq(n, i => (source, at))
  }

  /** The log of such a burst, all of it admitted. */
  function Full(source: string, n: nat): seq<Call> {
    seq(n, i => Call(source, 0.0, Admitted))
  }

  lemma {:induction false} FullLog(cfg: Config, source: string, n: nat)
    requires cfg.window >= 0
    ensures var log := Full(source, n);
            && Own(log, source) == log
            && |Within(SinceTrip(cfg, log), 0.0, cfg.window)| == n
            && AdmittedIn(log, 0.0, cfg.window as real) == n
  {
    if n > 0 {
      FullLog(cfg, source, n - 1);
      var log, call := Full(source, n - 1), Call(source, 0.0, Admitted);
      FullSnoc(source, n - 1);
      OwnAppend(log, call, source);
      AppendOne(cfg, log, call, 0.0, cfg.window as real);
      WithinAppend(SinceTrip(cfg, log), 0.0, 0.0, cfg.window);
    }
  }

  lemma ExtendUntripped(cfg: Config, log: seq<Call>, s: string, now: real)
    requires Own(log, s) == log && forall i | 0 <= i < |log| :: log[i].verdict != Tripped
    ensures var full := |Within(SinceTrip(cfg, log), now, cfg.window)| >= cfg.limit;
            Extend(cfg, log, s, now) == log + [Call(s, now, if full then Tripped else Admitted)]
  {
    assert !Cooling(cfg, log, now);
  }

  lemma FullSnoc(source: string, n: nat)
    ensures Full(source, n + 1) == Full(source, n) + [Call(source, 0.0, Admitted)]
    ensures Burst(source, 0.0, n + 1) == Burst(source, 0.0, n) + [(source, 0.0)]
  {
  }

  lemma FullGrows(cfg: Config, source: string, n: nat)
    requires n < cfg.limit && cfg.window >= 0
    ensures Extend(cfg, Full(source, n), source, 0.0) == Full(source, n + 1)
  {
    FullLog(cfg, source, n);
    FullSnoc(source, n);
    ExtendUntripped(cfg, Full(source, n), source, 0.0);
  }

  lemma {:induction false} BurstIsAdmitted(cfg: Config, source: string, n: nat)
    requires n <= cfg.limit && cfg.window >= 0
    ensures Replay(cfg, Burst(source, 0.0, n)) == Full(source, n)
  {
    if n == 0 {
      assert Burst(source, 0.0, n) == [] && Full(source, n) == [];
    } else {
      BurstIsAdmitted(cfg, source, n - 1);
      FullSnoc(source, n - 1);
      ReplayAppend(cfg, Burst(source, 0.0, n - 1), source, 0.0);
      FullGrows(cfg, source, n - 1);
    }
  }

  lemma ReplayAppend(cfg: Config, calls: seq<(string, real)>, source: string, now: real)
    ensures Replay(cfg, calls + [(source, now)]) == Extend(cfg, Replay(cfg, calls), source, now)
  {
    assert (calls + [(source, now)])[..|calls|] == calls;
  }

  /** A cooling period no longer than the window forgets the admissions before the
      trip while they still count: a full burst, the call that trips, and the first
      call after the block fit in one window. */
  lemma ShortCooldownBreaksTheBound(cfg: Config)
    requires cfg.cooldown != 0 && cfg.cooldown <= cfg.window && cfg.limit > 0 && cfg.window >= 0
    ensures !BoundsEveryWindow(cfg)
  {
    var s := "a";
    var again := (if cfg.cooldown > 0 then cfg.cooldown else 0) as real;
    var calls := BreakingCalls(cfg, s, again);
    BreakingReplay(cfg, s, again);
    AdmitAfterTrip(cfg, s, again);
    assert OrderedCalls(calls);
    assert !WindowHolds(cfg, calls, s, 0.0);
  }

  /** A full burst, the call that trips, and the first call after the block. */
  function BreakingCalls(cfg: Config, s: string, again: real): seq<(string, real)>
    requires cfg.limit > 0
  {
    Burst(s, 0.0, cfg.limit) + [(s, 0.0)] + [(s, again)]
  }

  lemma BreakingReplay(cfg: Config, s: string, again: real)
    requires cfg.limit > 0 && cfg.window >= 0
    ensures Replay(cfg, BreakingCalls(cfg, s, again)) == Extend(cfg, Tripping(cfg, s), s, again)
  {
    var calls0 := Burst(s, 0.0, cfg.limit);
    BurstIsAdmitted(cfg, s, cfg.limit);
    ReplayAppend(cfg, calls0, s, 0.0);
    TripAfterFull(cfg, s);
    ReplayAppend(cfg, calls0 + [(s, 0.0)], s, again);
  }

  /** The log of the burst and the call that trips. */
  function Tripping(cfg: Config, s: string): seq<Call>
    requires cfg.limit > 0
  {
    Full(s, cfg.limit) + [Call(s, 0.0, Tripped)]
  }

  lemma TripAfterFull(cfg: Config, s: string)
    requires cfg.limit > 0 && cfg.window >= 0
    ensures Extend(cfg, Full(s, cfg.limit), s, 0.0) == Tripping(cfg, s)
  {
    FullLog(cfg, s, cfg.limit);
    ExtendUntripped(cfg, Full(s, cfg.limit), s, 0.0);
  }

  lemma TripShape(cfg: Config, log: seq<Call>, trip: Call, lo: real, hi: real)
    requires cfg.cooldown != 0 && trip.verdict == Tripped && Own(log, trip.source) == log
    ensures var more := log + [trip];
            && Own(more, trip.source) == more && SinceTrip(cfg, more) == []
            && AdmittedIn(more, lo, hi) == AdmittedIn(log, lo, hi)
  {
    OwnAppend(log, trip, trip.source);
    AppendOne(cfg, log, trip, lo, hi);
  }

  lemma TrippingShape(cfg: Config, s: string)
    requires cfg.cooldown != 0 && cfg.limit > 0 && cfg.window >= 0
    ensures var log := Tripping(cfg, s);
            && Own(log, s) == log && SinceTrip(cfg, log) == []
            && AdmittedIn(log, 0.0, cfg.window as real) == cfg.limit
            && forall i | 0 <= i < |log| :: log[i].at == 0.0
  {
    FullLog(cfg, s, cfg.limit);
    TripShape(cfg, Full(s, cfg.limit), Call(s, 0.0, Tripped), 0.0, cfg.window as real);
  }

  lemma AdmitAfterTrip(cfg: Config, s: string, again: real)
    requires cfg.cooldown != 0 && cfg.limit > 0 && cfg.window >= 0
    requires again >= cfg.cooldown as real && 0.0 <= again <= cfg.window as real
    ensures var log := Extend(cfg, Tripping(cfg, s), s, again);
            AdmittedIn(Own(log, s), 0.0, cfg.window as real) == cfg.limit + 1
  {
    var log := Tripping(cfg, s);
    TrippingShape(cfg, s);
    assert !Cooling(cfg, log, again);
    var verdict := Judge(cfg, Own(log, s), again);
    assert verdict == Admitted;
    var more := Call(s, again, verdict);
    OwnAppend(log, more, s);
    AppendOne(cfg, log, more, 0.0, cfg.window as real);
  }

  lemma {:induction false} NoRoomNoAdmission(cfg: Config, own: seq<Call>, calls: seq<(string, real)>, source: string, lo: real)
    requires cfg.limit <= 0 || cfg.window < 0
    requires own == Own(Replay(cfg, calls), source)
    ensures AdmittedIn(own, lo, lo + cfg.window as real) == 0
    decreases |calls|
  {
    if calls != [] {
      var before, last := calls[..|calls| - 1], calls[|calls| - 1];
      var log := Replay(cfg, before);
      var call := Call(last.0, last.1, Judge(cfg, Own(log, last.0), last.1));
      NoRoomNoAdmission(cfg, Own(log, source), before, source, lo);
      OwnAppend(log, call, source);
      if last.0 == source {
        assert (Own(log, source) + [call])[..|Own(log, source)|] == Own(log, source);
      } else {
        assert Own(log, source) + [] == Own(log, source);
      }
    }
  }

  /** The bound holds for a configuration exactly when the cooling period is
      absent or longer than the window (or nothing can be admitted in a window). */
  lemma WindowBoundIff(cfg: Config)
    ensures BoundsEveryWindow(cfg)
            <==> cfg.cooldown == 0 || cfg.cooldown > cfg.window || cfg.limit <= 0 || cfg.window < 0
  {
    if cfg.cooldown == 0 || cfg.cooldown > cfg.window {
      LongOrNoCooldownBounds(cfg);
    } else if cfg.limit <= 0 || cfg.window < 0 {
      forall calls: seq<(string, real)>, source: string, lo: real | OrderedCalls(calls)
        ensures WindowHolds(cfg, calls, source, lo)
      {
        NoRoomNoAdmission(cfg, Own(Replay(cfg, calls), source), calls, source, lo);
      }
    } else {
      ShortCooldownBreaksTheBound(cfg);
    }
  }

  /** After a trip with a cooling period, nothing is admitted until it elapses. */
  lemma {:induction false} ShutUntilCooled(cfg: Config, calls: seq<(string, real)>, i: nat, j: nat)
    requires cfg.cooldown != 0 && OrderedCalls(calls)
    requires i < j < |calls| && calls[i].0 == calls[j].0
    requires calls[j].1 < calls[i].1 + cfg.cooldown as real
    ensures |Replay(cfg, calls)| == |calls|
    ensures Replay(cfg, calls)[i].verdict == Tripped ==> Replay(cfg, calls)[j].verdict == Shut
    decreases |calls|
  {
    ReplayOrdered(cfg, calls);
    var before := calls[..|calls| - 1];
    var log, all := Replay(cfg, before), Replay(cfg, calls);
    ReplayOrdered(cfg, before);
    assert all[..|log|] == log;
    ReplaySources(cfg, before);
    if j < |before| {
      ShutUntilCooled(cfg, before, i, j);
      assert all[i] == log[i] && all[j] == log[j];
    } else if all[i].verdict == Tripped {
      assert all[i] == log[i];
      var k := OwnHas(log, i);
      assert Own(log, calls[j].0)[k].verdict == Tripped;
    }
  }

  lemma {:induction false} OwnHas(log: seq<Call>, i: nat) returns (k: nat)
    requires i < |log|
    ensures k < |Own(log, log[i].source)| && Own(log, log[i].source)[k] == log[i]
  {
    if i == |log| - 1 {
      k := |Own(log[..i], log[i].source)|;
    } else {
      k := OwnHas(log[..|log| - 1], i);
    }
  }
}
