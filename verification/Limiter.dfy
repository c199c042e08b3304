/** The claim edge's rate limiter (edge/claim/claim_edge.py), against a limiter
    that keeps every call it ever saw and never sweeps. */
module Limiter {
  import opened Wrappers

  /** `Tripped`: refused because the window is full. `Shut`: refused while the
      source cools down from an earlier trip. */
  datatype Verdict = Admitted | Tripped | Shut

  datatype Call = Call(source: string, at: real, verdict: Verdict)

  datatype Config = Config(limit: int, window: int, cooldown: int)

  const MAX_TRACKED := 10000

  // ---------------------------------------------------------------- the limiter that never forgets

  function Own(log: seq<Call>, source: string): seq<Call> {
    if log == [] then []
    else
      var last := log[|log| - 1];
      Own(log[..|log| - 1], source) + if last.source == source then [last] else []
  }

  predicate Ordered(log: seq<Call>) {
    forall i, j | 0 <= i <= j < |log| :: log[i].at <= log[j].at
  }

  predicate NotBefore(log: seq<Call>, now: real) {
    forall i | 0 <= i < |log| :: log[i].at <= now
  }

  /** Some trip in a source's history has not cooled down yet. */
  ghost predicate Cooling(cfg: Config, own: seq<Call>, now: real) {
    cfg.cooldown != 0 &&
    exists i :: 0 <= i < |own| && own[i].verdict == Tripped && now < own[i].at + cfg.cooldown as real
  }

  /** The admissions a source still answers for: with a cooling period, a trip
      wipes what came before it. */
  function SinceTrip(cfg: Config, own: seq<Call>): seq<real> {
    if own == [] then []
    else
      var last, before := own[|own| - 1], own[..|own| - 1];
      match last.verdict
      case Admitted => SinceTrip(cfg, before) + [last.at]
      case Tripped => if cfg.cooldown != 0 then [] else SinceTrip(cfg, before)
      case Shut => SinceTrip(cfg, before)
  }

  function Within(times: seq<real>, now: real, window: int): seq<real> {
    if times == [] then []
    else
      var last := times[|times| - 1];
      Within(times[..|times| - 1], now, window) + if now - last <= window as real then [last] else []
  }

  /** The reference decision, from a source's whole history. */
  ghost function Judge(cfg: Config, own: seq<Call>, now: real): Verdict {
    if Cooling(cfg, own, now) then Shut
    else if |Within(SinceTrip(cfg, own), now, cfg.window)| >= cfg.limit then Tripped
    else Admitted
  }

  ghost function Extend(cfg: Config, log: seq<Call>, source: string, now: real): seq<Call> {
    log + [Call(source, now, Judge(cfg, Own(log, source), now))]
  }

  /** A log in which every verdict is the reference verdict on the calls before it. */
  ghost predicate Judged(cfg: Config, log: seq<Call>) {
    log == [] || (
      var before, last := log[..|log| - 1], log[|log| - 1];
      Judged(cfg, before) && last.verdict == Judge(cfg, Own(before, last.source), last.at))
  }

  lemma ExtendJudged(cfg: Config, log: seq<Call>, source: string, now: real)
    requires Judged(cfg, log)
    ensures Judged(cfg, Extend(cfg, log, source, now))
  {
    var more := Extend(cfg, log, source, now);
    assert more[..|more| - 1] == log;
  }

  // ---------------------------------------------------------------- pruning loses nothing

  predicate OrderedTimes(times: seq<real>) {
    forall i, j | 0 <= i <= j < |times| :: times[i] <= times[j]
  }

  lemma {:induction false} WithinIsSuffix(times: seq<real>, k: nat, now: real, window: int)
    requires OrderedTimes(times) && k <= |times|
    requires forall j | 0 <= j < k :: now - times[j] > window as real
    requires k < |times| ==> now - times[k] <= window as real
    ensures Within(times, now, window) == times[k..]
  {
    if k < |times| {
      var front := times[..|times| - 1];
      assert now - times[|times| - 1] <= window as real;
      if k < |front| {
        WithinIsSuffix(front, k, now, window);
      } else {
        WithinNothing(front, now, window);
      }
      assert times[k..] == front[k..] + [times[|times| - 1]];
    } else {
      WithinNothing(times, now, window);
    }
  }

  lemma {:induction false} WithinNothing(times: seq<real>, now: real, window: int)
    requires forall j | 0 <= j < |times| :: now - times[j] > window as real
    ensures Within(times, now, window) == []
  {
    if times != [] {
      WithinNothing(times[..|times| - 1], now, window);
    }
  }

  lemma OwnAppend(log: seq<Call>, call: Call, source: string)
    ensures Own(log + [call], source) == Own(log, source) + if call.source == source then [call] else []
  {
    assert (log + [call])[..|log|] == log;
  }

  lemma {:induction false} OwnOrdered(log: seq<Call>, now: real, source: string)
    requires Ordered(log) && NotBefore(log, now)
    ensures Ordered(Own(log, source)) && NotBefore(Own(log, source), now)
  {
    if log != [] {
      OwnOrdered(log[..|log| - 1], log[|log| - 1].at, source);
    }
  }

  lemma {:induction false} SinceTripOrdered(cfg: Config, own: seq<Call>, now: real)
    requires Ordered(own) && NotBefore(own, now)
    ensures OrderedTimes(SinceTrip(cfg, own))
    ensures forall t | t in SinceTrip(cfg, own) :: t <= now
  {
    if own != [] {
      var before, last := own[..|own| - 1], own[|own| - 1];
      SinceTripOrdered(cfg, before, last.at);
      var kept := SinceTrip(cfg, before);
      forall i | 0 <= i < |kept| ensures kept[i] <= last.at {
        assert kept[i] in kept;
      }
    }
  }

  // ---------------------------------------------------------------- the limiter itself

  /** `seen` is what is left of a source's admissions at `clock`; everything
      dropped from the front has left the window for good. */
  ghost predicate Kept(cfg: Config, own: seq<Call>, seen: seq<real>, clock: real) {
    var all := SinceTrip(cfg, own);
    && |seen| <= |all|
    && seen == all[|all| - |seen|..]
    && forall j | 0 <= j < |all| - |seen| :: clock - all[j] > cfg.window as real
  }

  /** `until` is when the only trip that can still bind ends. */
  ghost predicate Bound(cfg: Config, own: seq<Call>, until: real) {
    && cfg.cooldown != 0 && SinceTrip(cfg, own) == []
    && (exists i :: 0 <= i < |own| && own[i].verdict == Tripped && own[i].at + cfg.cooldown as real == until)
    && (forall i | 0 <= i < |own| && own[i].verdict == Tripped :: own[i].at + cfg.cooldown as real <= until)
  }

  function Look<V>(m: map<string, V>, key: string): Option<V> {
    if key in m then Some(m[key]) else None
  }

  /** What the dictionaries hold for one source agrees with its whole history. */
  ghost predicate Tracks(cfg: Config, own: seq<Call>, seen: Option<seq<real>>, until: Option<real>, clock: real) {
    match until
    case Some(end) => seen.None? && Bound(cfg, own, end)
    case None =>
      && !Cooling(cfg, own, clock)
      && Kept(cfg, own, if seen.Some? then seen.value else [], clock)
  }

  /** Time passing brings nothing back. */
  lemma TracksLater(cfg: Config, own: seq<Call>, seen: Option<seq<real>>, until: Option<real>,
                    clock: real, later: real)
    requires clock <= later && Tracks(cfg, own, seen, until, clock)
    ensures Tracks(cfg, own, seen, until, later)
  {
  }

  /** A key that went quiet for a window, or whose block ended, can be forgotten. */
  predicate Quiet(cfg: Config, seen: seq<real>, now: real) {
    seen == [] || now - seen[|seen| - 1] > cfg.window as real
  }

  function SweptHits(cfg: Config, hits: map<string, seq<real>>, now: real): map<string, seq<real>> {
    map k | k in hits && !Quiet(cfg, hits[k], now) :: hits[k]
  }

  function SweptBlocked(blocked: map<string, real>, now: real): map<string, real> {
    map k | k in blocked && blocked[k] > now :: blocked[k]
  }

  lemma ForgettingQuietKey(cfg: Config, own: seq<Call>, seen: seq<real>, now: real)
    requires Ordered(own) && NotBefore(own, now)
    requires Tracks(cfg, own, Some(seen), None, now) && Quiet(cfg, seen, now)
    ensures Tracks(cfg, own, None, None, now)
  {
    SinceTripOrdered(cfg, own, now);
    var all := SinceTrip(cfg, own);
    forall j | 0 <= j < |all| ensures now - all[j] > cfg.window as real {
      if j >= |all| - |seen| {
        assert all[j] <= all[|all| - 1] == seen[|seen| - 1];
      }
    }
    assert all[|all|..] == [];
  }

  lemma ForgettingEndedBlock(cfg: Config, own: seq<Call>, until: real, now: real)
    requires Tracks(cfg, own, None, Some(until), now) && until <= now
    ensures Tracks(cfg, own, None, None, now)
  {
  }

  // ---------------------------------------------------------------- recording one call

  /** What a call leaves in the dictionaries for its own source. */
  ghost predicate Leaves(cfg: Config, own: seq<Call>, seen: Option<seq<real>>, until: Option<real>, call: Call) {
    match call.verdict
    case Shut => Tracks(cfg, own, seen, until, call.at)
    case Tripped =>
      if cfg.cooldown != 0 then seen == None && until == Some(call.at + cfg.cooldown as real)
      else Tracks(cfg, own, seen, until, call.at)
    case Admitted =>
      && until == None && !Cooling(cfg, own, call.at)
      && seen.Some? && seen.value != []
      && seen.value[|seen.value| - 1] == call.at
      && Kept(cfg, own, seen.value[..|seen.value| - 1], call.at)
  }

  lemma TripTracked(cfg: Config, own: seq<Call>, seen: Option<seq<real>>, until: Option<real>, call: Call)
    requires NotBefore(own, call.at) && Leaves(cfg, own, seen, until, call) && call.verdict == Tripped
    ensures Tracks(cfg, own + [call], seen, until, call.at)
  {
    var more := own + [call];
    assert more[..|more| - 1] == own;
    if cfg.cooldown != 0 {
      assert more[|own|].verdict == Tripped;
    }
  }

  lemma AdmissionTracked(cfg: Config, own: seq<Call>, seen: Option<seq<real>>, until: Option<real>, call: Call)
    requires Leaves(cfg, own, seen, until, call) && call.verdict == Admitted
    ensures Tracks(cfg, own + [call], seen, until, call.at)
  {
    var more := own + [call];
    assert more[..|more| - 1] == own;
    var all, kept := SinceTrip(cfg, more), seen.value;
    assert all == SinceTrip(cfg, own) + [call.at];
    assert kept == kept[..|kept| - 1] + [call.at];
    assert kept == all[|all| - |kept|..];
  }

  lemma CallTracked(cfg: Config, own: seq<Call>, seen: Option<seq<real>>, until: Option<real>, call: Call)
    requires NotBefore(own, call.at) && Leaves(cfg, own, seen, until, call)
    ensures Tracks(cfg, own + [call], seen, until, call.at)
  {
    if call.verdict == Tripped {
      TripTracked(cfg, own, seen, until, call);
    } else if call.verdict == Admitted {
      AdmissionTracked(cfg, own, seen, until, call);
    } else {
      assert (own + [call])[..|own|] == own;
    }
  }

  // ---------------------------------------------------------------- one call, on the dictionaries

  function Pruned(seen: seq<real>, now: real, window: int): seq<real> {
    if seen != [] && now - seen[0] > window as real then Pruned(seen[1..], now, window) else seen
  }

  datatype After = After(hits: map<string, seq<real>>, blocked: map<string, real>, verdict: Verdict)

  /** What `allow` does to its two dictionaries, before any sweep. */
  function Step(cfg: Config, hits: map<string, seq<real>>, blocked: map<string, real>,
                source: string, now: real): After {
    if source in blocked && now < blocked[source] then After(hits, blocked, Shut)
    else
      var free := if source in blocked then blocked - {source} else blocked;
      var open := if source in blocked then hits - {source} else hits;
      var seen := Pruned(if source in open then open[source] else [], now, cfg.window);
      var touched := open[source := seen];
      if |seen| < cfg.limit then After(touched[source := seen + [now]], free, Admitted)
      else if cfg.cooldown != 0 then After(touched - {source}, free[source := now + cfg.cooldown as real], Tripped)
      else After(touched, free, Tripped)
  }

  lemma {:induction false} PrunedKeeps(cfg: Config, own: seq<Call>, seen: seq<real>, now: real)
    requires Kept(cfg, own, seen, now)
    ensures var rest := Pruned(seen, now, cfg.window);
            Kept(cfg, own, rest, now) && (rest == [] || now - rest[0] <= cfg.window as real)
  {
    if seen != [] && now - seen[0] > cfg.window as real {
      var all := SinceTrip(cfg, own);
      assert all[|all| - |seen|] == seen[0];
      PrunedKeeps(cfg, own, seen[1..], now);
    }
  }

  /** Once pruned, the length of what is left decides as the whole history does. */
  lemma PrunedDecides(cfg: Config, own: seq<Call>, seen: seq<real>, source: string, now: real)
    requires Ordered(own) && NotBefore(own, now) && !Cooling(cfg, own, now)
    requires Kept(cfg, own, seen, now) && (seen == [] || now - seen[0] <= cfg.window as real)
    ensures Judge(cfg, own, now) == if |seen| >= cfg.limit then Tripped else Admitted
    ensures Leaves(cfg, own, Some(seen + [now]), None, Call(source, now, Admitted))
    ensures cfg.cooldown == 0 ==> Leaves(cfg, own, Some(seen), None, Call(source, now, Tripped))
  {
    SinceTripOrdered(cfg, own, now);
    var all := SinceTrip(cfg, own);
    WithinIsSuffix(all, |all| - |seen|, now, cfg.window);
    assert (seen + [now])[..|seen|] == seen;
  }

  /** A source with no block standing, once an ended one is dropped. */
  lemma Unblocked(cfg: Config, own: seq<Call>, seen: Option<seq<real>>, until: Option<real>, clock: real, now: real)
    requires clock <= now && Tracks(cfg, own, seen, until, clock)
    ensures until.Some? && now < until.value ==>
              Judge(cfg, own, now) == Shut && Tracks(cfg, own, seen, until, now)
    ensures until.Some? && now >= until.value ==> !Cooling(cfg, own, now) && Kept(cfg, own, [], now)
    ensures until.None? ==> !Cooling(cfg, own, now) && Kept(cfg, own, if seen.Some? then seen.value else [], now)
  {
    TracksLater(cfg, own, seen, until, clock, now);
  }

  /** The verdict is the reference verdict, and the caller stays tracked. */
  lemma StepJudges(cfg: Config, own: seq<Call>, hits: map<string, seq<real>>, blocked: map<string, real>,
                   source: string, clock: real, now: real)
    requires clock <= now && Ordered(own) && NotBefore(own, now)
    requires Tracks(cfg, own, Look(hits, source), Look(blocked, source), clock)
    ensures var after := Step(cfg, hits, blocked, source, now);
            && after.verdict == Judge(cfg, own, now)
            && Leaves(cfg, own, Look(after.hits, source), Look(after.blocked, source),
                      Call(source, now, after.verdict))
  {
    Unblocked(cfg, own, Look(hits, source), Look(blocked, source), clock, now);
    if source in blocked && now < blocked[source] {
    } else {
      var seen := if source in hits && source !in blocked then hits[source] else [];
      PrunedKeeps(cfg, own, seen, now);
      PrunedDecides(cfg, own, Pruned(seen, now, cfg.window), source, now);
    }
  }

  ghost predicate AllTracked(cfg: Config, log: seq<Call>, hits: map<string, seq<real>>,
                             blocked: map<string, real>, clock: real) {
    && Ordered(log) && NotBefore(log, clock) && hits.Keys !! blocked.Keys
    && forall s {:trigger Own(log, s)} :: Tracks(cfg, Own(log, s), Look(hits, s), Look(blocked, s), clock)
  }

  lemma StepElsewhere(cfg: Config, hits: map<string, seq<real>>, blocked: map<string, real>,
                      source: string, now: real, s: string)
    requires s != source
    ensures var after := Step(cfg, hits, blocked, source, now);
            Look(after.hits, s) == Look(hits, s) && Look(after.blocked, s) == Look(blocked, s)
  {
  }

  lemma StepDisjoint(cfg: Config, hits: map<string, seq<real>>, blocked: map<string, real>, source: string, now: real)
    requires hits.Keys !! blocked.Keys
    ensures var after := Step(cfg, hits, blocked, source, now);
            after.hits.Keys !! after.blocked.Keys
  {
  }

  lemma OthersStayTracked(cfg: Config, log: seq<Call>, hits: map<string, seq<real>>, blocked: map<string, real>,
                          call: Call, clock: real, s: string)
    requires clock <= call.at && s != call.source
    requires Tracks(cfg, Own(log, s), Look(hits, s), Look(blocked, s), clock)
    ensures var after := Step(cfg, hits, blocked, call.source, call.at);
            Tracks(cfg, Own(log + [call], s), Look(after.hits, s), Look(after.blocked, s), call.at)
  {
    StepElsewhere(cfg, hits, blocked, call.source, call.at, s);
    OwnAppend(log, call, s);
    assert Own(log + [call], s) == Own(log, s);
    TracksLater(cfg, Own(log, s), Look(hits, s), Look(blocked, s), clock, call.at);
  }

  lemma StepTracked(cfg: Config, log: seq<Call>, hits: map<string, seq<real>>, blocked: map<string, real>,
                    source: string, clock: real, now: real)
    requires clock <= now && AllTracked(cfg, log, hits, blocked, clock)
    ensures var after := Step(cfg, hits, blocked, source, now);
            && after.verdict == Judge(cfg, Own(log, source), now)
            && AllTracked(cfg, Extend(cfg, log, source, now), after.hits, after.blocked, now)
  {
    var after := Step(cfg, hits, blocked, source, now);
    StepDisjoint(cfg, hits, blocked, source, now);
    OwnOrdered(log, now, source);
    StepJudges(cfg, Own(log, source), hits, blocked, source, clock, now);
    var call := Call(source, now, after.verdict);
    OwnAppend(log, call, source);
    CallTracked(cfg, Own(log, source), Look(after.hits, source), Look(after.blocked, source), call);
    forall s ensures Tracks(cfg, Own(log + [call], s), Look(after.hits, s), Look(after.blocked, s), now) {
      if s != source {
        OthersStayTracked(cfg, log, hits, blocked, call, clock, s);
      }
    }
  }

  lemma SweepTracked(cfg: Config, log: seq<Call>, hits: map<string, seq<real>>, blocked: map<string, real>, now: real)
    requires AllTracked(cfg, log, hits, blocked, now)
    ensures AllTracked(cfg, log, SweptHits(cfg, hits, now), SweptBlocked(blocked, now), now)
  {
    var hits1, blocked1 := SweptHits(cfg, hits, now), SweptBlocked(blocked, now);
    forall s ensures Tracks(cfg, Own(log, s), Look(hits1, s), Look(blocked1, s), now) {
      OwnOrdered(log, now, s);
      if s in hits && s !in hits1 {
        ForgettingQuietKey(cfg, Own(log, s), hits[s], now);
      }
      if s in blocked && s !in blocked1 {
        ForgettingEndedBlock(cfg, Own(log, s), blocked[s], now);
      }
    }
  }

  class RateLimiter {
    const cfg: Config
    var hits: map<string, seq<real>>
    var blocked: map<string, real>
    ghost var history: seq<Call>
    ghost var clock: real

    constructor (cfg: Config, start: real)
      ensures this.cfg == cfg && Valid() && history == [] && clock == start
    {
      this.cfg := cfg;
      hits, blocked, history, clock := map[], map[], [], start;
    }

    ghost predicate Valid()
      reads this
    {
      AllTracked(cfg, history, hits, blocked, clock) && Judged(cfg, history)
    }

    /** The dictionaries after one call, and the verdict. */
    method Touch(source: string, now: real) returns (verdict: Verdict)
      modifies this`hits, this`blocked
      ensures After(hits, blocked, verdict) == Step(cfg, old(hits), old(blocked), source, now)
    {
      if source in blocked {
        if now < blocked[source] {
          return Shut;
        }
        blocked := blocked - {source};
        hits := hits - {source};
      }
      var seen := if source in hits then hits[source] else [];
      while seen != [] && now - seen[0] > cfg.window as real
        invariant Pruned(seen, now, cfg.window) == Pruned(if source in hits then hits[source] else [], now, cfg.window)
        modifies {}
      {
        seen := seen[1..];
      }
      hits := hits[source := seen];
      if |seen| >= cfg.limit {
        if cfg.cooldown != 0 {
          blocked := blocked[source := now + cfg.cooldown as real];
          hits := hits - {source};
        }
        return Tripped;
      }
      hits := hits[source := seen + [now]];
      return Admitted;
    }

    /** One call: the answer is the one the full history gives, whatever was
        pruned or swept before. */
    method Allow(source: string, now: real) returns (ok: bool)
      requires Valid() && clock <= now
      modifies this
      ensures Valid() && clock == now
      ensures history == Extend(cfg, old(history), source, now)
      ensures ok <==> Judge(cfg, Own(old(history), source), now) == Admitted
    {
      StepTracked(cfg, history, hits, blocked, source, clock, now);
      ExtendJudged(cfg, history, source, now);
      history, clock := Extend(cfg, history, source, now), now;
      var verdict := Touch(source, now);
      if verdict == Admitted && |hits| + |blocked| > MAX_TRACKED {
        Sweep(now);
      }
      return verdict == Admitted;
    }

    /** Drop every key nothing has touched for a window, and every block that ended. */
    method Sweep(now: real)
      requires Valid() && clock == now
      modifies this`hits, this`blocked
      ensures Valid()
      ensures hits == SweptHits(cfg, old(hits), now) && blocked == SweptBlocked(old(blocked), now)
    {
      var stale := set k | k in hits && Quiet(cfg, hits[k], now);
      while stale != {}
        invariant stale <= hits.Keys <= old(hits).Keys && blocked == old(blocked)
        invariant forall k | k in hits :: hits[k] == old(hits)[k]
        invariant forall k | k in old(hits) :: k in hits && k !in stale <==> !Quiet(cfg, old(hits)[k], now)
        decreases stale
      {
        var k :| k in stale;
        hits, stale := hits - {k}, stale - {k};
      }
      assert hits == SweptHits(cfg, old(hits), now);
      var over := set k | k in blocked && blocked[k] <= now;
      while over != {}
        invariant over <= blocked.Keys <= old(blocked).Keys && hits == SweptHits(cfg, old(hits), now)
        invariant forall k | k in blocked :: blocked[k] == old(blocked)[k]
        invariant forall k | k in old(blocked) :: k in blocked && k !in over <==> old(blocked)[k] > now
        decreases over
      {
        var k :| k in over;
        blocked, over := blocked - {k}, over - {k};
      }
      assert blocked == SweptBlocked(old(blocked), now);
      SweepTracked(cfg, history, old(hits), old(blocked), now);
    }
  }
}
