/** `POST /claim`, start to finish (edge/claim/claim_edge.py), over the spool and the
    two limiters; and that a request served without interruption is a run of the
    file-operation machine in `Spool`. */
module ClaimEdge {
  import opened Wrappers
  import opened Claim
  import opened Spool
  import opened SpoolAudit
  import L = Limiter
  import LB = LimiterBounds
  import A = Attempts

  // ---------------------------------------------------------------- the request body

  datatype Member = Absent | NotString | Str(text: string)

  /** `Garbage` is a body that is not a JSON object. */
  datatype Body = Garbage | Payload(station: Member, code: Member)

  predicate StationChar(c: char) {
    'a' <= c <= 'z' || '0' <= c <= '9' || c in {'.', '_', '-'}
  }

  predicate StationCore(name: string) {
    && 1 <= |name| <= 63
    && name[0] !in {'.', '_', '-'}
    && forall i | 0 <= i < |name| :: StationChar(name[i])
  }

  /** The pattern's `$` also matches before one final newline. */
  predicate IsStation(name: string) {
    StationCore(name) || (name != [] && name[|name| - 1] == '\n' && StationCore(name[..|name| - 1]))
  }

  /** The pattern's parts: a letter or digit, up to 62 characters more, and at most one newline. */
  ghost predicate StationParts(name: string, first: char, rest: string, end: string) {
    && name == [first] + rest + end
    && LetterOrDigit(first)
    && |rest| <= 62 && (forall i | 0 <= i < |rest| :: LetterOrDigit(rest[i]) || rest[i] in {'.', '_', '-'})
    && (end == "" || end == "\n")
  }

  ghost predicate LetterOrDigit(c: char) { 'a' <= c <= 'z' || '0' <= c <= '9' }

  lemma CoreHasParts(name: string, end: string)
    requires StationCore(name) && (end == "" || end == "\n")
    ensures StationParts(name + end, name[0], name[1..], end)
  {
    forall i | 0 <= i < |name| ensures LetterOrDigit(name[i]) || name[i] in {'.', '_', '-'} {
      assert StationChar(name[i]);
    }
  }

  lemma PartsMakeCore(name: string, first: char, rest: string, end: string)
    requires StationParts(name, first, rest, end)
    ensures StationCore([first] + rest) && name == [first] + rest + end
  {
  }

  /** Which names a station could have. */
  lemma StationHasParts(name: string)
    requires IsStation(name)
    ensures exists first, rest, end :: StationParts(name, first, rest, end)
  {
    if StationCore(name) {
      CoreHasParts(name, "");
      assert name + "" == name;
    } else {
      var core := name[..|name| - 1];
      CoreHasParts(core, "\n");
      assert core + "\n" == name;
    }
  }

  lemma PartsMakeStation(name: string, first: char, rest: string, end: string)
    requires StationParts(name, first, rest, end)
    ensures IsStation(name)
  {
    var core := [first] + rest;
    PartsMakeCore(name, first, rest, end);
    assert end == "" ==> core + end == core;
    assert end == "\n" ==> (core + end)[..|core|] == core;
  }

  /** Which names a station could have. */
  lemma IsStationIff(name: string)
    ensures IsStation(name) <==> exists first, rest, end :: StationParts(name, first, rest, end)
  {
    if IsStation(name) {
      StationHasParts(name);
    }
    if first, rest, end :| StationParts(name, first, rest, end) {
      PartsMakeStation(name, first, rest, end);
    }
  }

  const UNATTRIBUTED := "-"

  /** The station when one is named, and the code unless it is missing. */
  function ReadClaim(body: Body): (Option<string>, Option<Offer>) {
    if body.Garbage? || !body.station.Str? || !IsStation(body.station.text) then (None, None)
    else match body.code
      case Absent => (Some(body.station.text), None)
      case NotString => (Some(body.station.text), Some(NotText))
      case Str(text) => (Some(body.station.text), Some(Text(text)))
  }

  /** The station is read whenever the body names one a station could have; the code
      only beside such a station, and a code that is not text is still an offer. */
  lemma ReadClaimReads(station: Member, code: Member)
    ensures ReadClaim(Garbage) == (None, None)
    ensures var (name, offer) := ReadClaim(Payload(station, code));
      && (name.Some? <==> station.Str? && IsStation(station.text))
      && (name.Some? ==> name.value == station.text)
      && (offer.None? <==> name.None? || code == Absent)
      && (offer == Some(NotText) <==> name.Some? && code == NotString)
      && (name.Some? && code.Str? ==> offer == Some(Text(code.text)))
  {
  }

  // ---------------------------------------------------------------- one request, as a function

  /** `redeem` with nothing in between. */
  function Redeem(files: Files, req: Request, opens: bool): (Files, Reply) {
    if req.station !in files.parks then (files, Refused(NoPark))
    else match files.parks[req.station]
      case Torn => (files, Unavailable)
      case Whole(park) =>
        match Decide(park, LoadState(files, park), req.offer, req.now, opens)
        case Answer(reply) => (files, reply)
        case Write(next, reply) =>
          var written := files.(states := files.states[(next.station, next.id) := next]);
          if next.status == Live then (written, reply)
          else (written.(parks := written.parks - {next.station}), reply)
  }

  /** What the log line names: the park on the shelf when the request began. */
  function TagOf(files: Files, station: string): Option<ParkId> {
    if station in files.parks && files.parks[station].Whole? then Some(files.parks[station].park.id) else None
  }

  function Logged(files: Files, station: string, reply: Reply, tag: Option<ParkId>): Files {
    files.(log := files.log + [Line(station, OutcomeOf(reply), tag)])
  }

  datatype Admission = Admission(source: bool, park: bool)

  /** `serve_claim`: the answers of the limiters are inputs here. */
  function Serve(files: Files, body: Body, admitted: Admission, now: int, opens: bool): (Files, Reply) {
    Answered(files, body, TurnedAway(body, admitted), now, opens)
  }

  function Answered(files: Files, body: Body, away: Option<Refusal>, now: int, opens: bool): (Files, Reply)
    requires away.None? ==> ReadClaim(body).0.Some? && ReadClaim(body).1.Some?
  {
    var (station, code) := ReadClaim(body);
    var name := if station.Some? then station.value else UNATTRIBUTED;
    if away.Some? then (Logged(files, name, Refused(away.value), None), Refused(away.value))
    else
      var (after, reply) := Redeem(files, Request(name, code.value, now), opens);
      (Logged(after, name, reply, TagOf(files, name)), reply)
  }

  function TurnedAway(body: Body, admitted: Admission): (r: Option<Refusal>)
    ensures r.None? ==> ReadClaim(body).0.Some? && ReadClaim(body).1.Some?
  {
    var (station, code) := ReadClaim(body);
    if !admitted.source then Some(RateLimited)
    else if station.None? || code.None? then Some(Malformed)
    else if !admitted.park then Some(ParkRateLimited)
    else None
  }

  /** The limit of the source comes first, then what the body lacks, then the limit of
      the station. */
  lemma TurnedAwayMeans(body: Body, admitted: Admission)
    ensures var away := TurnedAway(body, admitted);
      && (away == Some(RateLimited) <==> !admitted.source)
      && (away == Some(Malformed) <==> admitted.source && (ReadClaim(body).0.None? || ReadClaim(body).1.None?))
      && (away == Some(ParkRateLimited) <==>
            admitted.source && !admitted.park && ReadClaim(body).0.Some? && ReadClaim(body).1.Some?)
      && (away.None? <==> admitted.source && admitted.park && ReadClaim(body).0.Some? && ReadClaim(body).1.Some?)
  {
  }

  // ---------------------------------------------------------------- and as a run of file operations

  function Uninterrupted(req: Request, opens: bool): seq<Step> {
    [Peek(req), ReadPark, Judge(opens), WriteState, Unlink, Append, Send]
  }

  function StepsOf(body: Body, admitted: Admission, now: int, opens: bool): seq<Step> {
    var (station, code) := ReadClaim(body);
    var name := if station.Some? then station.value else UNATTRIBUTED;
    var away := TurnedAway(body, admitted);
    if away.Some? then [TurnAway(Request(name, if code.Some? then code.value else NotText, now), away.value), Append, Send]
    else Uninterrupted(Request(name, code.value, now), opens)
  }

  lemma {:induction false} RunUnfold(w: World, steps: seq<Step>)
    requires steps != []
    ensures Run(w, steps) == Run(Apply(w, steps[0]), steps[1..])
  {
  }

  lemma RunSeven(w: World, s: seq<Step>)
    requires |s| == 7
    ensures Run(w, s) == Apply(Apply(Apply(Apply(Apply(Apply(Apply(w, s[0]), s[1]), s[2]), s[3]), s[4]), s[5]), s[6])
  {
    var w1 := Apply(w, s[0]);
    var w2 := Apply(w1, s[1]);
    var w3 := Apply(w2, s[2]);
    var w4 := Apply(w3, s[3]);
    RunUnfold(w, s);
    RunUnfold(w1, s[1..]);
    assert s[1..][1..] == s[2..];
    RunUnfold(w2, s[2..]);
    assert s[2..][1..] == s[3..];
    RunUnfold(w3, s[3..]);
    assert s[3..][1..] == s[4..];
    RunThreeFrom(w4, s[4..]);
  }

  lemma RunThreeFrom(w: World, s: seq<Step>)
    requires |s| == 3
    ensures Run(w, s) == Apply(Apply(Apply(w, s[0]), s[1]), s[2])
  {
    var w1 := Apply(w, s[0]);
    var w2 := Apply(w1, s[1]);
    RunUnfold(w, s);
    RunUnfold(w1, s[1..]);
    assert s[1..][1..] == s[2..];
    RunUnfold(w2, s[2..]);
    assert s[2..][1..] == [];
  }

  /** Reading, judging, writing and deleting in five file operations is `redeem`. */
  lemma FiveStepsRedeem(w: World, req: Request, opens: bool)
    requires FilesOk(w) && w.flight.Idle?
    ensures var v := Apply(Apply(Apply(Apply(Apply(w, Peek(req)), ReadPark), Judge(opens)), WriteState), Unlink);
            var (after, reply) := Redeem(w.files, req, opens);
            && v.flight.Logging? && v.files == after
            && v.flight.req == req && v.flight.reply == reply && v.flight.tag == TagOf(w.files, req.station)
            && v == w.(files := v.files, flight := v.flight)
  {
    var w1 := Apply(w, Peek(req));
    var w2 := Apply(w1, ReadPark);
    if w2.flight.Read? {
      var park := w2.flight.held;
      LoadedState(w, park);
      if Decide(park, LoadState(w.files, park), req.offer, req.now, opens).Write? {
        DecideMoves(park, LoadState(w.files, park), req.offer, req.now, opens);
      }
    }
  }

  /** A request nothing interrupts is one run of the machine: the same files, one
      line and one answer. */
  lemma ServeIsARun(w: World, body: Body, admitted: Admission, now: int, opens: bool)
    requires FilesOk(w) && w.flight.Idle?
    ensures var v := Run(w, StepsOf(body, admitted, now, opens));
            var (after, reply) := Serve(w.files, body, admitted, now, opens);
            && v.files == after && v.flight.Idle?
            && |v.sent| == |w.sent| + 1 && v.sent[..|w.sent|] == w.sent && v.sent[|w.sent|].reply == reply
  {
    var (station, code) := ReadClaim(body);
    var steps := StepsOf(body, admitted, now, opens);
    if TurnedAway(body, admitted).Some? {
      RunThreeFrom(w, steps);
    } else {
      var req := Request(station.value, code.value, now);
      RunSeven(w, steps);
      FiveStepsRedeem(w, req, opens);
    }
  }

  /** A request the limiters refuse, or that names no code, leaves every park and
      every state as it was; and every request leaves exactly one line. */
  lemma OneLinePerRequest(files: Files, body: Body, admitted: Admission, now: int, opens: bool)
    ensures var (after, reply) := Serve(files, body, admitted, now, opens);
            && |after.log| == |files.log| + 1 && after.log[..|files.log|] == files.log
            && after.log[|files.log|].outcome == OutcomeOf(reply)
            && (TurnedAway(body, admitted).Some? ==> after.parks == files.parks && after.states == files.states)
  {
  }

  /** The line says the station the request named, or `-`, which no station is called;
      and the park on its shelf, if the request got that far. */
  lemma LineNamesStation(files: Files, body: Body, admitted: Admission, now: int, opens: bool)
    ensures var line := Serve(files, body, admitted, now, opens).0.log[|files.log|];
            var station := ReadClaim(body).0;
            && line.station == (if station.Some? then station.value else "-") && !IsStation("-")
            && line.parkId == (if TurnedAway(body, admitted).None? && station.value in files.parks && files.parks[station.value].Whole?
                               then Some(files.parks[station.value].park.id) else None)
  {
  }

  /** A request touches no station but the one it names. */
  lemma OtherStationsUntouched(w: World, body: Body, admitted: Admission, now: int, opens: bool, other: string)
    requires FilesOk(w) && ReadClaim(body).0 != Some(other)
    ensures var after := Serve(w.files, body, admitted, now, opens).0;
            && (other in after.parks <==> other in w.files.parks)
            && (other in after.parks ==> after.parks[other] == w.files.parks[other])
            && forall key: StateKey | key.0 == other ::
                 (key in after.states <==> key in w.files.states)
                 && (key in after.states ==> after.states[key] == w.files.states[key])
  {
    var (station, code) := ReadClaim(body);
    if TurnedAway(body, admitted).None? && station.value in w.files.parks && w.files.parks[station.value].Whole? {
      var park := w.files.parks[station.value].park;
      LoadedState(w, park);
      if Decide(park, LoadState(w.files, park), code.value, now, opens).Write? {
        DecideMoves(park, LoadState(w.files, park), code.value, now, opens);
      }
    }
  }

  // ---------------------------------------------------------------- a day of requests

  datatype Job = ParkJob(park: Park) | ClaimJob(body: Body, admitted: Admission, now: int, opens: bool)

  function JobSteps(job: Job): seq<Step> {
    match job
    case ParkJob(park) => [ParkBegin(park), ParkEnd]
    case ClaimJob(body, admitted, now, opens) => StepsOf(body, admitted, now, opens)
  }

  function DaySteps(jobs: seq<Job>): seq<Step> {
    if jobs == [] then [] else DaySteps(jobs[..|jobs| - 1]) + JobSteps(jobs[|jobs| - 1])
  }

  lemma {:induction false} QuietConcat(w: World, a: seq<Step>, b: seq<Step>)
    requires Quiet(w, a) && Quiet(Run(w, a), b)
    ensures Quiet(w, a + b)
    decreases |a|
  {
    if a == [] {
      assert a + b == b;
    } else {
      assert (a + b)[0] == a[0] && (a + b)[1..] == a[1..] + b;
      QuietConcat(Apply(w, a[0]), a[1..], b);
    }
  }

  lemma {:induction false} NoParkStepsIsQuiet(w: World, steps: seq<Step>)
    requires forall i | 0 <= i < |steps| :: !steps[i].ParkBegin? && !steps[i].ParkEnd?
    ensures Quiet(w, steps)
    decreases |steps|
  {
    if steps != [] {
      NoParkStepsIsQuiet(Apply(w, steps[0]), steps[1..]);
    }
  }

  lemma JobIsQuiet(w: World, job: Job)
    requires FilesOk(w) && w.flight.Idle?
    ensures Quiet(w, JobSteps(job)) && Run(w, JobSteps(job)).flight.Idle? && CrashFree(JobSteps(job))
  {
    match job
    case ParkJob(park) =>
      var steps := JobSteps(job);
      var w1 := Apply(w, steps[0]);
      RunUnfold(w, steps);
      RunUnfold(w1, steps[1..]);
      assert steps[1..][1..] == [];
    case ClaimJob(body, admitted, now, opens) =>
      NoParkStepsIsQuiet(w, JobSteps(job));
      ServeIsARun(w, body, admitted, now, opens);
  }

  lemma {:induction false} DayIsQuiet(jobs: seq<Job>)
    ensures var steps := DaySteps(jobs);
            Quiet(Empty(), steps) && CrashFree(steps) && Run(Empty(), steps).flight.Idle?
  {
    if jobs != [] {
      var before := DaySteps(jobs[..|jobs| - 1]);
      var job := JobSteps(jobs[|jobs| - 1]);
      DayIsQuiet(jobs[..|jobs| - 1]);
      ReachableInv(before);
      JobIsQuiet(Run(Empty(), before), jobs[|jobs| - 1]);
      QuietConcat(Empty(), before, job);
      RunConcat(Empty(), before, job);
    }
  }

  lemma {:induction false} RequestsDoNotPublish(w: World, steps: seq<Step>)
    requires forall i | 0 <= i < |steps| :: !Publishing(steps[i])
    ensures Run(w, steps).publishing == w.publishing
    decreases |steps|
  {
    if steps != [] {
      assert Apply(w, steps[0]).publishing == w.publishing;
      RequestsDoNotPublish(Apply(w, steps[0]), steps[1..]);
    }
  }

  lemma DayGrows(jobs: seq<Job>, job: Job)
    ensures Run(Empty(), DaySteps(jobs + [job])) == Run(Run(Empty(), DaySteps(jobs)), JobSteps(job))
  {
    assert (jobs + [job])[..|jobs|] == jobs;
    RunConcat(Empty(), DaySteps(jobs), JobSteps(job));
  }

  lemma ParkIsParked(w: World, park: Park)
    requires w.publishing.None?
    ensures var v := Run(w, JobSteps(ParkJob(park)));
            && v.publishing.None?
            && v.files == if park.id in w.issued then w.files
                          else w.files.(parks := w.files.parks[park.station := Whole(park)])
  {
    var steps := JobSteps(ParkJob(park));
    var w1 := Apply(w, steps[0]);
    RunUnfold(w, steps);
    RunUnfold(w1, steps[1..]);
    assert steps[1..][1..] == [];
    assert w.files.parks[park.station := Torn][park.station := Whole(park)] == w.files.parks[park.station := Whole(park)];
  }

  lemma JobEndsPublished(w: World, job: Job)
    requires w.publishing.None?
    ensures Run(w, JobSteps(job)).publishing.None?
  {
    if job.ParkJob? {
      ParkIsParked(w, job.park);
    } else {
      RequestsDoNotPublish(w, JobSteps(job));
    }
  }

  lemma {:induction false} NobodyPublishesBetween(jobs: seq<Job>)
    ensures Run(Empty(), DaySteps(jobs)).publishing.None?
  {
    if jobs != [] {
      var front, job := jobs[..|jobs| - 1], jobs[|jobs| - 1];
      NobodyPublishesBetween(front);
      DayGrows(front, job);
      assert front + [job] == jobs;
      JobEndsPublished(Run(Empty(), DaySteps(front)), job);
    }
  }

  /** A day is its jobs, one after the other: a parking puts a new park on the shelf of
      its station, and a request is served on the files that the jobs before it left. */
  lemma DayServes(jobs: seq<Job>, job: Job)
    ensures DaySteps([]) == []
    ensures var (w, v) := (Run(Empty(), DaySteps(jobs)), Run(Empty(), DaySteps(jobs + [job])));
            match job
            case ParkJob(park) =>
              v.files == (if park.id in w.issued then w.files
                          else w.files.(parks := w.files.parks[park.station := Whole(park)]))
            case ClaimJob(body, admitted, now, opens) => v.files == Serve(w.files, body, admitted, now, opens).0
  {
    var w := Run(Empty(), DaySteps(jobs));
    DayGrows(jobs, job);
    NobodyPublishesBetween(jobs);
    match job
    case ParkJob(park) => ParkIsParked(w, park);
    case ClaimJob(body, admitted, now, opens) =>
      DayIsQuiet(jobs);
      ReachableInv(DaySteps(jobs));
      ServeIsARun(w, body, admitted, now, opens);
  }

  /** Over any day of parkings and requests served one at a time, a park's attempts
      are exactly its wrong-code and burned lines, and it was redeemed exactly when
      it has its one `claimed` line. */
  lemma AttemptsEqualLines(jobs: seq<Job>, id: ParkId)
    ensures var w := Run(Empty(), DaySteps(jobs));
            && TallyLog(w.files.log, id, Failing) == OnDisk(w, id, Failing)
            && TallyLog(w.files.log, id, Serving) == OnDisk(w, id, Serving) <= 1
  {
    DayIsQuiet(jobs);
    QuietIsUndisturbed(DaySteps(jobs));
    LogAgreesWithState(DaySteps(jobs), id, Failing);
    LogAgreesWithState(DaySteps(jobs), id, Serving);
  }

  // ---------------------------------------------------------------- the service

  function Events(lines: seq<A.Line<Line>>): seq<Line> {
    if lines == [] then []
    else
      var last := lines[|lines| - 1];
      Events(lines[..|lines| - 1]) + if last.Row? then [last.event] else []
  }

  class Service {
    const limiter: L.RateLimiter
    const parkLimiter: L.RateLimiter
    const attempts: A.AttemptLog<Line>
    var parks: map<string, ParkFile>
    var states: map<StateKey, State>

    constructor (limiter: L.RateLimiter, parkLimiter: L.RateLimiter, attempts: A.AttemptLog<Line>)
      requires limiter.Valid() && parkLimiter.Valid() && limiter != parkLimiter
      ensures Valid() && this.limiter == limiter && this.parkLimiter == parkLimiter && this.attempts == attempts
      ensures Spool() == Files(map[], map[], Events(attempts.lines))
    {
      this.limiter, this.parkLimiter, this.attempts := limiter, parkLimiter, attempts;
      parks, states := map[], map[];
    }

    ghost predicate Valid()
      reads this, limiter, parkLimiter
    {
      limiter.Valid() && parkLimiter.Valid() && limiter != parkLimiter
    }

    ghost function Spool(): Files
      reads this, attempts
    {
      Files(parks, states, Events(attempts.lines))
    }

    /** `redeem`: what is left on disk and what is answered. */
    method RedeemClaim(station: string, offer: Offer, now: int, opens: bool) returns (reply: Reply)
      modifies this
      ensures (Spool(), reply) == Redeem(old(Spool()), Request(station, offer, now), opens)
    {
      if station !in parks {
        return Refused(NoPark);
      }
      if parks[station].Torn? {
        return Unavailable;
      }
      var park := parks[station].park;
      var state := if Key(park) in states then states[Key(park)] else NewState(park);
      if state.status != Live {
        return Refused(Spent);
      }
      if now >= park.expiresAt {
        Terminate(state, Expired);
        return Refused(TooLate);
      }
      if park.salt == "" {
        return Unavailable;
      }
      if !Matches(park, offer) {
        state := state.(attempts := state.attempts + 1);
        if state.attempts >= state.maxAttempts {
          Terminate(state, Burned);
          return Refused(BurnedOut);
        }
        states := states[(state.station, state.id) := state];
        return Refused(WrongCode);
      }
      if !opens {
        return Unavailable;
      }
      Terminate(state, Redeemed);
      return Served(park.sealed);
    }

    /** The terminal state is written first, and then the park file goes. */
    method Terminate(state: State, outcome: Status)
      modifies this
      ensures states == old(states)[(state.station, state.id) := state.(status := outcome)]
      ensures parks == old(parks) - {state.station}
    {
      states := states[(state.station, state.id) := state.(status := outcome)];
      parks := parks - {state.station};
    }

    /** Which limiters a request meets, in which order, and what they answer. */
    method Admit(body: Body, source: string, at: real, later: real) returns (away: Option<Refusal>)
      requires Valid() && limiter.clock <= at && parkLimiter.clock <= later
      modifies limiter, parkLimiter
      ensures Valid()
      ensures away == TurnedAway(body, Admitted(old(limiter.history), old(parkLimiter.history), body, source, at, later))
      ensures limiter.history == L.Extend(limiter.cfg, old(limiter.history), source, at)
      ensures parkLimiter.history
              == if away.None? || away == Some(ParkRateLimited)
                 then L.Extend(parkLimiter.cfg, old(parkLimiter.history), ReadClaim(body).0.value, later)
                 else old(parkLimiter.history)
    {
      var (station, code) := ReadClaim(body);
      var admitted := limiter.Allow(source, at);
      if !admitted {
        return Some(RateLimited);
      }
      if station.None? || code.None? {
        return Some(Malformed);
      }
      admitted := parkLimiter.Allow(station.value, later);
      return if admitted then None else Some(ParkRateLimited);
    }

    /** What the limiters answer, each from its whole history. */
    ghost function Admitted(bySource: seq<L.Call>, byPark: seq<L.Call>, body: Body, source: string, at: real, later: real): Admission
    {
      var named := ReadClaim(body).0;
      Admission(L.Judge(limiter.cfg, L.Own(bySource, source), at) == L.Admitted,
                named.Some? && L.Judge(parkLimiter.cfg, L.Own(byPark, named.value), later) == L.Admitted)
    }

    /** The park is read once for the log line and again by `redeem`. */
    method PeekAndRedeem(station: string, offer: Offer, now: int, opens: bool) returns (reply: Reply, tag: Option<ParkId>)
      modifies this
      ensures (Spool(), reply) == Redeem(old(Spool()), Request(station, offer, now), opens)
      ensures tag == TagOf(old(Spool()), station)
    {
      tag := if station in parks && parks[station].Whole? then Some(parks[station].park.id) else None;
      reply := RedeemClaim(station, offer, now, opens);
    }

    /** `serve_claim`. The limiters judge by their whole history; whatever the
        answer, the attempt is logged with a number of its own. */
    method ServeClaim(body: Body, source: string, now: int, opens: bool, at: real, later: real) returns (reply: Reply)
      requires Valid() && limiter.clock <= at && parkLimiter.clock <= later
      modifies this, limiter, parkLimiter, attempts
      ensures Valid()
      ensures (Spool(), reply)
              == Serve(old(Spool()), body,
                       Admitted(old(limiter.history), old(parkLimiter.history), body, source, at, later), now, opens)
      ensures limiter.history == L.Extend(limiter.cfg, old(limiter.history), source, at)
      ensures var away := TurnedAway(body, Admitted(old(limiter.history), old(parkLimiter.history), body, source, at, later));
              parkLimiter.history
              == if away.None? || away == Some(ParkRateLimited)
                 then L.Extend(parkLimiter.cfg, old(parkLimiter.history), ReadClaim(body).0.value, later)
                 else old(parkLimiter.history)
    {
      var away := Admit(body, source, at, later);
      reply := Answer(body, away, now, opens);
    }

    /** What follows once the limiters have answered. */
    method Answer(body: Body, away: Option<Refusal>, now: int, opens: bool) returns (reply: Reply)
      requires Valid() && (away.None? ==> ReadClaim(body).0.Some? && ReadClaim(body).1.Some?)
      modifies this, attempts
      ensures Valid() && unchanged(limiter, parkLimiter)
      ensures (Spool(), reply) == Answered(old(Spool()), body, away, now, opens)
    {
      var tag: Option<ParkId> := None;
      var (station, code) := ReadClaim(body);
      if away.Some? {
        reply := Refused(away.value);
      } else {
        reply, tag := PeekAndRedeem(station.value, code.value, now, opens);
      }
      LogAttempt(if station.Some? then station.value else UNATTRIBUTED, reply, tag);
    }

    /** `log_attempt`: one line, with a number of its own. */
    method LogAttempt(name: string, reply: Reply, tag: Option<ParkId>)
      modifies attempts
      ensures Spool() == Logged(old(Spool()), name, reply, tag)
      ensures |attempts.lines| == |old(attempts.lines)| + 1
    {
      ghost var lines := attempts.lines;
      attempts.Append(Line(name, OutcomeOf(reply), tag));
      assert attempts.lines[..|lines|] == lines;
    }
  }

  /** However many sources converge on a station, the requests that reach its park in
      any closed window stay within the park limiter's limit. */
  lemma StationIsCapped(service: Service, station: string, lo: real)
    requires service.Valid()
    requires var cfg := service.parkLimiter.cfg; cfg.cooldown == 0 || cfg.cooldown > cfg.window
    ensures var cfg := service.parkLimiter.cfg;
      LB.AdmittedIn(L.Own(service.parkLimiter.history, station), lo, lo + cfg.window as real) <= (if cfg.limit < 0 then 0 else cfg.limit)
  {
    LB.LongOrNoCooldownBounds(service.parkLimiter.cfg);
    LB.LimiterIsBounded(service.parkLimiter, station, lo);
  }
}
