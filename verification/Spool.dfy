/** The spool under one request at a time, one file operation at a time.

    A request peeks at the park for its log line, reads it again, decides, writes
    the state file, deletes the park file when the state is terminal, appends its
    log line and answers. Between any two of these the process may die, or the next
    one raise, and the publisher may start or finish writing a park file. */
module Spool {
  import opened Wrappers
  import opened Claim

  // ---------------------------------------------------------------- files

  /** `Torn`: truncated by the publisher and not yet written; not JSON. */
  datatype ParkFile = Torn | Whole(park: Park)

  type StateKey = (string, ParkId)

  /** What the log keeps of an answer: never the credential. */
  datatype Outcome = Claimed | Turned(reason: Refusal) | Error

  function OutcomeOf(reply: Reply): Outcome {
    match reply
    case Served(_) => Claimed
    case Refused(reason) => Turned(reason)
    case Unavailable => Error
  }

  datatype Line = Line(station: string, outcome: Outcome, parkId: Option<ParkId>)

  datatype Files = Files(parks: map<string, ParkFile>, states: map<StateKey, State>, log: seq<Line>)

  function Key(park: Park): StateKey { (park.station, park.id) }

  function LoadState(files: Files, park: Park): State {
    if Key(park) in files.states then files.states[Key(park)] else NewState(park)
  }

  // ---------------------------------------------------------------- the request in flight

  datatype Request = Request(station: string, offer: Offer, now: int)

  /** `tag` is the park id the log line will carry, read before `redeem` reads
      the park it judges. */
  datatype Flight =
    | Idle
    | Peeked(req: Request, tag: Option<ParkId>)
    | Read(req: Request, tag: Option<ParkId>, held: Park)
    | Writing(req: Request, tag: Option<ParkId>, held: Park, next: State, reply: Reply)
    | Unlinking(req: Request, tag: Option<ParkId>, held: Park, reply: Reply)
    | Logging(req: Request, tag: Option<ParkId>, park: Option<Park>, reply: Reply)
    | Replying(req: Request, park: Option<Park>, reply: Reply)

  datatype Response = Response(req: Request, park: Option<Park>, reply: Reply)

  /** `issued`, `sent`, `unsent` and `unlogged` are history: the parks ever
      minted, the answers that left, and those a crash cut off before they left
      or before their log line was written. */
  datatype World = World(files: Files, flight: Flight, publishing: Option<Park>,
                         issued: map<ParkId, Park>, sent: seq<Response>,
                         unsent: seq<Response>, unlogged: seq<Response>)

  function Empty(): World {
    World(Files(map[], map[], []), Idle, None, map[], [], [], [])
  }

  datatype Step =
    | ParkBegin(park: Park)
    | ParkEnd
    | PublisherCrash
    | TurnAway(req: Request, why: Refusal)
    | Peek(req: Request)
    | ReadPark
    | Judge(opens: bool)
    | WriteState
    | Unlink
    | Append
    | Send
    | Crash

  /** A step that is not enabled changes nothing. A park file unlinked while it is
      being written is gone: the rest of the text goes to a file with no name. */
  function Apply(w: World, step: Step): World {
    match step
    case ParkBegin(park) =>
      if w.publishing.None? && park.id !in w.issued then
        w.(files := w.files.(parks := w.files.parks[park.station := Torn]),
           publishing := Some(park), issued := w.issued[park.id := park])
      else w
    case ParkEnd =>
      if w.publishing.Some? then
        var park := w.publishing.value;
        if park.station in w.files.parks then
          w.(files := w.files.(parks := w.files.parks[park.station := Whole(park)]), publishing := None)
        else w.(publishing := None)
      else w
    case PublisherCrash => w.(publishing := None)
    case TurnAway(req, why) =>
      if w.flight.Idle? && why in {Malformed, RateLimited, ParkRateLimited} then
        w.(flight := Logging(req, None, None, Refused(why)))
      else w
    case Peek(req) =>
      if !w.flight.Idle? then w
      else if req.station !in w.files.parks then w.(flight := Peeked(req, None))
      else (match w.files.parks[req.station]
            case Torn => w.(flight := Logging(req, None, None, Unavailable))
            case Whole(park) => w.(flight := Peeked(req, Some(park.id))))
    case ReadPark =>
      if !w.flight.Peeked? then w
      else
        var Peeked(req, tag) := w.flight;
        if req.station !in w.files.parks then w.(flight := Logging(req, tag, None, Refused(NoPark)))
        else (match w.files.parks[req.station]
              case Torn => w.(flight := Logging(req, tag, None, Unavailable))
              case Whole(park) => w.(flight := Read(req, tag, park)))
    case Judge(opens) =>
      if !w.flight.Read? then w
      else
        var Read(req, tag, park) := w.flight;
        (match Decide(park, LoadState(w.files, park), req.offer, req.now, opens)
         case Answer(reply) => w.(flight := Logging(req, tag, Some(park), reply))
         case Write(next, reply) => w.(flight := Writing(req, tag, park, next, reply)))
    case WriteState =>
      if !w.flight.Writing? then w
      else
        var Writing(req, tag, park, next, reply) := w.flight;
        w.(files := w.files.(states := w.files.states[(next.station, next.id) := next]),
           flight := if next.status == Live then Logging(req, tag, Some(park), reply)
                     else Unlinking(req, tag, park, reply))
    case Unlink =>
      if !w.flight.Unlinking? then w
      else
        var Unlinking(req, tag, park, reply) := w.flight;
        w.(files := w.files.(parks := w.files.parks - {park.station}),
           flight := Logging(req, tag, Some(park), reply))
    case Append =>
      if !w.flight.Logging? then w
      else
        var Logging(req, tag, park, reply) := w.flight;
        w.(files := w.files.(log := w.files.log + [Line(req.station, OutcomeOf(reply), tag)]),
           flight := Replying(req, park, reply))
    case Send =>
      if !w.flight.Replying? then w
      else
        var Replying(req, park, reply) := w.flight;
        w.(sent := w.sent + [Response(req, park, reply)], flight := Idle)
    case Crash =>
      var lost := Undelivered(w.flight);
      w.(flight := Idle, unsent := w.unsent + lost,
         unlogged := if w.flight.Replying? then w.unlogged else w.unlogged + lost)
  }

  /** The answer a crash now would cut off, once its effect is on disk. */
  function Undelivered(f: Flight): seq<Response> {
    match f
    case Unlinking(req, _, park, reply) => [Response(req, Some(park), reply)]
    case Logging(req, _, park, reply) => [Response(req, park, reply)]
    case Replying(req, park, reply) => [Response(req, park, reply)]
    case _ => []
  }

  function Run(w: World, steps: seq<Step>): World
    decreases |steps|
  {
    if steps == [] then w else Run(Apply(w, steps[0]), steps[1..])
  }

  lemma {:induction false} RunConcat(w: World, a: seq<Step>, b: seq<Step>)
    ensures Run(w, a + b) == Run(Run(w, a), b)
    decreases |a|
  {
    if a == [] {
      assert a + b == b;
    } else {
      assert (a + b)[0] == a[0] && (a + b)[1..] == a[1..] + b;
      RunConcat(Apply(w, a[0]), a[1..], b);
    }
  }

  // ---------------------------------------------------------------- counting answers

  /** The two kinds of answer that cost something: a served credential, and a
      failed attempt (a wrong code or the one that burns the park). */
  datatype Kind = Serving | Failing

  predicate OutcomeIs(outcome: Outcome, kind: Kind) {
    match kind
    case Serving => outcome == Claimed
    case Failing => outcome == Turned(WrongCode) || outcome == Turned(BurnedOut)
  }

  predicate Hits(r: Response, id: ParkId, kind: Kind) {
    r.park.Some? && r.park.value.id == id && OutcomeIs(OutcomeOf(r.reply), kind)
  }

  function Tally(rs: seq<Response>, id: ParkId, kind: Kind): nat {
    if rs == [] then 0
    else Tally(rs[..|rs| - 1], id, kind) + if Hits(rs[|rs| - 1], id, kind) then 1 else 0
  }

  function TallyLog(lines: seq<Line>, id: ParkId, kind: Kind): nat {
    if lines == [] then 0
    else
      var last := lines[|lines| - 1];
      TallyLog(lines[..|lines| - 1], id, kind)
      + if last.parkId == Some(id) && OutcomeIs(last.outcome, kind) then 1 else 0
  }

  lemma TallyConcat(rs: seq<Response>, more: seq<Response>, id: ParkId, kind: Kind)
    requires |more| <= 1
    ensures Tally(rs + more, id, kind) == Tally(rs, id, kind) + Tally(more, id, kind)
  {
    if more == [] {
      assert rs + more == rs;
    } else {
      assert (rs + more)[..|rs + more| - 1] == rs;
      assert more[..0] == [];
    }
  }

  lemma TallyLogAppend(lines: seq<Line>, line: Line, id: ParkId, kind: Kind)
    ensures TallyLog(lines + [line], id, kind)
            == TallyLog(lines, id, kind)
               + if line.parkId == Some(id) && OutcomeIs(line.outcome, kind) then 1 else 0
  {
    assert (lines + [line])[..|lines|] == lines;
  }

  /** What the state files say of a park: its failed attempts, or whether it was
      redeemed. */
  function OnDisk(w: World, id: ParkId, kind: Kind): int {
    if id in w.issued && Key(w.issued[id]) in w.files.states then
      var state := w.files.states[Key(w.issued[id])];
      match kind
      case Serving => if state.status == Redeemed then 1 else 0
      case Failing => state.attempts
    else 0
  }

  // ---------------------------------------------------------------- what every step keeps

  ghost predicate Known(w: World, park: Park) {
    park.id in w.issued && w.issued[park.id] == park
  }

  /** The burn limit; a limit below one still allows the attempt that burns. */
  function Cap(park: Park): int {
    if MaxAttempts(park) < 1 then 1 else MaxAttempts(park)
  }

  predicate StateOf(state: State, park: Park) {
    && state == NewState(park).(status := state.status, attempts := state.attempts)
    && 0 <= state.attempts <= Cap(park)
    && (state.status == Burned <==> state.attempts == Cap(park))
  }

  /** A credential leaves only for the code that opens the park, in time, and it
      is that park's credential. */
  predicate Honest(r: Response) {
    match r.reply
    case Served(credential) =>
      && r.park.Some?
      && r.req.station == r.park.value.station
      && Matches(r.park.value, r.req.offer)
      && r.req.now < r.park.value.expiresAt
      && credential == r.park.value.sealed
    case _ => true
  }

  ghost predicate FilesOk(w: World) {
    && (forall id | id in w.issued :: w.issued[id].id == id)
    && (w.publishing.Some? ==> Known(w, w.publishing.value))
    && (forall st | st in w.files.parks && w.files.parks[st].Whole? ::
          Known(w, w.files.parks[st].park) && w.files.parks[st].park.station == st)
    && (forall key: StateKey | key in w.files.states ::
          key.1 in w.issued && key == Key(w.issued[key.1])
          && StateOf(w.files.states[key], w.issued[key.1]))
  }

  ghost predicate FlightOk(w: World) {
    match w.flight
    case Read(req, _, park) => Known(w, park) && park.station == req.station
    case Writing(req, _, park, next, reply) =>
      && Known(w, park) && park.station == req.station
      && Decide(park, LoadState(w.files, park), req.offer, req.now, true) == Write(next, reply)
    case Unlinking(_, _, park, _) =>
      Known(w, park) && Key(park) in w.files.states && w.files.states[Key(park)].status != Live
    case _ => true
  }

  ghost predicate AllHonest(w: World, rs: seq<Response>) {
    forall i | 0 <= i < |rs| :: Honest(rs[i]) && (rs[i].reply.Served? ==> Known(w, rs[i].park.value))
  }

  ghost predicate HonestOk(w: World) {
    AllHonest(w, w.sent) && AllHonest(w, w.unsent) && AllHonest(w, Undelivered(w.flight))
  }

  /** What the state files charge a park with was answered, is about to be, or was
      cut off by a crash. */
  ghost predicate Balanced(w: World, id: ParkId, kind: Kind) {
    OnDisk(w, id, kind)
    == Tally(w.sent, id, kind) + Tally(Undelivered(w.flight), id, kind) + Tally(w.unsent, id, kind)
  }

  ghost predicate Conserved(w: World) {
    forall id: ParkId, kind: Kind :: Balanced(w, id, kind)
  }

  ghost predicate Inv(w: World) {
    FilesOk(w) && FlightOk(w) && HonestOk(w) && Conserved(w)
  }

  lemma LoadedState(w: World, park: Park)
    requires FilesOk(w) && Known(w, park)
    ensures StateOf(LoadState(w.files, park), park)
  {
  }

  /** One write moves a live state along exactly one edge, and charges a failed
      attempt exactly when the answer is a failed one. */
  lemma DecideMoves(park: Park, state: State, offer: Offer, now: int, opens: bool)
    requires StateOf(state, park)
    requires Decide(park, state, offer, now, opens).Write?
    ensures var Write(next, reply) := Decide(park, state, offer, now, opens);
            && state.status == Live && StateOf(next, park)
            && next.attempts == state.attempts + (if OutcomeIs(OutcomeOf(reply), Failing) then 1 else 0)
            && (next.status == Redeemed <==> reply.Served?)
  {
  }

  lemma WriteKeepsFiles(w: World)
    requires FilesOk(w) && FlightOk(w)
    ensures FilesOk(Apply(w, WriteState))
  {
    if w.flight.Writing? {
      var Writing(req, tag, park, next, reply) := w.flight;
      LoadedState(w, park);
      DecideMoves(park, LoadState(w.files, park), req.offer, req.now, true);
      assert (next.station, next.id) == Key(park);
    }
  }

  lemma PublisherKeepsFiles(w: World, step: Step)
    requires FilesOk(w) && Publishing(step)
    ensures FilesOk(Apply(w, step))
  {
  }

  /** No park file but those there were, and the state files as they were. */
  ghost predicate FewerParks(w: World, v: World) {
    && v.issued == w.issued && v.publishing == w.publishing && v.files.states == w.files.states
    && forall st | st in v.files.parks :: st in w.files.parks && v.files.parks[st] == w.files.parks[st]
  }

  lemma FewerParksKeepFiles(w: World, v: World)
    requires FilesOk(w) && FewerParks(w, v)
    ensures FilesOk(v)
  {
  }

  lemma OtherStepAddsNoPark(w: World, step: Step)
    requires !step.WriteState? && !Publishing(step)
    ensures FewerParks(w, Apply(w, step))
  {
  }

  lemma OtherStepKeepsFiles(w: World, step: Step)
    requires FilesOk(w) && !step.WriteState? && !Publishing(step)
    ensures FilesOk(Apply(w, step))
  {
    OtherStepAddsNoPark(w, step);
    FewerParksKeepFiles(w, Apply(w, step));
  }

  lemma StepKeepsFiles(w: World, step: Step)
    requires FilesOk(w) && FlightOk(w)
    ensures FilesOk(Apply(w, step))
  {
    if step.WriteState? {
      WriteKeepsFiles(w);
    } else if Publishing(step) {
      PublisherKeepsFiles(w, step);
    } else {
      OtherStepKeepsFiles(w, step);
    }
  }

  predicate Publishing(step: Step) { step.ParkBegin? || step.ParkEnd? || step.PublisherCrash? }

  lemma PublisherKeepsFlight(w: World, step: Step)
    requires FilesOk(w) && FlightOk(w) && Publishing(step)
    ensures FlightOk(Apply(w, step))
  {
  }

  lemma RequestKeepsFlight(w: World, step: Step)
    requires FilesOk(w) && FlightOk(w) && !Publishing(step)
    ensures FlightOk(Apply(w, step))
  {
  }

  lemma StepKeepsFlight(w: World, step: Step)
    requires FilesOk(w) && FlightOk(w)
    ensures FlightOk(Apply(w, step))
  {
    if Publishing(step) {
      PublisherKeepsFlight(w, step);
    } else {
      RequestKeepsFlight(w, step);
    }
  }

  lemma PublisherKeepsHonest(w: World, step: Step)
    requires HonestOk(w) && Publishing(step)
    ensures HonestOk(Apply(w, step))
  {
    var v := Apply(w, step);
    assert v.sent == w.sent && v.unsent == w.unsent && v.flight == w.flight;
    assert forall park :: Known(w, park) ==> Known(v, park);
  }

  /** The answer about to leave is honest; the rest was. */
  lemma RequestKeepsPending(w: World, step: Step)
    requires FilesOk(w) && FlightOk(w) && AllHonest(w, Undelivered(w.flight)) && !Publishing(step)
    ensures AllHonest(w, Undelivered(Apply(w, step).flight))
  {
  }

  lemma RequestMovesAnswers(w: World, step: Step)
    requires !Publishing(step)
    ensures var v := Apply(w, step);
            && v.issued == w.issued
            && (v.sent == w.sent || v.sent == w.sent + Undelivered(w.flight))
            && (v.unsent == w.unsent || v.unsent == w.unsent + Undelivered(w.flight))
  {
  }

  lemma StepKeepsHonest(w: World, step: Step)
    requires FilesOk(w) && FlightOk(w) && HonestOk(w)
    ensures HonestOk(Apply(w, step))
  {
    if Publishing(step) {
      PublisherKeepsHonest(w, step);
    } else {
      RequestKeepsPending(w, step);
      RequestMovesAnswers(w, step);
      var v := Apply(w, step);
      assert forall rs :: AllHonest(w, rs) ==> AllHonest(v, rs);
    }
  }

  lemma TallyOne(r: Response, id: ParkId, kind: Kind)
    ensures Tally([r], id, kind) == if Hits(r, id, kind) then 1 else 0
  {
    assert [r][..0] == [];
  }

  lemma WriteConserves(w: World, id: ParkId, kind: Kind)
    requires FilesOk(w) && FlightOk(w) && w.flight.Writing?
    ensures var v := Apply(w, WriteState);
            OnDisk(v, id, kind) == OnDisk(w, id, kind) + Tally(Undelivered(v.flight), id, kind)
  {
    var Writing(req, tag, park, next, reply) := w.flight;
    LoadedState(w, park);
    DecideMoves(park, LoadState(w.files, park), req.offer, req.now, true);
    TallyOne(Response(req, Some(park), reply), id, kind);
    assert (next.station, next.id) == Key(park);
  }

  lemma JudgeCostsNothing(w: World, opens: bool, id: ParkId, kind: Kind)
    requires w.flight.Read?
    ensures Tally(Undelivered(Apply(w, Judge(opens)).flight), id, kind) == 0
  {
    var Read(req, tag, park) := w.flight;
    match Decide(park, LoadState(w.files, park), req.offer, req.now, opens)
    case Answer(reply) => TallyOne(Response(req, Some(park), reply), id, kind);
    case Write(next, reply) =>
  }

  predicate Early(step: Step) { step.TurnAway? || step.Peek? || step.ReadPark? }

  /** The request turns away before it holds a park, so it charges none. */
  lemma EarlyStepsHoldNoPark(w: World, step: Step)
    requires Early(step)
    ensures var f := Apply(w, step).flight;
            && Apply(w, step) == w.(flight := f)
            && (f != w.flight ==> Undelivered(w.flight) == [] && (f.Peeked? || f.Read? || (f.Logging? && f.park == None)))
  {
  }

  lemma NoParkCostsNothing(f: Flight, id: ParkId, kind: Kind)
    requires f.Peeked? || f.Read? || (f.Logging? && f.park == None)
    ensures Tally(Undelivered(f), id, kind) == 0
  {
    if f.Logging? {
      TallyOne(Undelivered(f)[0], id, kind);
    }
  }

  lemma EarlyStepsCostNothing(w: World, step: Step, id: ParkId, kind: Kind)
    requires Early(step) && Balanced(w, id, kind)
    ensures Balanced(Apply(w, step), id, kind)
  {
    var f := Apply(w, step).flight;
    EarlyStepsHoldNoPark(w, step);
    if f != w.flight {
      NoParkCostsNothing(f, id, kind);
    }
  }

  lemma OnDiskFrom(w: World, v: World, id: ParkId, kind: Kind)
    requires v.files == w.files && v.issued == w.issued
    ensures OnDisk(v, id, kind) == OnDisk(w, id, kind)
  {
  }

  lemma CrashCuts(w: World)
    ensures var v := Apply(w, Crash);
            && v.files == w.files && v.issued == w.issued && v.sent == w.sent
            && v.unsent == w.unsent + Undelivered(w.flight) && v.flight == Idle
  {
  }

  lemma CrashConserves(w: World, id: ParkId, kind: Kind)
    requires Balanced(w, id, kind)
    ensures Balanced(Apply(w, Crash), id, kind)
  {
    var v := Apply(w, Crash);
    CrashCuts(w);
    OnDiskFrom(w, v, id, kind);
    TallyConcat(w.unsent, Undelivered(w.flight), id, kind);
  }

  lemma SendConserves(w: World, id: ParkId, kind: Kind)
    requires Balanced(w, id, kind)
    ensures Balanced(Apply(w, Send), id, kind)
  {
    var v := Apply(w, Send);
    if w.flight.Replying? {
      assert v.sent == w.sent + Undelivered(w.flight) && Undelivered(v.flight) == [];
      TallyConcat(w.sent, Undelivered(w.flight), id, kind);
    }
  }

  lemma PublisherConserves(w: World, step: Step, id: ParkId, kind: Kind)
    requires Publishing(step) && FilesOk(w) && Balanced(w, id, kind)
    ensures Balanced(Apply(w, step), id, kind)
  {
    assert step.ParkBegin? && step.park.id !in w.issued ==> Key(step.park) !in w.files.states;
  }

  lemma QuietStepConserves(w: World, step: Step, id: ParkId, kind: Kind)
    requires step.Unlink? || step.Append?
    requires Balanced(w, id, kind)
    ensures Balanced(Apply(w, step), id, kind)
  {
  }

  lemma WriteStepConserves(w: World, step: Step, id: ParkId, kind: Kind)
    requires step.WriteState? && FilesOk(w) && FlightOk(w) && Balanced(w, id, kind)
    ensures Balanced(Apply(w, step), id, kind)
  {
    if w.flight.Writing? {
      WriteConserves(w, id, kind);
    }
  }

  lemma JudgeStepConserves(w: World, step: Step, id: ParkId, kind: Kind)
    requires step.Judge? && Balanced(w, id, kind)
    ensures Balanced(Apply(w, step), id, kind)
  {
    if w.flight.Read? {
      JudgeCostsNothing(w, step.opens, id, kind);
    }
  }

  lemma StepConserves(w: World, step: Step, id: ParkId, kind: Kind)
    requires FilesOk(w) && FlightOk(w) && Balanced(w, id, kind)
    ensures Balanced(Apply(w, step), id, kind)
  {
    if Publishing(step) {
      PublisherConserves(w, step, id, kind);
    } else if Early(step) {
      EarlyStepsCostNothing(w, step, id, kind);
    } else if step.WriteState? {
      WriteStepConserves(w, step, id, kind);
    } else if step.Judge? {
      JudgeStepConserves(w, step, id, kind);
    } else if step == Send {
      SendConserves(w, id, kind);
    } else if step == Crash {
      CrashConserves(w, id, kind);
    } else {
      QuietStepConserves(w, step, id, kind);
    }
  }

  lemma StepKeepsInv(w: World, step: Step)
    requires Inv(w)
    ensures Inv(Apply(w, step))
  {
    StepKeepsFiles(w, step);
    StepKeepsFlight(w, step);
    StepKeepsHonest(w, step);
    forall id: ParkId, kind: Kind ensures Balanced(Apply(w, step), id, kind) {
      StepConserves(w, step, id, kind);
    }
  }

  lemma {:induction false} RunKeepsInv(w: World, steps: seq<Step>)
    requires Inv(w)
    ensures Inv(Run(w, steps))
    decreases |steps|
  {
    if steps != [] {
      StepKeepsInv(w, steps[0]);
      RunKeepsInv(Apply(w, steps[0]), steps[1..]);
    }
  }

  // ---------------------------------------------------------------- safety over every run

  lemma ReachableInv(steps: seq<Step>)
    ensures Inv(Run(Empty(), steps))
  {
    RunKeepsInv(Empty(), steps);
  }

  lemma {:induction false} TallyCounts(rs: seq<Response>, i: nat, j: nat, id: ParkId, kind: Kind)
    requires i < j < |rs| && Hits(rs[i], id, kind) && Hits(rs[j], id, kind)
    ensures Tally(rs, id, kind) >= 2
  {
    var front := rs[..|rs| - 1];
    if j < |rs| - 1 {
      TallyCounts(front, i, j, id, kind);
    } else {
      TallyCountsOne(front, i, id, kind);
    }
  }

  lemma {:induction false} TallyCountsOne(rs: seq<Response>, i: nat, id: ParkId, kind: Kind)
    requires i < |rs| && Hits(rs[i], id, kind)
    ensures Tally(rs, id, kind) >= 1
  {
    if i < |rs| - 1 {
      TallyCountsOne(rs[..|rs| - 1], i, id, kind);
    }
  }

  /** To the issued park of that station: its own credential, for a code whose digest is
      the park's, before it expires. */
  ghost predicate RightlyServed(w: World, r: Response) {
    && r.park.Some? && r.park.value.id in w.issued
    && var park := w.issued[r.park.value.id];
       && park.station == r.req.station && r.reply == Served(park.sealed) && r.req.now < park.expiresAt
       && r.req.offer.Text?
       && exists code :: NormaliseCode(r.req.offer.text) == Some(code) && Digest(park.salt, code) == park.digest
  }

  lemma HonestIsRight(w: World, r: Response)
    requires Honest(r) && r.reply.Served? && Known(w, r.park.value)
    ensures RightlyServed(w, r)
  {
    assert NormaliseCode(r.req.offer.text) == Some(NormaliseCode(r.req.offer.text).value);
  }

  /** Whatever the publisher does, wherever the process dies: a park serves its
      credential at most once, to the code that opens it, before it expires. */
  lemma AtMostOneCredential(steps: seq<Step>, i: nat, j: nat)
    requires var sent := Run(Empty(), steps).sent;
             i < |sent| && j < |sent| && sent[i].reply.Served? && sent[j].reply.Served?
    ensures var sent := Run(Empty(), steps).sent;
            && RightlyServed(Run(Empty(), steps), sent[i]) && RightlyServed(Run(Empty(), steps), sent[j])
            && (sent[i].park.value.id == sent[j].park.value.id ==> i == j)
  {
    ReachableInv(steps);
    var w := Run(Empty(), steps);
    HonestIsRight(w, w.sent[i]);
    HonestIsRight(w, w.sent[j]);
    var id := w.sent[i].park.value.id;
    assert Balanced(w, id, Serving);
    if id == w.sent[j].park.value.id && i != j {
      TallyCounts(w.sent, if i < j then i else j, if i < j then j else i, id, Serving);
    }
  }

  /** The guesses answered as wrong never outnumber the attempts on disk, and
      those never exceed the park's limit (or one, when the limit is below one). */
  lemma GuessesAreCapped(steps: seq<Step>, id: ParkId)
    ensures var w := Run(Empty(), steps);
            && Tally(w.sent, id, Failing) <= OnDisk(w, id, Failing)
            && (OnDisk(w, id, Failing) > 0 ==> id in w.issued && OnDisk(w, id, Failing) <= Cap(w.issued[id]))
  {
    ReachableInv(steps);
    assert Balanced(Run(Empty(), steps), id, Failing);
  }

  /** The burn limit, from the park record alone: five where it names none, one where it
      names less than one. No state file passes it, it is reached exactly by burning,
      and the state file carries what the record says. */
  lemma BurnLimit(steps: seq<Step>, id: ParkId)
    requires var w := Run(Empty(), steps);
      id in w.issued && (w.issued[id].station, id) in w.files.states
    ensures var park := Run(Empty(), steps).issued[id];
      var state := Run(Empty(), steps).files.states[(park.station, id)];
      && state.station == park.station && state.id == id && state.digest == park.digest && state.expiresAt == park.expiresAt
      && state.maxAttempts == (if park.maxAttempts.None? then 5 else park.maxAttempts.value)
      && 0 <= state.attempts <= (if state.maxAttempts < 1 then 1 else state.maxAttempts)
      && (state.attempts == (if state.maxAttempts < 1 then 1 else state.maxAttempts) <==> state.status == Burned)
  {
    ReachableInv(steps);
    var w := Run(Empty(), steps);
    assert Key(w.issued[id]) in w.files.states;
  }

  lemma StepKeepsVerdict(w: World, step: Step, key: StateKey)
    requires Inv(w) && key in w.files.states
    ensures var v := Apply(w, step);
            && key in v.files.states
            && v.files.states[key].attempts >= w.files.states[key].attempts
            && (w.files.states[key].status != Live ==> v.files.states[key] == w.files.states[key])
  {
    if step.WriteState? && w.flight.Writing? {
      var Writing(req, tag, park, next, reply) := w.flight;
      LoadedState(w, park);
      DecideMoves(park, LoadState(w.files, park), req.offer, req.now, true);
    }
  }

  predicate Advances(was: State, now: State) {
    now.attempts >= was.attempts && (was.status != Live ==> now == was)
  }

  lemma {:induction false} RunKeepsVerdict(w: World, steps: seq<Step>, key: StateKey)
    requires Inv(w) && key in w.files.states
    ensures key in Run(w, steps).files.states && Advances(w.files.states[key], Run(w, steps).files.states[key])
    decreases |steps|
  {
    if steps != [] {
      StepKeepsInv(w, steps[0]);
      StepKeepsVerdict(w, steps[0], key);
      RunKeepsVerdict(Apply(w, steps[0]), steps[1..], key);
    }
  }

  /** A terminal state is final, and no crash or restart gives attempts back. */
  lemma VerdictIsFinal(before: seq<Step>, after: seq<Step>, key: StateKey)
    requires key in Run(Empty(), before).files.states
    ensures var was, now := Run(Empty(), before).files.states, Run(Empty(), before + after).files.states;
            && key in now
            && now[key].attempts >= was[key].attempts
            && (was[key].status != Live ==> now[key] == was[key])
  {
    RunConcat(Empty(), before, after);
    ReachableInv(before);
    RunKeepsVerdict(Run(Empty(), before), after, key);
  }
}
