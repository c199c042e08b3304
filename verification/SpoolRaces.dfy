/** The two races with the publisher that the single-writer argument does not
    cover, and exactly when they are lost: a park replaced between the peek for
    the log line and the read, and one replaced between the read and the unlink. */
module SpoolRaces {
  import opened Wrappers
  import opened Claim
  import opened Spool

  function OnShelf(w: World, station: string): Option<ParkFile> {
    if station in w.files.parks then Some(w.files.parks[station]) else None
  }

  predicate Holding(f: Flight) { f.Read? || f.Writing? || f.Unlinking? }

  /** The park the request judges, from its read to its log line. */
  function Carried(f: Flight): Option<Park> {
    if Holding(f) then Some(f.held) else if f.Logging? then f.park else None
  }

  // ---------------------------------------------------------------- what the publisher does meanwhile

  /** The publisher starts a park for the station: the file is truncated. */
  predicate Begins(w: World, step: Step, station: string) {
    step.ParkBegin? && step.park.station == station && w.publishing.None? && step.park.id !in w.issued
  }

  /** `peek`: a park of the request's station was begun between its peek and its read.
      `read`: one was begun since its read. */
  datatype Marks = Marks(peek: bool, read: bool)

  function Mark(w: World, m: Marks, step: Step): Marks {
    if step.Peek? then if w.flight.Idle? then Marks(false, false) else m
    else if step.ReadPark? then if w.flight.Peeked? then m.(read := false) else m
    else if w.flight.Peeked? then m.(peek := m.peek || Begins(w, step, w.flight.req.station))
    else if Holding(w.flight) then m.(read := m.read || Begins(w, step, w.flight.held.station))
    else m
  }

  function MarksOf(steps: seq<Step>): Marks {
    if steps == [] then Marks(false, false)
    else
      var before := steps[..|steps| - 1];
      Mark(Run(Empty(), before), MarksOf(before), steps[|steps| - 1])
  }

  // ---------------------------------------------------------------- what every step keeps

  predicate WholeAt(w: World, station: string) {
    station in w.files.parks && w.files.parks[station].Whole?
  }

  /** No file, no publisher and no request will ever show this park again. */
  ghost predicate Gone(w: World, id: ParkId) {
    && id in w.issued
    && (forall st | WholeAt(w, st) :: w.files.parks[st].park.id != id)
    && (w.publishing.Some? ==> w.publishing.value.id != id)
    && (Carried(w.flight).Some? ==> Carried(w.flight).value.id != id)
  }

  /** A park being written is on no shelf yet, in no hands and in no state file. */
  ghost predicate PendingOk(w: World) {
    w.publishing.Some? ==>
      var p := w.publishing.value;
      && !WholeAt(w, p.station)
      && (forall st | WholeAt(w, st) :: w.files.parks[st].park.id != p.id)
      && (Carried(w.flight).Some? ==> Carried(w.flight).value.id != p.id)
      && Key(p) !in w.files.states
  }

  ghost predicate CarriedOk(w: World) {
    Carried(w.flight).Some? ==> Known(w, Carried(w.flight).value)
  }

  predicate Tagged(f: Flight) { f.Peeked? || Holding(f) || f.Logging? }

  /** The tag names a park of the request's station. */
  ghost predicate TagKnown(w: World) {
    Tagged(w.flight) && w.flight.tag.Some? ==>
      w.flight.tag.value in w.issued && w.issued[w.flight.tag.value].station == w.flight.req.station
  }

  /** Undisturbed, the tag is the park on the shelf and then the park judged;
      disturbed, it names a park nobody will see again. */
  ghost predicate TagOk(w: World, disturbed: bool) {
    && (Tagged(w.flight) && disturbed && w.flight.tag.Some? ==> Gone(w, w.flight.tag.value))
    && (w.flight.Peeked? && !disturbed ==>
          match OnShelf(w, w.flight.req.station)
          case None => w.flight.tag == None
          case Some(Whole(park)) => w.flight.tag == Some(park.id)
          case Some(Torn) => false)
    && (Carried(w.flight).Some? && !disturbed ==> w.flight.tag == Some(Carried(w.flight).value.id))
  }

  predicate Free(reply: Reply) {
    !OutcomeIs(OutcomeOf(reply), Serving) && !OutcomeIs(OutcomeOf(reply), Failing)
  }

  ghost predicate NoParkIsFree(w: World) {
    w.flight.Logging? && w.flight.park.None? ==> Free(w.flight.reply)
  }

  /** Undisturbed since the read, the file on the shelf is the park in hand;
      disturbed, it is not, and whatever is there was never judged. */
  ghost predicate ShelfOk(w: World, disturbed: bool) {
    Holding(w.flight) ==>
      var shelf := OnShelf(w, w.flight.held.station);
      if !disturbed then shelf == Some(Whole(w.flight.held))
      else
        && shelf != Some(Whole(w.flight.held))
        && (shelf.Some? && shelf.value.Whole? ==> Key(shelf.value.park) !in w.files.states)
  }

  ghost predicate Sound(w: World) {
    FilesOk(w) && FlightOk(w) && CarriedOk(w) && PendingOk(w) && TagKnown(w) && NoParkIsFree(w)
  }

  lemma PublisherKeepsPending(w: World, step: Step)
    requires Sound(w) && Publishing(step)
    ensures PendingOk(Apply(w, step)) && CarriedOk(Apply(w, step))
  {
  }

  /** A request touches no publication; the park it takes in hand is on the shelf. */
  lemma RequestShape(w: World, step: Step)
    requires Sound(w) && !Publishing(step)
    ensures var v := Apply(w, step);
      && v.publishing == w.publishing && v.issued == w.issued
      && (forall st | WholeAt(v, st) :: WholeAt(w, st) && v.files.parks[st] == w.files.parks[st])
      && (step.Unlink? || v.files.parks == w.files.parks)
      && (Carried(v.flight).Some? ==>
            || Carried(w.flight) == Carried(v.flight)
            || (step.ReadPark? && OnShelf(w, w.flight.req.station) == Some(Whole(Carried(v.flight).value))))
  {
  }

  /** The one state file a step can add is that of the park in hand. */
  lemma StatesShape(w: World, step: Step, key: StateKey)
    requires Sound(w) && key !in w.files.states
    requires Carried(w.flight).Some? ==> key != Key(Carried(w.flight).value)
    ensures key !in Apply(w, step).files.states
  {
    if step.WriteState? && w.flight.Writing? {
      var Writing(req, tag, park, next, reply) := w.flight;
      LoadedState(w, park);
      DecideMoves(park, LoadState(w.files, park), req.offer, req.now, true);
    }
  }

  lemma RequestKeepsPending(w: World, step: Step)
    requires Sound(w) && !Publishing(step)
    ensures PendingOk(Apply(w, step)) && CarriedOk(Apply(w, step))
  {
    RequestShape(w, step);
    if w.publishing.Some? {
      StatesShape(w, step, Key(w.publishing.value));
    }
    if step.ReadPark? && w.flight.Peeked? {
      assert WholeAt(w, w.flight.req.station) ==> Known(w, w.files.parks[w.flight.req.station].park);
    }
  }

  lemma GoneStays(w: World, step: Step, id: ParkId)
    requires Sound(w) && Gone(w, id)
    ensures Gone(Apply(w, step), id)
  {
    if !Publishing(step) {
      RequestShape(w, step);
      if step.ReadPark? && w.flight.Peeked? {
        assert WholeAt(w, w.flight.req.station) ==> w.files.parks[w.flight.req.station].park.id != id;
      }
    }
  }

  lemma PublisherKeepsTagKnown(w: World, step: Step)
    requires Sound(w) && Publishing(step)
    ensures TagKnown(Apply(w, step)) && NoParkIsFree(Apply(w, step))
  {
  }

  lemma RequestKeepsTagKnown(w: World, step: Step)
    requires Sound(w) && !Publishing(step)
    ensures TagKnown(Apply(w, step)) && NoParkIsFree(Apply(w, step))
  {
  }

  lemma PublisherKeepsTag(w: World, m: Marks, step: Step)
    requires Sound(w) && TagOk(w, m.peek) && Publishing(step)
    ensures TagOk(Apply(w, step), Mark(w, m, step).peek)
  {
    if Tagged(w.flight) && w.flight.tag.Some? && m.peek {
      GoneStays(w, step, w.flight.tag.value);
    }
  }

  lemma EarlyStepKeepsTag(w: World, m: Marks, step: Step)
    requires Sound(w) && TagOk(w, m.peek) && Early(step)
    ensures TagOk(Apply(w, step), Mark(w, m, step).peek)
  {
    if Tagged(w.flight) && w.flight.tag.Some? && m.peek {
      GoneStays(w, step, w.flight.tag.value);
    }
  }

  lemma LateStepKeepsTag(w: World, m: Marks, step: Step)
    requires Sound(w) && TagOk(w, m.peek) && !Publishing(step) && !Early(step)
    ensures TagOk(Apply(w, step), Mark(w, m, step).peek)
  {
    if Tagged(w.flight) && w.flight.tag.Some? && m.peek {
      GoneStays(w, step, w.flight.tag.value);
    }
  }

  lemma PublisherKeepsShelf(w: World, m: Marks, step: Step)
    requires Sound(w) && ShelfOk(w, m.read) && Publishing(step)
    ensures ShelfOk(Apply(w, step), Mark(w, m, step).read)
  {
  }

  lemma RequestKeepsShelf(w: World, m: Marks, step: Step)
    requires Sound(w) && ShelfOk(w, m.read) && !Publishing(step)
    ensures ShelfOk(Apply(w, step), Mark(w, m, step).read)
  {
    if Holding(w.flight) && WholeAt(w, w.flight.held.station) {
      var q := w.files.parks[w.flight.held.station].park;
      if q != w.flight.held && Key(q) !in w.files.states {
        StatesShape(w, step, Key(q));
      }
    }
  }

  ghost predicate Tracked(w: World, m: Marks) {
    Inv(w) && Sound(w) && TagOk(w, m.peek) && ShelfOk(w, m.read)
  }

  lemma StepKeepsTracked(w: World, m: Marks, step: Step)
    requires Tracked(w, m)
    ensures Tracked(Apply(w, step), Mark(w, m, step))
  {
    StepKeepsInv(w, step);
    if Publishing(step) {
      PublisherKeepsTagKnown(w, step);
      PublisherKeepsPending(w, step);
      PublisherKeepsTag(w, m, step);
      PublisherKeepsShelf(w, m, step);
    } else {
      RequestKeepsTagKnown(w, step);
      RequestKeepsPending(w, step);
      RequestKeepsShelf(w, m, step);
      if Early(step) {
        EarlyStepKeepsTag(w, m, step);
      } else {
        LateStepKeepsTag(w, m, step);
      }
    }
  }

  lemma RunSnoc(w: World, steps: seq<Step>, last: Step)
    ensures Run(w, steps + [last]) == Apply(Run(w, steps), last)
  {
    RunConcat(w, steps, [last]);
    assert Run(Run(w, steps), [last]) == Apply(Run(w, steps), last);
  }

  lemma RunLast(steps: seq<Step>)
    requires steps != []
    ensures Run(Empty(), steps) == Apply(Run(Empty(), steps[..|steps| - 1]), steps[|steps| - 1])
  {
    var before, last := steps[..|steps| - 1], steps[|steps| - 1];
    assert before + [last] == steps;
    RunSnoc(Empty(), before, last);
  }

  lemma {:induction false} RunTracked(steps: seq<Step>)
    ensures Tracked(Run(Empty(), steps), MarksOf(steps))
  {
    if steps != [] {
      var before := steps[..|steps| - 1];
      RunTracked(before);
      RunLast(steps);
      StepKeepsTracked(Run(Empty(), before), MarksOf(before), steps[|steps| - 1]);
    }
  }

  // ---------------------------------------------------------------- the two exact conditions

  /** Over every run: the log line will name the park judged exactly when no park of
      the station was begun between the peek and the read. */
  lemma TagNamesJudgedIff(steps: seq<Step>)
    ensures var w := Run(Empty(), steps);
      Carried(w.flight).Some? ==>
        (w.flight.tag == Some(Carried(w.flight).value.id) <==> !MarksOf(steps).peek)
  {
    RunTracked(steps);
  }

  /** Over every run: from the read to the unlink, the file on the shelf is the park
      being judged exactly when no park of the station was begun since the read. */
  lemma ShelfHoldsJudgedIff(steps: seq<Step>)
    ensures var w := Run(Empty(), steps);
      Holding(w.flight) ==>
        (OnShelf(w, w.flight.held.station) == Some(Whole(w.flight.held)) <==> !MarksOf(steps).read)
  {
    RunTracked(steps);
  }

  /** So a park file that disappears had been judged and closed exactly when no park
      of its station was begun since the deleting request read; otherwise nothing
      ever judged it. */
  lemma DeletedParkIsDeadIff(steps: seq<Step>, last: Step, station: string)
    requires WholeAt(Run(Empty(), steps), station)
    requires OnShelf(Run(Empty(), steps + [last]), station).None?
    ensures var (states, park) := (Run(Empty(), steps).files.states, Run(Empty(), steps).files.parks[station].park);
      && (Key(park) in states && states[Key(park)].status != Live <==> !MarksOf(steps).read)
      && (MarksOf(steps).read ==> Key(park) !in states)
  {
    RunTracked(steps);
    RunSnoc(Empty(), steps, last);
    var w := Run(Empty(), steps);
    assert last.Unlink? && w.flight.Unlinking? && w.flight.held.station == station;
  }

  // ---------------------------------------------------------------- the two races, concretely

  /** Any redemption that is still between reading the park and deleting its file
      when the publisher parks again deletes the new park, which no request ever
      judged: the new code is printed and can never be claimed. */
  lemma ReParkInFlightIsLost(first: Park, second: Park, req: Request)
    requires first.station == second.station == req.station && first.id != second.id
    requires Decide(first, NewState(first), req.offer, req.now, true).Write?
    requires Decide(first, NewState(first), req.offer, req.now, true).state.status != Live
    ensures exists steps ::
              var w := Run(Empty(), steps);
              && Known(w, second) && w.publishing.None?
              && Key(second) !in w.files.states
              && OnShelf(w, second.station).None?
  {
    var Write(next, reply) := Decide(first, NewState(first), req.offer, req.now, true);
    var steps := [ParkBegin(first), ParkEnd, Peek(req), ReadPark, Judge(true),
                  ParkBegin(second), ParkEnd, WriteState, Unlink];
    var w0 := Apply(Empty(), ParkBegin(first));
    var w1 := Apply(w0, ParkEnd);
    var w2 := Apply(w1, Peek(req));
    var w3 := Apply(w2, ReadPark);
    var w4 := Apply(w3, Judge(true));
    assert w4.flight == Writing(req, Some(first.id), first, next, reply);
    var w5 := Apply(w4, ParkBegin(second));
    var w6 := Apply(w5, ParkEnd);
    var w7 := Apply(w6, WriteState);
    var w8 := Apply(w7, Unlink);
    RunNine(Empty(), steps);
    assert Run(Empty(), steps) == w8;
  }

  lemma RunNext(w: World, s: seq<Step>, n: nat)
    requires n < |s|
    ensures Run(w, s[..n + 1]) == Apply(Run(w, s[..n]), s[n])
  {
    assert s[..n + 1] == s[..n] + [s[n]];
    RunSnoc(w, s[..n], s[n]);
  }

  lemma RunNine(w: World, s: seq<Step>)
    requires |s| == 9
    ensures Run(w, s) == Apply(Apply(Apply(Apply(Apply(Apply(Apply(Apply(Apply(
              w, s[0]), s[1]), s[2]), s[3]), s[4]), s[5]), s[6]), s[7]), s[8])
  {
    forall n: nat | n < 9 ensures Run(w, s[..n + 1]) == Apply(Run(w, s[..n]), s[n]) { RunNext(w, s, n); }
    assert s[..0] == [] && s[..9] == s;
    assert Run(w, s[..3]) == Apply(Apply(Apply(w, s[0]), s[1]), s[2]);
    assert Run(w, s[..6]) == Apply(Apply(Apply(Run(w, s[..3]), s[3]), s[4]), s[5]);
  }
}
