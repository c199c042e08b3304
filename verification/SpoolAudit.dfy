/** The attempts log against the state files, line by line and over every run. */
module SpoolAudit {
  import opened Wrappers
  import opened Claim
  import opened Spool
  import opened SpoolRaces

  /** The answer whose log line is still owed. */
  function Unlogged(f: Flight): seq<Response> {
    if f.Replying? then [] else Undelivered(f)
  }

  /** By how much the log, with the lines owed and those a crash cut off, exceeds
      what the state files charge the park with. */
  function Excess(w: World, id: ParkId, kind: Kind): int {
    TallyLog(w.files.log, id, kind) + Tally(Unlogged(w.flight), id, kind) + Tally(w.unlogged, id, kind)
    - OnDisk(w, id, kind)
  }

  /** What one line adds to that: it counts for the park it names, and was charged to
      the park it judged. */
  function Misfile(f: Flight, id: ParkId, kind: Kind): int {
    if f.Logging? && f.park.Some? && OutcomeIs(OutcomeOf(f.reply), kind) then
      (if f.tag == Some(id) then 1 else 0) - (if f.park.value.id == id then 1 else 0)
    else 0
  }

  function Misfiled(steps: seq<Step>, id: ParkId, kind: Kind): int {
    if steps == [] then 0
    else
      var before, last := steps[..|steps| - 1], steps[|steps| - 1];
      Misfiled(before, id, kind) + if last.Append? then Misfile(Run(Empty(), before).flight, id, kind) else 0
  }

  // ---------------------------------------------------------------- each step's entry in the books

  lemma CrashKeepsBooks(w: World, id: ParkId, kind: Kind)
    ensures Excess(Apply(w, Crash), id, kind) == Excess(w, id, kind)
  {
    var v, owed := Apply(w, Crash), Unlogged(w.flight);
    assert w.unlogged + [] == w.unlogged;
    assert v.unlogged == w.unlogged + owed && Unlogged(v.flight) == [];
    TallyConcat(w.unlogged, owed, id, kind);
  }

  lemma AppendFilesOne(w: World, id: ParkId, kind: Kind)
    requires NoParkIsFree(w)
    ensures Excess(Apply(w, Append), id, kind) == Excess(w, id, kind) + Misfile(w.flight, id, kind)
  {
    if w.flight.Logging? {
      var Logging(req, tag, park, reply) := w.flight;
      var v := Apply(w, Append);
      assert Unlogged(v.flight) == [] && v.unlogged == w.unlogged && OnDisk(v, id, kind) == OnDisk(w, id, kind);
      TallyLogAppend(w.files.log, Line(req.station, OutcomeOf(reply), tag), id, kind);
      TallyOne(Response(req, park, reply), id, kind);
    }
  }

  lemma EarlyStepsKeepBooks(w: World, step: Step, id: ParkId, kind: Kind)
    requires Early(step)
    ensures Excess(Apply(w, step), id, kind) == Excess(w, id, kind)
  {
    var f := Apply(w, step).flight;
    EarlyStepsHoldNoPark(w, step);
    if f != w.flight {
      NoParkCostsNothing(f, id, kind);
    }
  }

  lemma WriteKeepsBooks(w: World, id: ParkId, kind: Kind)
    requires FilesOk(w) && FlightOk(w)
    ensures Excess(Apply(w, WriteState), id, kind) == Excess(w, id, kind)
  {
    if w.flight.Writing? {
      WriteConserves(w, id, kind);
    }
  }

  lemma JudgeKeepsBooks(w: World, opens: bool, id: ParkId, kind: Kind)
    ensures Excess(Apply(w, Judge(opens)), id, kind) == Excess(w, id, kind)
  {
    if w.flight.Read? {
      JudgeCostsNothing(w, opens, id, kind);
    }
  }

  lemma ParkBeginKeepsBooks(w: World, park: Park, id: ParkId, kind: Kind)
    requires FilesOk(w)
    ensures Excess(Apply(w, ParkBegin(park)), id, kind) == Excess(w, id, kind)
  {
    assert park.id !in w.issued ==> Key(park) !in w.files.states;
  }

  /** Steps that touch neither a state file, nor the log, nor what is owed to it. */
  lemma OtherStepsKeepBooks(w: World, step: Step, id: ParkId, kind: Kind)
    requires step.ParkEnd? || step.PublisherCrash? || step.Unlink? || step.Send?
    ensures Excess(Apply(w, step), id, kind) == Excess(w, id, kind)
  {
  }

  lemma StepFiles(w: World, step: Step, id: ParkId, kind: Kind)
    requires FilesOk(w) && FlightOk(w) && NoParkIsFree(w)
    ensures Excess(Apply(w, step), id, kind)
            == Excess(w, id, kind) + if step.Append? then Misfile(w.flight, id, kind) else 0
  {
    if step.Crash? {
      CrashKeepsBooks(w, id, kind);
    } else if step.Append? {
      AppendFilesOne(w, id, kind);
    } else if step.WriteState? {
      WriteKeepsBooks(w, id, kind);
    } else if step.Judge? {
      JudgeKeepsBooks(w, step.opens, id, kind);
    } else if step.ParkBegin? {
      ParkBeginKeepsBooks(w, step.park, id, kind);
    } else if Early(step) {
      EarlyStepsKeepBooks(w, step, id, kind);
    } else {
      OtherStepsKeepBooks(w, step, id, kind);
    }
  }

  /** Over every run the log differs from the state files by its misfiled lines and
      by nothing else. */
  lemma {:induction false} ExcessIsMisfiled(steps: seq<Step>, id: ParkId, kind: Kind)
    ensures Excess(Run(Empty(), steps), id, kind) == Misfiled(steps, id, kind)
  {
    if steps != [] {
      var before := steps[..|steps| - 1];
      ExcessIsMisfiled(before, id, kind);
      RunTracked(before);
      RunLast(steps);
      StepFiles(Run(Empty(), before), steps[|steps| - 1], id, kind);
    }
  }

  // ---------------------------------------------------------------- exactly when the log agrees

  /** The line about to be written charges a park, and another one was begun at
      its station between the peek and the read. */
  predicate Disturbed(steps: seq<Step>) {
    var f := Run(Empty(), steps).flight;
    f.Logging? && f.park.Some? && !Free(f.reply) && MarksOf(steps).peek
  }

  /** No line that charges a park was written for a disturbed request. */
  predicate Undisturbed(steps: seq<Step>) {
    steps == [] || (
      var before := steps[..|steps| - 1];
      Undisturbed(before) && !(steps[|steps| - 1].Append? && Disturbed(before)))
  }

  lemma MisfiledIff(w: World, m: Marks, id: ParkId, kind: Kind)
    requires Tracked(w, m) && w.flight.Logging? && w.flight.park.Some? && OutcomeIs(OutcomeOf(w.flight.reply), kind)
    ensures !m.peek ==> Misfile(w.flight, id, kind) == 0
    ensures m.peek && id == w.flight.park.value.id ==> Misfile(w.flight, id, kind) == -1 && !Gone(w, id)
    ensures Misfile(w.flight, id, kind) > 0 ==> Gone(w, id)
  {
  }

  /** A park that got a line it was not charged with is never seen again. */
  lemma {:induction false} OverfiledIsGone(steps: seq<Step>, id: ParkId, kind: Kind)
    requires Misfiled(steps, id, kind) > 0
    ensures Gone(Run(Empty(), steps), id)
  {
    var before, last := steps[..|steps| - 1], steps[|steps| - 1];
    var w := Run(Empty(), before);
    RunTracked(before);
    RunLast(steps);
    if Misfiled(before, id, kind) > 0 {
      OverfiledIsGone(before, id, kind);
    } else {
      MisfiledIff(w, MarksOf(before), id, kind);
    }
    GoneStays(w, last, id);
  }

  lemma {:induction false} UndisturbedFilesWell(steps: seq<Step>, id: ParkId, kind: Kind)
    requires Undisturbed(steps)
    ensures Misfiled(steps, id, kind) == 0
  {
    if steps != [] {
      var before := steps[..|steps| - 1];
      UndisturbedFilesWell(before, id, kind);
      RunTracked(before);
      var w := Run(Empty(), before);
      if steps[|steps| - 1].Append? && Misfile(w.flight, id, kind) != 0 {
        MisfiledIff(w, MarksOf(before), id, kind);
      }
    }
  }

  /** The park that was charged for a disturbed request stays short of a line. */
  lemma {:induction false} DisturbedLeavesShort(steps: seq<Step>) returns (id: ParkId, kind: Kind)
    requires !Undisturbed(steps)
    ensures Misfiled(steps, id, kind) < 0
  {
    var before, last := steps[..|steps| - 1], steps[|steps| - 1];
    var w := Run(Empty(), before);
    RunTracked(before);
    if last.Append? && Disturbed(before) {
      id := w.flight.park.value.id;
      kind := if OutcomeIs(OutcomeOf(w.flight.reply), Serving) then Serving else Failing;
      MisfiledIff(w, MarksOf(before), id, kind);
      if Misfiled(before, id, kind) > 0 {
        OverfiledIsGone(before, id, kind);
      }
    } else {
      id, kind := DisturbedLeavesShort(before);
      if last.Append? && Misfile(w.flight, id, kind) != 0 {
        MisfiledIff(w, MarksOf(before), id, kind);
      }
    }
  }

  /** Over every run: the log, with what is owed to it and what a crash cut off,
      counts every park exactly as the state files do, if and only if no charged
      request had a park of its station begun between its peek and its read. */
  lemma LogAgreesIff(steps: seq<Step>)
    ensures (forall id: ParkId, kind: Kind :: Excess(Run(Empty(), steps), id, kind) == 0) <==> Undisturbed(steps)
  {
    if Undisturbed(steps) {
      forall id: ParkId, kind: Kind ensures Excess(Run(Empty(), steps), id, kind) == 0 {
        AgreesWithState(steps, id, kind);
      }
    } else {
      var id, kind := DisturbedLeavesShort(steps);
      ExcessIsMisfiled(steps, id, kind);
      assert Excess(Run(Empty(), steps), id, kind) < 0;
    }
  }

  predicate CrashFree(steps: seq<Step>) {
    forall i | 0 <= i < |steps| :: !steps[i].Crash?
  }

  lemma {:induction false} CrashFreeLosesNothing(w: World, steps: seq<Step>)
    requires CrashFree(steps)
    ensures Run(w, steps).unlogged == w.unlogged
    decreases |steps|
  {
    if steps != [] {
      CrashFreeLosesNothing(Apply(w, steps[0]), steps[1..]);
    }
  }

  lemma AgreesWithState(steps: seq<Step>, id: ParkId, kind: Kind)
    requires Undisturbed(steps)
    ensures Excess(Run(Empty(), steps), id, kind) == 0
  {
    ExcessIsMisfiled(steps, id, kind);
    UndisturbedFilesWell(steps, id, kind);
  }

  /** In such a run the log never over-counts a park and never shows two claims of
      it; with no crash and no request in flight it counts exactly. */
  lemma LogAgreesWithState(steps: seq<Step>, id: ParkId, kind: Kind)
    requires Undisturbed(steps)
    ensures var w := Run(Empty(), steps);
            && TallyLog(w.files.log, id, kind) <= OnDisk(w, id, kind)
            && TallyLog(w.files.log, id, Serving) <= 1
            && (CrashFree(steps) && w.flight.Idle? ==> TallyLog(w.files.log, id, kind) == OnDisk(w, id, kind))
  {
    AgreesWithState(steps, id, kind);
    AgreesWithState(steps, id, Serving);
    ReachableInv(steps);
    if CrashFree(steps) {
      CrashFreeLosesNothing(Empty(), steps);
    }
  }

  /** A park replaced between the peek for the log line and the read that is
      judged: the failed attempt is charged to the new park and logged under the
      old one, whose log then over-counts. */
  lemma ReParkInFlightMislabels(first: Park, second: Park, req: Request)
    requires first.station == second.station == req.station && first.id != second.id
    requires Decide(second, NewState(second), req.offer, req.now, true).Write?
    requires OutcomeIs(OutcomeOf(Decide(second, NewState(second), req.offer, req.now, true).reply), Failing)
    requires Decide(second, NewState(second), req.offer, req.now, true).state.status == Live
    ensures exists steps ::
              var w := Run(Empty(), steps);
              TallyLog(w.files.log, first.id, Failing) == 1 && OnDisk(w, first.id, Failing) == 0
  {
    var steps := [ParkBegin(first), ParkEnd, Peek(req), ParkBegin(second), ParkEnd,
                  ReadPark, Judge(true), WriteState, Append];
    var Write(next, reply) := Decide(second, NewState(second), req.offer, req.now, true);
    var w2 := Apply(Apply(Apply(Empty(), ParkBegin(first)), ParkEnd), Peek(req));
    var w4 := Apply(Apply(w2, ParkBegin(second)), ParkEnd);
    var w5 := Apply(w4, ReadPark);
    var w6 := Apply(w5, Judge(true));
    assert w6.flight == Writing(req, Some(first.id), second, next, reply);
    var w7 := Apply(w6, WriteState);
    var w8 := Apply(w7, Append);
    TallyLogAppend([], Line(req.station, OutcomeOf(reply), Some(first.id)), first.id, Failing);
    assert w8.files.log == [] + [Line(req.station, OutcomeOf(reply), Some(first.id))];
    RunNine(Empty(), steps);
    assert Run(Empty(), steps) == w8;
  }

  // ---------------------------------------------------------------- a publisher that waits

  /** The publisher writes park files only between requests. */
  predicate QuietStep(w: World, step: Step) {
    step.ParkBegin? || step.ParkEnd? ==> w.flight.Idle?
  }

  predicate Quiet(w: World, steps: seq<Step>)
    decreases |steps|
  {
    steps == [] || (QuietStep(w, steps[0]) && Quiet(Apply(w, steps[0]), steps[1..]))
  }

  lemma {:induction false} QuietSnoc(w: World, steps: seq<Step>, last: Step)
    requires Quiet(w, steps + [last])
    ensures Quiet(w, steps) && QuietStep(Run(w, steps), last)
    decreases |steps|
  {
    if steps != [] {
      assert (steps + [last])[0] == steps[0] && (steps + [last])[1..] == steps[1..] + [last];
      QuietSnoc(Apply(w, steps[0]), steps[1..], last);
    }
  }

  /** Such a publisher disturbs nobody. */
  lemma {:induction false} QuietIsUndisturbed(steps: seq<Step>)
    requires Quiet(Empty(), steps)
    ensures !MarksOf(steps).peek && Undisturbed(steps)
  {
    if steps != [] {
      var before, last := steps[..|steps| - 1], steps[|steps| - 1];
      assert steps == before + [last];
      QuietSnoc(Empty(), before, last);
      QuietIsUndisturbed(before);
    }
  }
}
