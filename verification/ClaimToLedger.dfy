/** From a park's state file to the publisher's ledger: what the state files charge a
    park with is what the ledger says of it once the log was copied back. */
module ClaimToLedger {
  import opened Wrappers
  import opened Ordering
  import opened Claim
  import opened Spool
  import opened SpoolRaces
  import opened SpoolAudit
  import opened CredentialLedger
  import E = EdgeToLedger
  import A = Attempts

  // ---------------------------------------------------------------- one line, as it is written

  function RefusalText(reason: Claim.Refusal): string {
    match reason
    case NoPark => "no-park"
    case WrongCode => "wrong-code"
    case TooLate => "expired"
    case BurnedOut => "burned"
    case Spent => "spent"
    case Malformed => "malformed"
    case RateLimited => "rate-limited"
    case ParkRateLimited => "park-rate-limited"
  }

  /** An error is logged with its own text behind `error:`. */
  predicate Says(outcome: Outcome, text: string) {
    match outcome
    case Claimed => text == "claimed"
    case Turned(reason) => text == RefusalText(reason)
    case Error => |text| >= 6 && text[..6] == "error:"
  }

  function Texts(kind: Kind): set<string> {
    if kind == Serving then {"claimed"} else {"wrong-code", "burned"}
  }

  lemma SaysItsKind(outcome: Outcome, text: string, kind: Kind)
    requires Says(outcome, text)
    ensures OutcomeIs(outcome, kind) <==> text in Texts(kind)
  {
    if outcome == Error {
      assert text[0] == text[..6][0] == 'e';
    } else if outcome.Turned? {
      assert RefusalText(NoPark)[0] == 'n' && RefusalText(TooLate)[0] == 'e' && RefusalText(Spent)[0] == 's';
      assert RefusalText(Malformed)[0] == 'm' && RefusalText(RateLimited)[0] == 'r' && RefusalText(ParkRateLimited)[0] == 'p';
    }
  }

  /** No text stands for two outcomes. */
  lemma SaysOneThing(a: Outcome, b: Outcome, text: string)
    requires Says(a, text) && Says(b, text)
    ensures a == b
  {
    Marked(a, text);
    Marked(b, text);
  }

  /** The first two letters tell the outcome. */
  lemma Marked(outcome: Outcome, text: string)
    requires Says(outcome, text)
    ensures |text| >= 2
    ensures text[..2] ==
      match outcome
      case Claimed => "cl"
      case Turned(NoPark) => "no"
      case Turned(WrongCode) => "wr"
      case Turned(TooLate) => "ex"
      case Turned(BurnedOut) => "bu"
      case Turned(Spent) => "sp"
      case Turned(Malformed) => "ma"
      case Turned(RateLimited) => "ra"
      case Turned(ParkRateLimited) => "pa"
      case Error => "er"
  {
    if outcome == Error {
      assert text[..2] == text[..6][..2];
    }
  }

  /** Park ids are written as texts, different ones differently. */
  ghost predicate Injective(name: ParkId -> string) {
    forall a, b :: name(a) == name(b) ==> a == b
  }

  predicate Writes(written: E.LogLine, line: Line, name: ParkId -> string) {
    && written.Row? && written.event.ts != ""
    && written.event.station == line.station && Says(line.outcome, written.event.outcome)
    && written.event.parkId == if line.parkId.Some? then Some(name(line.parkId.value)) else None
  }

  /** The file holds the machine's lines, numbered and stamped. */
  ghost predicate Records(log: seq<E.LogLine>, lines: seq<Line>, name: ParkId -> string) {
    |log| == |lines| && forall i | 0 <= i < |log| :: Writes(log[i], lines[i], name)
  }

  function TextFor(outcome: Outcome): string {
    match outcome
    case Claimed => "claimed"
    case Turned(reason) => RefusalText(reason)
    case Error => "error:"
  }

  /** One way to write a line. */
  function Written(line: Line, name: ParkId -> string, ts: string): E.Attempt {
    E.Attempt(ts, line.station, TextFor(line.outcome), "",
              if line.parkId.Some? then Some(name(line.parkId.value)) else None, None)
  }

  /** One request after another: each takes its number and writes its line. */
  function Numbering(lines: seq<Line>, name: ParkId -> string, ts: string): seq<A.Step<E.Attempt>> {
    if lines == [] then []
    else
      Numbering(lines[..|lines| - 1], name, ts)
      + [A.Allocate(0, Written(lines[|lines| - 1], name, ts)), A.Write(0)]
  }

  lemma OneMoreLine(m: A.Machine<E.Attempt>, event: E.Attempt)
    requires m.inflight == map[]
    ensures var v := A.Run(m, [A.Allocate(0, event), A.Write(0)]);
            v.inflight == map[] && |v.lines| == |m.lines| + 1 && v.lines[..|m.lines|] == m.lines
            && v.lines[|m.lines|].Row? && v.lines[|m.lines|].event == event
  {
    var steps := [A.Allocate(0, event), A.Write(0)];
    var m1 := A.Apply(m, steps[0]);
    assert m1.inflight == map[0 := A.Row(event, A.NextSeq(m.counter, m.lines))];
    assert steps[1..] == [A.Write(0)] && steps[1..][1..] == [];
    assert A.Run(m, steps) == A.Run(m1, steps[1..]) == A.Apply(m1, A.Write(0));
  }

  /** Whatever the machine's lines, some run of the numbering machine writes them. */
  lemma {:induction false} EveryLogIsRecorded(lines: seq<Line>, name: ParkId -> string, ts: string)
    requires ts != ""
    ensures var m := A.Run(A.Start<E.Attempt>(), Numbering(lines, name, ts));
            m.inflight == map[] && Records(m.lines, lines, name)
  {
    if lines != [] {
      var before, last := lines[..|lines| - 1], lines[|lines| - 1];
      var m := A.Run(A.Start<E.Attempt>(), Numbering(before, name, ts));
      var steps := [A.Allocate(0, Written(last, name, ts)), A.Write(0)];
      EveryLogIsRecorded(before, name, ts);
      A.RunConcat(A.Start<E.Attempt>(), Numbering(before, name, ts), steps);
      OneMoreLine(m, Written(last, name, ts));
      var v := A.Run(m, steps);
      forall i | 0 <= i < |lines| ensures Writes(v.lines[i], lines[i], name) {
        if i < |before| {
          assert v.lines[i] == v.lines[..|m.lines|][i] && before[i] == lines[i];
        }
      }
    }
  }

  // ---------------------------------------------------------------- a line names its park's station

  ghost predicate Located(w: World, line: Line) {
    line.parkId.Some? ==> line.parkId.value in w.issued && w.issued[line.parkId.value].station == line.station
  }

  lemma IssuedStays(w: World, step: Step, id: ParkId)
    requires id in w.issued
    ensures id in Apply(w, step).issued && Apply(w, step).issued[id] == w.issued[id]
  {
  }

  lemma LogGrows(w: World, step: Step, i: nat)
    requires TagKnown(w) && i < |Apply(w, step).files.log|
    ensures i < |w.files.log| ==> Apply(w, step).files.log[i] == w.files.log[i]
    ensures i >= |w.files.log| ==> Located(w, Apply(w, step).files.log[i])
  {
  }

  lemma {:induction false} LinesAreLocated(steps: seq<Step>, i: nat)
    requires i < |Run(Empty(), steps).files.log|
    ensures Located(Run(Empty(), steps), Run(Empty(), steps).files.log[i])
  {
    if steps != [] {
      var before, last := steps[..|steps| - 1], steps[|steps| - 1];
      var w := Run(Empty(), before);
      RunTracked(before);
      RunLast(steps);
      LogGrows(w, last, i);
      if i < |w.files.log| {
        LinesAreLocated(before, i);
      }
      var line := Apply(w, last).files.log[i];
      if line.parkId.Some? {
        IssuedStays(w, last, line.parkId.value);
      }
    }
  }

  // ---------------------------------------------------------------- counting rows

  /** A row that charges the park: its id, and one of the outcomes of the kind. */
  predicate Charges(row: Event, text: string, kind: Kind) {
    && Field(row, "park_id") == Value.Text(text)
    && Field(row, "outcome").Text? && Field(row, "outcome").text in Texts(kind)
  }

  function ChargesOf(text: string, kind: Kind): Event -> bool { row => Charges(row, text, kind) }

  lemma RowFields(line: E.LogLine)
    requires line.Row?
    ensures var row := RowOf(E.Grouped(line));
      && Field(row, "outcome") == Value.Text(line.event.outcome)
      && Field(row, "park_id") == if line.event.parkId.Some? then Value.Text(line.event.parkId.value) else Null
  {
    var e := E.Grouped(line);
    assert "outcome" in e && e["outcome"] == Value.Text(line.event.outcome);
    assert "park_id" in e && e["park_id"] == E.TextOrNull(line.event.parkId);
  }

  lemma LineCharges(written: E.LogLine, line: Line, name: ParkId -> string, id: ParkId, kind: Kind)
    requires Injective(name) && Writes(written, line, name)
    ensures Charges(RowOf(E.Grouped(written)), name(id), kind)
            <==> line.parkId == Some(id) && OutcomeIs(line.outcome, kind)
  {
    RowFields(written);
    SaysItsKind(line.outcome, written.event.outcome, kind);
  }

  lemma {:induction false} TallyIsCount(log: seq<E.LogLine>, lines: seq<Line>, name: ParkId -> string,
                                        station: string, id: ParkId, kind: Kind)
    requires Injective(name) && Records(log, lines, name)
    requires forall i | 0 <= i < |lines| && lines[i].parkId == Some(id) :: lines[i].station == station
    ensures |Only(ChargesOf(name(id), kind), E.RowsOf(E.StationBatch(log, station)))| == TallyLog(lines, id, kind)
  {
    if log != [] {
      var n := |log| - 1;
      var before := E.StationBatch(log[..n], station);
      TallyIsCount(log[..n], lines[..n], name, station, id, kind);
      LineCharges(log[n], lines[n], name, id, kind);
      if E.Names(log[n], station) {
        var row := RowOf(E.Grouped(log[n]));
        assert E.RowsOf(before + [E.Grouped(log[n])]) == E.RowsOf(before) + [row];
        OnlyAppend(ChargesOf(name(id), kind), E.RowsOf(before), row);
      } else {
        assert before + [] == before;
      }
    }
  }

  /** Over every run of the claim edge: the rows of the ledger that charge a park are
      as many as the lines of the edge's log that do. */
  lemma LedgerCountsLines(steps: seq<Step>, log: seq<E.LogLine>, name: ParkId -> string, ds: seq<E.Delivery>,
                          id: ParkId, kind: Kind)
    requires var w := Run(Empty(), steps);
      && id in w.issued && Injective(name) && Records(log, w.files.log, name)
      && E.Numbered(log) && E.DeliveredFrom(ds, log)
      && forall line | line in log && E.Names(line, w.issued[id].station) :: E.CopiedBack(ds, w.issued[id].station, line)
    ensures var w := Run(Empty(), steps);
      |Only(ChargesOf(name(id), kind), E.Claims(ds, w.issued[id].station))| == TallyLog(w.files.log, id, kind)
  {
    var w := Run(Empty(), steps);
    var station := w.issued[id].station;
    E.AttemptsEqualRows(log, ds, station);
    SortOnly(RowLeq, ChargesOf(name(id), kind), E.RowsOf(E.StationBatch(log, station)));
    forall i | 0 <= i < |w.files.log| && w.files.log[i].parkId == Some(id) ensures w.files.log[i].station == station {
      LinesAreLocated(steps, i);
    }
    TallyIsCount(log, w.files.log, name, station, id, kind);
  }

  /** End to end. Whatever the day, however the lines were numbered, and however often
      and in whatever order the log was copied back among park rows: in a run that no
      crash cut and no park disturbed, the attempts on a park's state file are the
      ledger's wrong-code and burned rows for it, and it was redeemed exactly when the
      ledger has its one claimed row. With crashes the ledger never over-counts. */
  lemma ParkAttemptsEqualLedgerRows(steps: seq<Step>, numbering: seq<A.Step<E.Attempt>>, name: ParkId -> string,
                                    ds: seq<E.Delivery>, id: ParkId, kind: Kind)
    requires var (w, log) := (Run(Empty(), steps), A.Run(A.Start<E.Attempt>(), numbering).lines);
      && Undisturbed(steps) && id in w.issued && Injective(name) && Records(log, w.files.log, name)
      && E.DeliveredFrom(ds, log)
      && forall line | line in log && E.Names(line, w.issued[id].station) :: E.CopiedBack(ds, w.issued[id].station, line)
    ensures var w := Run(Empty(), steps);
      var rows := |Only(ChargesOf(name(id), kind), E.Claims(ds, w.issued[id].station))|;
      && rows <= OnDisk(w, id, kind)
      && (CrashFree(steps) && w.flight.Idle? ==> rows == OnDisk(w, id, kind))
  {
    var log := A.Run(A.Start<E.Attempt>(), numbering).lines;
    assert forall i | 0 <= i < |log| && log[i].Row? :: log[i].event.ts != "";
    E.EdgeLogIsNumbered(numbering);
    LedgerCountsLines(steps, log, name, ds, id, kind);
    LogAgreesWithState(steps, id, kind);
  }

  /** And that covers every run: whatever a run of the claim edge logged, some run of the
      numbering machine holds it, and one whole copy of that log delivers it. */
  lemma EveryRunReachesTheLedger(steps: seq<Step>, name: ParkId -> string, ts: string, id: ParkId, kind: Kind)
    requires ts != "" && Injective(name) && Undisturbed(steps) && id in Run(Empty(), steps).issued
    ensures var w := Run(Empty(), steps);
      var log := A.Run(A.Start<E.Attempt>(), Numbering(w.files.log, name, ts)).lines;
      var rows := |Only(ChargesOf(name(id), kind), E.Claims([E.LogCopy(log)], w.issued[id].station))|;
      && Records(log, w.files.log, name)
      && rows <= OnDisk(w, id, kind)
      && (CrashFree(steps) && w.flight.Idle? ==> rows == OnDisk(w, id, kind))
  {
    var w := Run(Empty(), steps);
    var numbering := Numbering(w.files.log, name, ts);
    var log := A.Run(A.Start<E.Attempt>(), numbering).lines;
    var ds := [E.LogCopy(log)];
    EveryLogIsRecorded(w.files.log, name, ts);
    forall line | line in log && E.Names(line, w.issued[id].station)
      ensures E.CopiedBack(ds, w.issued[id].station, line)
    {
      assert ds[0].LogCopy? && line in ds[0].lines;
    }
    ParkAttemptsEqualLedgerRows(steps, numbering, name, ds, id, kind);
  }
}
