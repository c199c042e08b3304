/** From the edge's log to a station's ledger: every attempt the edge wrote for a
    station is one row there, however often and in whatever pieces the log is
    copied back, and whatever park rows are written in between (edge/claim/vexa_claim.py, publisher/vexa_stations.py). */
module EdgeToLedger {
  import opened Wrappers
  import opened Ordering
  import opened CredentialLedger
  import A = Attempts

  datatype Attempt = Attempt(ts: string, station: string, outcome: string, source: string,
                             parkId: Option<string>, codeHash: Option<string>)

  type LogLine = A.Line<Attempt>

  function TextOrNull(t: Option<string>): Value {
    if t.Some? then Text(t.value) else Null
  }

  /** The attempt as the edge writes it, with its number. */
  function Written(line: LogLine): Event
    requires line.Row?
  {
    map["schema_version" := Number(1), "event" := Text("claim"), "ts" := Text(line.event.ts),
        "station" := Text(line.event.station), "outcome" := Text(line.event.outcome),
        "source" := Text(line.event.source), "park_id" := TextOrNull(line.event.parkId),
        "code_sha256" := TextOrNull(line.event.codeHash), "seq" := Number(line.number)]
  }

  /** Grouping by station drops the station from each event. */
  function Grouped(line: LogLine): Event
    requires line.Row?
  {
    Written(line) - {"station"}
  }

  predicate Names(line: LogLine, station: string) {
    line.Row? && line.event.station == station
  }

  /** What one copy of the log brings for a station that has a directory. */
  function StationBatch(copy: seq<LogLine>, station: string): seq<Event> {
    if copy == [] then []
    else
      var last := copy[|copy| - 1];
      StationBatch(copy[..|copy| - 1], station) + if Names(last, station) then [Grouped(last)] else []
  }

  /** What reaches one station's event list, in any order: the park rows `add --park`
      writes, and copies of the edge's log. */
  datatype Delivery = Parks(events: seq<Event>) | LogCopy(lines: seq<LogLine>)

  function BatchOf(d: Delivery, station: string): seq<Event> {
    if d.Parks? then d.events else StationBatch(d.lines, station)
  }

  function Batches(ds: seq<Delivery>, station: string): seq<seq<Event>> {
    seq(|ds|, i requires 0 <= i < |ds| => BatchOf(ds[i], station))
  }

  predicate IsClaim(row: Event) { Field(row, "event") == Text("claim") }

  predicate IsPark(row: Event) { Field(row, "event") == Text("park") }

  ghost predicate ParkBatch(events: seq<Event>) {
    forall i | 0 <= i < |events| :: IsPark(events[i])
  }

  ghost predicate Stamped(lines: seq<LogLine>) {
    forall i | 0 <= i < |lines| :: lines[i].Row? && lines[i].event.ts != ""
  }

  lemma GroupedIsAccepted(line: LogLine)
    requires line.Row? && line.event.ts != ""
    ensures CheckEvent(Grouped(line)).None?
  {
    var e := Grouped(line);
    assert e.Keys == {"schema_version", "event", "ts", "outcome", "source", "park_id", "code_sha256", "seq"};
  }

  lemma {:induction false} BatchIsClean(copy: seq<LogLine>, station: string)
    requires Stamped(copy)
    ensures Clean(StationBatch(copy, station))
  {
    if copy != [] {
      BatchIsClean(copy[..|copy| - 1], station);
      GroupedIsAccepted(copy[|copy| - 1]);
    }
  }

  /** The number survives into the row, so no two attempts share one. */
  lemma RowCarriesNumber(line: LogLine)
    requires line.Row?
    ensures Field(RowOf(Grouped(line)), "seq") == Number(line.number)
  {
    assert "seq" in Grouped(line) && Grouped(line)["seq"] == Number(line.number);
  }

  ghost predicate Holds(batch: seq<Event>, row: Event) {
    exists i :: 0 <= i < |batch| && RowOf(batch[i]) == row
  }

  ghost predicate Tells(copy: seq<LogLine>, station: string, row: Event) {
    exists j :: 0 <= j < |copy| && Names(copy[j], station) && RowOf(Grouped(copy[j])) == row
  }

  lemma {:induction false} BatchBrings(copy: seq<LogLine>, station: string, row: Event)
    ensures Holds(StationBatch(copy, station), row) <==> Tells(copy, station, row)
  {
    if copy != [] {
      var front, last := copy[..|copy| - 1], copy[|copy| - 1];
      var less, all := StationBatch(front, station), StationBatch(copy, station);
      BatchBrings(front, station, row);
      if i :| 0 <= i < |less| && RowOf(less[i]) == row {
        assert all[i] == less[i];
      }
      if j :| 0 <= j < |copy| && Names(copy[j], station) && RowOf(Grouped(copy[j])) == row {
        if j < |front| {
          assert front[j] == copy[j];
        } else {
          assert all[|less|] == Grouped(last);
        }
      }
      if i :| 0 <= i < |all| && RowOf(all[i]) == row {
        if i < |less| {
          assert all[i] == less[i];
          var j :| 0 <= j < |front| && Names(front[j], station) && RowOf(Grouped(front[j])) == row;
          assert copy[j] == front[j];
        }
      }
    }
  }

  /** A line some copy holds for this station. */
  ghost predicate CopiedBack(ds: seq<Delivery>, station: string, line: LogLine) {
    Names(line, station) && exists d :: 0 <= d < |ds| && ds[d].LogCopy? && line in ds[d].lines
  }

  ghost predicate FromCopies(ds: seq<Delivery>, station: string, row: Event) {
    exists line :: CopiedBack(ds, station, line) && RowOf(Grouped(line)) == row
  }

  /** A row some accepted batch of park rows brought. */
  ghost predicate Parked(ds: seq<Delivery>, row: Event) {
    exists d :: 0 <= d < |ds| && ds[d].Parks? && Brings(ds[d].events, row)
  }

  /** Pieces of one log, whatever the pieces, and rows of parks. */
  ghost predicate DeliveredFrom(ds: seq<Delivery>, log: seq<LogLine>) {
    forall d | 0 <= d < |ds| ::
      if ds[d].Parks? then ParkBatch(ds[d].events)
      else forall i | 0 <= i < |ds[d].lines| :: ds[d].lines[i] in log
  }

  lemma CopyIsStamped(log: seq<LogLine>, ds: seq<Delivery>, d: nat)
    requires Stamped(log) && DeliveredFrom(ds, log) && d < |ds| && ds[d].LogCopy?
    ensures Stamped(ds[d].lines)
  {
    forall i | 0 <= i < |ds[d].lines| ensures ds[d].lines[i].Row? && ds[d].lines[i].event.ts != "" {
      assert ds[d].lines[i] in log;
    }
  }

  lemma CopyBrings(copy: seq<LogLine>, station: string, row: Event)
    requires Stamped(copy)
    ensures Brings(StationBatch(copy, station), row) <==> Tells(copy, station, row)
  {
    BatchIsClean(copy, station);
    BatchBrings(copy, station, row);
    assert Brings(StationBatch(copy, station), row) <==> Holds(StationBatch(copy, station), row);
  }

  lemma CoveredIsDelivered(log: seq<LogLine>, ds: seq<Delivery>, station: string, row: Event)
    requires Stamped(log) && DeliveredFrom(ds, log) && Covered(Batches(ds, station), row)
    ensures FromCopies(ds, station, row) || Parked(ds, row)
  {
    var b :| 0 <= b < |ds| && Brings(Batches(ds, station)[b], row);
    assert Brings(BatchOf(ds[b], station), row);
    if ds[b].LogCopy? {
      CopyIsStamped(log, ds, b);
      CopyBrings(ds[b].lines, station, row);
      var j :| 0 <= j < |ds[b].lines| && Names(ds[b].lines[j], station) && RowOf(Grouped(ds[b].lines[j])) == row;
      assert CopiedBack(ds, station, ds[b].lines[j]);
    }
  }

  lemma CopiedIsCovered(log: seq<LogLine>, ds: seq<Delivery>, station: string, row: Event)
    requires Stamped(log) && DeliveredFrom(ds, log) && FromCopies(ds, station, row)
    ensures Covered(Batches(ds, station), row)
  {
    var line :| CopiedBack(ds, station, line) && RowOf(Grouped(line)) == row;
    var d :| 0 <= d < |ds| && ds[d].LogCopy? && line in ds[d].lines;
    var j :| 0 <= j < |ds[d].lines| && ds[d].lines[j] == line;
    assert Tells(ds[d].lines, station, row);
    CopyIsStamped(log, ds, d);
    CopyBrings(ds[d].lines, station, row);
    assert Brings(Batches(ds, station)[d], row);
  }

  lemma ParkedIsCovered(ds: seq<Delivery>, station: string, row: Event)
    requires Parked(ds, row)
    ensures Covered(Batches(ds, station), row)
  {
    var d :| 0 <= d < |ds| && ds[d].Parks? && Brings(ds[d].events, row);
    assert Brings(Batches(ds, station)[d], row);
  }

  lemma RowKinds(log: seq<LogLine>, ds: seq<Delivery>, station: string, row: Event)
    requires DeliveredFrom(ds, log)
    ensures FromCopies(ds, station, row) ==> IsClaim(row)
    ensures Parked(ds, row) ==> IsPark(row)
  {
    if FromCopies(ds, station, row) {
      var line :| CopiedBack(ds, station, line) && RowOf(Grouped(line)) == row;
      assert "event" in Grouped(line) && Grouped(line)["event"] == Text("claim");
    }
    if Parked(ds, row) {
      var d :| 0 <= d < |ds| && ds[d].Parks? && Brings(ds[d].events, row);
      var i :| 0 <= i < |ds[d].events| && RowOf(ds[d].events[i]) == row;
      assert IsPark(ds[d].events[i]);
    }
  }

  ghost predicate Numbered(log: seq<LogLine>) {
    && Stamped(log)
    && forall i, j | 0 <= i < j < |log| :: log[i].number != log[j].number
  }

  lemma SameRowSameLine(log: seq<LogLine>, a: LogLine, b: LogLine)
    requires Numbered(log) && a in log && b in log
    requires NumberOr(Field(RowOf(Grouped(a)), "seq")) == NumberOr(Field(RowOf(Grouped(b)), "seq"))
    ensures a == b
  {
    RowCarriesNumber(a);
    RowCarriesNumber(b);
    var i :| 0 <= i < |log| && log[i] == a;
    var j :| 0 <= j < |log| && log[j] == b;
  }

  /** The station's event list. */
  function Ledger(ds: seq<Delivery>, station: string): seq<Event> { IngestAll(Batches(ds, station)) }

  /** Its attempts: the rows whose event is a claim, in order. */
  function Claims(ds: seq<Delivery>, station: string): seq<Event> { Only(IsClaim, Ledger(ds, station)) }

  /** A row of the list is an attempt copied back, or a park row; never both. */
  lemma LedgerHolds(log: seq<LogLine>, ds: seq<Delivery>, station: string, row: Event)
    requires Numbered(log) && DeliveredFrom(ds, log)
    ensures row in Ledger(ds, station) <==> FromCopies(ds, station, row) || Parked(ds, row)
    ensures row in Claims(ds, station) <==> FromCopies(ds, station, row)
  {
    IngestAllHolds(Batches(ds, station));
    if FromCopies(ds, station, row) {
      CopiedIsCovered(log, ds, station, row);
    }
    if Parked(ds, row) {
      ParkedIsCovered(ds, station, row);
    }
    if Covered(Batches(ds, station), row) {
      CoveredIsDelivered(log, ds, station, row);
    }
    RowKinds(log, ds, station, row);
    OnlyHolds(IsClaim, Ledger(ds, station), row);
  }

  lemma ClaimsInOrder(ds: seq<Delivery>, station: string)
    ensures NoDuplicates(Claims(ds, station)) && Sorted(Claims(ds, station), RowLeq)
  {
    IngestAllHolds(Batches(ds, station));
    OnlyDistinct(IsClaim, Ledger(ds, station));
    OnlySorted(RowLeq, IsClaim, Ledger(ds, station));
  }

  /** Attempts never tie, since the number breaks every tie. */
  lemma NumbersBreakTies(log: seq<LogLine>, ds: seq<Delivery>, station: string)
    requires Numbered(log) && DeliveredFrom(ds, log)
    ensures NoTies(Claims(ds, station), RowLeq)
  {
    LexOrder();
    var rows := Claims(ds, station);
    forall i, j | 0 <= i < |rows| && 0 <= j < |rows| && RowLeq(rows[i], rows[j]) && RowLeq(rows[j], rows[i])
      ensures rows[i] == rows[j]
    {
      LedgerHolds(log, ds, station, rows[i]);
      LedgerHolds(log, ds, station, rows[j]);
      var a :| CopiedBack(ds, station, a) && RowOf(Grouped(a)) == rows[i];
      var b :| CopiedBack(ds, station, b) && RowOf(Grouped(b)) == rows[j];
      SameRowSameLine(log, a, b);
    }
  }

  ghost predicate ExactlyOnce(events: seq<Event>, row: Event) {
    exists k :: 0 <= k < |events| && events[k] == row && forall m | 0 <= m < |events| && m != k :: events[m] != row
  }

  lemma InOnce(events: seq<Event>, row: Event)
    requires NoDuplicates(events) && row in events
    ensures ExactlyOnce(events, row)
  {
    var k :| 0 <= k < |events| && events[k] == row;
    assert forall m | 0 <= m < |events| && m != k :: events[m] != row;
  }

  /** Whatever park rows come between: exactly one row for each attempt copied back,
      and no claim row besides. */
  lemma OneRowPerAttempt(log: seq<LogLine>, ds: seq<Delivery>, station: string)
    requires Numbered(log) && DeliveredFrom(ds, log)
    ensures var events := Ledger(ds, station);
            && (forall line | CopiedBack(ds, station, line) :: ExactlyOnce(events, RowOf(Grouped(line))))
            && (forall k | 0 <= k < |events| && IsClaim(events[k]) :: FromCopies(ds, station, events[k]))
  {
    var events := Ledger(ds, station);
    IngestAllHolds(Batches(ds, station));
    forall line | CopiedBack(ds, station, line) ensures ExactlyOnce(events, RowOf(Grouped(line))) {
      LedgerHolds(log, ds, station, RowOf(Grouped(line)));
      InOnce(events, RowOf(Grouped(line)));
    }
    forall k | 0 <= k < |events| && IsClaim(events[k]) ensures FromCopies(ds, station, events[k]) {
      LedgerHolds(log, ds, station, events[k]);
      RowKinds(log, ds, station, events[k]);
    }
  }

  /** The row holds the line's own facts and its number, and not the station. */
  ghost predicate Tallies(row: Event, line: LogLine) {
    && line.Row? && "station" !in row
    && Field(row, "event") == Text("claim") && Field(row, "seq") == Number(line.number)
    && Field(row, "ts") == Text(line.event.ts) && Field(row, "outcome") == Text(line.event.outcome)
    && Field(row, "source") == Text(line.event.source)
    && (if line.event.parkId.Some? then Field(row, "park_id") == Text(line.event.parkId.value) else "park_id" !in row)
    && (if line.event.codeHash.Some? then Field(row, "code_sha256") == Text(line.event.codeHash.value)
        else "code_sha256" !in row)
  }

  lemma RowTallies(line: LogLine)
    requires line.Row?
    ensures Tallies(RowOf(Grouped(line)), line)
  {
    RowReads(Grouped(line), "park_id");
    RowReads(Grouped(line), "code_sha256");
  }

  /** A claim row of a station's ledger is a line of the log that names this station,
      field by field; and each such line that was copied back is there. */
  lemma ClaimRowsAreLines(log: seq<LogLine>, ds: seq<Delivery>, station: string)
    requires Numbered(log) && DeliveredFrom(ds, log)
    ensures forall row | row in Claims(ds, station) ::
              exists line :: line in log && Tallies(row, line) && line.event.station == station
    ensures forall d, line | 0 <= d < |ds| && ds[d].LogCopy? && line in ds[d].lines && line.event.station == station ::
              exists row :: row in Claims(ds, station) && Tallies(row, line)
  {
    forall row | row in Claims(ds, station)
      ensures exists line :: line in log && Tallies(row, line) && line.event.station == station
    {
      LedgerHolds(log, ds, station, row);
      var line :| CopiedBack(ds, station, line) && RowOf(Grouped(line)) == row;
      RowTallies(line);
    }
    forall d, line | 0 <= d < |ds| && ds[d].LogCopy? && line in ds[d].lines && line.event.station == station
      ensures exists row :: row in Claims(ds, station) && Tallies(row, line)
    {
      CopyIsStamped(log, ds, d);
      LedgerHolds(log, ds, station, RowOf(Grouped(line)));
      RowTallies(line);
    }
  }

  function ParksOnly(ds: seq<Delivery>): seq<Delivery> {
    if ds == [] then []
    else ParksOnly(ds[..|ds| - 1]) + if ds[|ds| - 1].Parks? then [ds[|ds| - 1]] else []
  }

  lemma {:induction false} ParksOnlyHolds(ds: seq<Delivery>, d: Delivery)
    ensures d in ParksOnly(ds) <==> d in ds && d.Parks?
  {
    if ds != [] {
      ParksOnlyHolds(ds[..|ds| - 1], d);
    }
  }

  lemma ParkedAlone(ds: seq<Delivery>, row: Event)
    ensures Parked(ParksOnly(ds), row) <==> Parked(ds, row)
  {
    if Parked(ds, row) {
      var d :| 0 <= d < |ds| && ds[d].Parks? && Brings(ds[d].events, row);
      ParksOnlyHolds(ds, ds[d]);
      var k :| 0 <= k < |ParksOnly(ds)| && ParksOnly(ds)[k] == ds[d];
    }
    if Parked(ParksOnly(ds), row) {
      var k :| 0 <= k < |ParksOnly(ds)| && ParksOnly(ds)[k].Parks? && Brings(ParksOnly(ds)[k].events, row);
      ParksOnlyHolds(ds, ParksOnly(ds)[k]);
      var d :| 0 <= d < |ds| && ds[d] == ParksOnly(ds)[k];
    }
  }

  /** The park rows are those the list would hold had no log ever been copied back. */
  lemma ParkRowsUntouched(log: seq<LogLine>, ds: seq<Delivery>, station: string, row: Event)
    requires Numbered(log) && DeliveredFrom(ds, log) && !IsClaim(row)
    ensures row in Ledger(ds, station) <==> row in Ledger(ParksOnly(ds), station)
    ensures row in Ledger(ds, station) ==> ExactlyOnce(Ledger(ds, station), row)
  {
    var parks := ParksOnly(ds);
    forall d | 0 <= d < |parks| ensures parks[d].Parks? && ParkBatch(parks[d].events) {
      ParksOnlyHolds(ds, parks[d]);
      var k :| 0 <= k < |ds| && ds[k] == parks[d];
    }
    LedgerHolds(log, ds, station, row);
    LedgerHolds(log, parks, station, row);
    ParkedAlone(ds, row);
    RowKinds(log, ds, station, row);
    RowKinds(log, parks, station, row);
    IngestAllHolds(Batches(ds, station));
    if row in Ledger(ds, station) {
      InOnce(Ledger(ds, station), row);
    }
  }

  /** Two ways of copying back the same attempts, among whatever park rows, end in the
      very same list of attempts. */
  lemma CopyingOrderIsImmaterial(log: seq<LogLine>, left: seq<Delivery>, right: seq<Delivery>, station: string)
    requires Numbered(log) && DeliveredFrom(left, log) && DeliveredFrom(right, log)
    requires forall line :: CopiedBack(left, station, line) <==> CopiedBack(right, station, line)
    ensures Claims(left, station) == Claims(right, station)
  {
    var a, b := Claims(left, station), Claims(right, station);
    ClaimsInOrder(left, station);
    ClaimsInOrder(right, station);
    forall row ensures row in a <==> row in b {
      LedgerHolds(log, left, station, row);
      LedgerHolds(log, right, station, row);
    }
    SameRowsSameMultiset(a, b);
    NumbersBreakTies(log, left, station);
    RowOrder();
    SortedUnique(RowLeq, a, b);
  }

  /** How many lines of the log name the station. */
  function CountNaming(log: seq<LogLine>, station: string): nat {
    if log == [] then 0
    else CountNaming(log[..|log| - 1], station) + if Names(log[|log| - 1], station) then 1 else 0
  }

  function RowsOf(batch: seq<Event>): seq<Event> {
    seq(|batch|, i requires 0 <= i < |batch| => RowOf(batch[i]))
  }

  lemma {:induction false} BatchSize(log: seq<LogLine>, station: string)
    ensures |StationBatch(log, station)| == CountNaming(log, station)
  {
    if log != [] {
      BatchSize(log[..|log| - 1], station);
    }
  }

  lemma {:induction false} BatchFrom(log: seq<LogLine>, station: string, i: nat) returns (j: nat)
    requires i < |StationBatch(log, station)|
    ensures j < |log| && Names(log[j], station) && StationBatch(log, station)[i] == Grouped(log[j])
  {
    var front := log[..|log| - 1];
    if i < |StationBatch(front, station)| {
      j := BatchFrom(front, station, i);
    } else {
      j := |log| - 1;
    }
  }

  lemma {:induction false} RowsOfLogDistinct(log: seq<LogLine>, station: string)
    requires Numbered(log)
    ensures NoDuplicates(RowsOf(StationBatch(log, station)))
  {
    if log != [] {
      var front, last := log[..|log| - 1], log[|log| - 1];
      var less := StationBatch(front, station);
      RowsOfLogDistinct(front, station);
      if Names(last, station) {
        forall i | 0 <= i < |less| ensures RowOf(less[i]) != RowOf(Grouped(last)) {
          var j := BatchFrom(front, station, i);
          RowCarriesNumber(log[j]);
          RowCarriesNumber(last);
        }
        assert RowsOf(less + [Grouped(last)]) == RowsOf(less) + [RowOf(Grouped(last))];
      } else {
        assert less + [] == less;
      }
    }
  }

  lemma ClaimsAreLogRows(log: seq<LogLine>, ds: seq<Delivery>, station: string, row: Event)
    requires Numbered(log) && DeliveredFrom(ds, log)
    requires forall line | line in log && Names(line, station) :: CopiedBack(ds, station, line)
    ensures row in Claims(ds, station) <==> row in RowsOf(StationBatch(log, station))
  {
    LedgerHolds(log, ds, station, row);
    LogRows(log, station, row);
    if FromCopies(ds, station, row) {
      var line :| CopiedBack(ds, station, line) && RowOf(Grouped(line)) == row;
      var d :| 0 <= d < |ds| && ds[d].LogCopy? && line in ds[d].lines;
      assert line in log;
      var j :| 0 <= j < |log| && log[j] == line;
      assert Tells(log, station, row);
    }
    if Tells(log, station, row) {
      var j :| 0 <= j < |log| && Names(log[j], station) && RowOf(Grouped(log[j])) == row;
      assert CopiedBack(ds, station, log[j]);
    }
  }

  /** Once every line of the log has been copied back at least once, the station's
      attempts are the sorted list of the log's rows: as many as the log names it. */
  lemma AttemptsEqualRows(log: seq<LogLine>, ds: seq<Delivery>, station: string)
    requires Numbered(log) && DeliveredFrom(ds, log)
    requires forall line | line in log && Names(line, station) :: CopiedBack(ds, station, line)
    ensures Claims(ds, station) == Sort(RowLeq, RowsOf(StationBatch(log, station)))
    ensures |Claims(ds, station)| == CountNaming(log, station)
  {
    var claims, rows := Claims(ds, station), RowsOf(StationBatch(log, station));
    ClaimsInOrder(ds, station);
    RowsOfLogDistinct(log, station);
    forall row ensures row in claims <==> row in rows { ClaimsAreLogRows(log, ds, station, row); }
    SameRowsSameMultiset(claims, rows);
    NumbersBreakTies(log, ds, station);
    RowOrder();
    SortSorted(RowLeq, rows);
    SortMultiset(RowLeq, rows);
    SortedUnique(RowLeq, claims, Sort(RowLeq, rows));
    BatchSize(log, station);
  }

  lemma LogRows(log: seq<LogLine>, station: string, row: Event)
    ensures row in RowsOf(StationBatch(log, station)) <==> Tells(log, station, row)
  {
    var batch := StationBatch(log, station);
    BatchBrings(log, station, row);
    if Holds(batch, row) {
      var i :| 0 <= i < |batch| && RowOf(batch[i]) == row;
      assert RowsOf(batch)[i] == row;
    }
    if row in RowsOf(batch) {
      var i :| 0 <= i < |batch| && RowsOf(batch)[i] == row;
      assert RowOf(batch[i]) == row;
    }
  }

  /** The same for a log any number of threads wrote, through any crashes and
      restarts: the numbers the edge stamps are what keeps the count. */
  lemma EdgeAttemptsEqualLedgerRows(steps: seq<A.Step<Attempt>>, ds: seq<Delivery>, station: string)
    requires var log := A.Run(A.Start<Attempt>(), steps).lines;
             && (forall i | 0 <= i < |log| && log[i].Row? :: log[i].event.ts != "")
             && DeliveredFrom(ds, log)
             && (forall line | line in log && Names(line, station) :: CopiedBack(ds, station, line))
    ensures |Claims(ds, station)| == CountNaming(A.Run(A.Start<Attempt>(), steps).lines, station)
  {
    EdgeLogIsNumbered(steps);
    AttemptsEqualRows(A.Run(A.Start<Attempt>(), steps).lines, ds, station);
  }

  lemma EdgeLogIsNumbered(steps: seq<A.Step<Attempt>>)
    requires var log := A.Run(A.Start<Attempt>(), steps).lines;
             forall i | 0 <= i < |log| && log[i].Row? :: log[i].event.ts != ""
    ensures Numbered(A.Run(A.Start<Attempt>(), steps).lines)
  {
    A.RunKeeps(A.Start<Attempt>(), steps);
  }
}
