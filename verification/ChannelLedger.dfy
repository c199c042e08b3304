/** The channel ledger (publisher/vexa_stations.py): publish, pin and ingest, each
    the only writer of its own facts. */
module ChannelLedger {
  import opened Wrappers
  import opened Ordering

  // ---------------------------------------------------------------- the channel document

  /** "" stands for a value that is absent. */
  datatype Row = Row(entrySeq: int, release: string, expires: string, kept: Kept)

  /** What no reduction looks at. `facts` are those copied from the entry: source, chart,
      mode, time of publication and what is superseded. */
  datatype Kept = Kept(facts: string, digest: string, note: string, recordedAt: int)

  datatype Expiry = Expiry(entrySeq: int, release: string, expires: string)

  /** `last` is None until something has been published. */
  datatype Doc = Doc(last: Option<int>, current: Option<Row>, entries: seq<Row>,
                     pins: map<string, string>, expiry: seq<Expiry>)

  const NO_DOC := Doc(None, None, [], map[], [])

  datatype Refusal = NotAnInteger | BelowLedger | NoChannel | NoJustification

  predicate SeqLeq(a: Row, b: Row) { a.entrySeq <= b.entrySeq }

  function Without(entries: seq<Row>, number: int): seq<Row> {
    if entries == [] then []
    else
      var last := entries[|entries| - 1];
      Without(entries[..|entries| - 1], number) + if last.entrySeq != number then [last] else []
  }

  function ExpiryIndex(entries: seq<Row>): seq<Expiry> {
    if entries == [] then []
    else
      var last := entries[|entries| - 1];
      ExpiryIndex(entries[..|entries| - 1])
      + if last.expires != "" then [Expiry(last.entrySeq, last.release, last.expires)] else []
  }

  predicate Publishable(doc: Doc, row: Row) {
    doc.last.None? || row.entrySeq >= doc.last.value
  }

  /** The rows of any other sequence and this one, sorted. */
  function Reduced(entries: seq<Row>, row: Row): seq<Row> {
    Sort(SeqLeq, Without(entries, row.entrySeq) + [row])
  }

  /** One accepted publish; only a push that moves the channel tag moves `current`. */
  function Publish(doc: Doc, row: Row, tag: string): Doc {
    var entries := Reduced(doc.entries, row);
    Doc(Some(if doc.last.Some? then Max(row.entrySeq, doc.last.value) else row.entrySeq),
        if tag != "" then Some(row) else doc.current, entries, doc.pins, ExpiryIndex(entries))
  }

  lemma {:induction false} WithoutHolds(entries: seq<Row>, number: int, row: Row)
    ensures row in Without(entries, number) <==> row in entries && row.entrySeq != number
  {
    if entries != [] {
      WithoutHolds(entries[..|entries| - 1], number, row);
    }
  }

  lemma SeqOrder()
    ensures TotalPreorder(SeqLeq)
  {
  }

  /** The new row, and every row of another sequence, in order. */
  lemma ReducedHolds(entries: seq<Row>, row: Row, other: Row)
    ensures other in Reduced(entries, row) <==> other == row || (other in entries && other.entrySeq != row.entrySeq)
    ensures Sorted(Reduced(entries, row), SeqLeq)
  {
    var all := Without(entries, row.entrySeq) + [row];
    WithoutHolds(entries, row.entrySeq, other);
    SortMultiset(SeqLeq, all);
    assert other in Reduced(entries, row) <==> other in multiset(Reduced(entries, row));
    assert other in all <==> other in multiset(all);
    SeqOrder();
    SortSorted(SeqLeq, all);
  }

  /** Exactly the entries that declared an expiry, each with its own sequence and release. */
  lemma {:induction false} ExpiryIndexHolds(entries: seq<Row>, number: int, release: string, expires: string)
    ensures Expiry(number, release, expires) in ExpiryIndex(entries)
            <==> expires != "" && exists i :: 0 <= i < |entries| && entries[i].entrySeq == number
                                              && entries[i].release == release && entries[i].expires == expires
  {
    if entries != [] {
      var n := |entries| - 1;
      ExpiryIndexHolds(entries[..n], number, release, expires);
      assert forall i | 0 <= i < n :: entries[..n][i] == entries[i];
      assert ExpiryIndex(entries) == ExpiryIndex(entries[..n])
        + if entries[n].expires != "" then [Expiry(entries[n].entrySeq, entries[n].release, entries[n].expires)] else [];
    }
  }

  lemma {:induction false} ExpiryInOrder(entries: seq<Row>, i: nat, j: nat)
    requires Sorted(entries, SeqLeq) && i < j < |ExpiryIndex(entries)|
    ensures ExpiryIndex(entries)[i].entrySeq <= ExpiryIndex(entries)[j].entrySeq
  {
    var n := |entries| - 1;
    var front := ExpiryIndex(entries[..n]);
    if j < |front| {
      ExpiryInOrder(entries[..n], i, j);
    } else {
      ExpiryIndexHolds(entries[..n], front[i].entrySeq, front[i].release, front[i].expires);
      assert front[i] in front;
      var k :| 0 <= k < n && entries[..n][k].entrySeq == front[i].entrySeq;
      assert SeqLeq(entries[k], entries[n]);
    }
  }

  method DropSequence(entries: seq<Row>, number: int) returns (kept: seq<Row>)
    ensures kept == Without(entries, number)
  {
    kept := [];
    for i := 0 to |entries|
      invariant kept == Without(entries[..i], number)
    {
      assert entries[..i + 1][..i] == entries[..i];
      if entries[i].entrySeq != number {
        kept := kept + [entries[i]];
      }
    }
    assert entries[..|entries|] == entries;
  }

  method IndexExpiry(entries: seq<Row>) returns (index: seq<Expiry>)
    ensures index == ExpiryIndex(entries)
  {
    index := [];
    for i := 0 to |entries|
      invariant index == ExpiryIndex(entries[..i])
    {
      assert entries[..i + 1][..i] == entries[..i];
      if entries[i].expires != "" {
        index := index + [Expiry(entries[i].entrySeq, entries[i].release, entries[i].expires)];
      }
    }
    assert entries[..|entries|] == entries;
  }

  method Reduce(entries: seq<Row>, row: Row) returns (sorted: seq<Row>, index: seq<Expiry>)
    ensures sorted == Reduced(entries, row) && index == ExpiryIndex(sorted)
  {
    var kept := DropSequence(entries, row.entrySeq);
    sorted := Sort(SeqLeq, kept + [row]);
    index := IndexExpiry(sorted);
  }

  /** `channel.yaml`: loaded, updated and written back as one document. */
  class ChannelFile {
    var doc: Doc

    constructor ()
      ensures doc == NO_DOC
    {
      doc := NO_DOC;
    }

    /** `entrySeq` is None when the entry carries no integer sequence. */
    method RecordPublish(entrySeq: Option<int>, facts: Row, tag: string) returns (r: Result<int, Refusal>)
      modifies this
      ensures r == (if entrySeq.None? then Err(NotAnInteger)
                    else if old(doc).last.Some? && entrySeq.value < old(doc).last.value then Err(BelowLedger)
                    else Ok(entrySeq.value))
      ensures r.Err? ==> doc == old(doc)
      ensures r.Ok? ==>
        var row := facts.(entrySeq := r.value);
        && doc.current == (if tag != "" then Some(row) else old(doc).current)
        && doc.last == Some(r.value) && doc.pins == old(doc).pins
        && (forall other :: other in doc.entries <==>
              other == row || (other in old(doc).entries && other.entrySeq != row.entrySeq))
        && Sorted(doc.entries, SeqLeq) && doc.expiry == ExpiryIndex(doc.entries)
        && doc == Execute(Ledger(old(doc), map[]), PublishCmd(row, tag)).doc
    {
      if entrySeq.None? {
        return Err(NotAnInteger);
      }
      var row := facts.(entrySeq := entrySeq.value);
      if doc.last.Some? && row.entrySeq < doc.last.value {
        return Err(BelowLedger);
      }
      var sorted, index := Reduce(doc.entries, row);
      forall other ensures other in sorted <==> other == row || (other in doc.entries && other.entrySeq != row.entrySeq) {
        ReducedHolds(doc.entries, row, other);
      }
      ReducedHolds(doc.entries, row, row);
      doc := Doc(Some(if doc.last.Some? then Max(row.entrySeq, doc.last.value) else row.entrySeq),
                 if tag != "" then Some(row) else doc.current, sorted, doc.pins, index);
      return Ok(row.entrySeq);
    }

    /** A promotion: the one move of a pin, answering what the pin was before.
        `justified` is a non-blank reason. */
    method RecordPin(station: string, position: string, justified: bool) returns (r: Result<Option<string>, Refusal>)
      modifies this
      ensures r == (if old(doc).last.None? then Err(NoChannel) else if !justified then Err(NoJustification)
                    else Ok(if station in old(doc).pins then Some(old(doc).pins[station]) else None))
      ensures doc == if r.Ok? then old(doc).(pins := old(doc).pins[station := position]) else old(doc)
      ensures doc == Execute(Ledger(old(doc), map[]), PinCmd(station, position, justified)).doc
    {
      if doc.last.None? {
        return Err(NoChannel);
      }
      if !justified {
        return Err(NoJustification);
      }
      r := Ok(if station in doc.pins then Some(doc.pins[station]) else None);
      doc := doc.(pins := doc.pins[station := position]);
    }
  }

  // ---------------------------------------------------------------- what a publish keeps

  ghost predicate StrictlySorted(entries: seq<Row>) {
    forall i, j | 0 <= i < j < |entries| :: entries[i].entrySeq < entries[j].entrySeq
  }

  ghost predicate WellFormed(doc: Doc) {
    && StrictlySorted(doc.entries)
    && (if doc.entries == [] then doc.last == None && doc.current == None
        else doc.last == Some(doc.entries[|doc.entries| - 1].entrySeq))
    && doc.expiry == ExpiryIndex(doc.entries)
    && (doc.current.Some? ==> Lists(doc.entries, doc.current.value.entrySeq))
  }

  lemma {:induction false} WithoutAbsent(entries: seq<Row>, number: int)
    requires forall i | 0 <= i < |entries| :: entries[i].entrySeq != number
    ensures Without(entries, number) == entries
  {
    if entries != [] {
      WithoutAbsent(entries[..|entries| - 1], number);
    }
  }

  /** The list with the row appended, or put in the place of the newest. */
  function Put(entries: seq<Row>, row: Row): seq<Row> {
    var n := |entries|;
    if n > 0 && row.entrySeq == entries[n - 1].entrySeq then entries[..n - 1] + [row] else entries + [row]
  }

  /** An accepted publish appends a row, or replaces the newest; nothing else. */
  lemma PublishShape(doc: Doc, row: Row, tag: string)
    requires WellFormed(doc) && Publishable(doc, row)
    ensures Publish(doc, row, tag).entries == Put(doc.entries, row)
  {
    PutIsSort(doc.entries, row);
  }

  lemma PutSorted(entries: seq<Row>, row: Row)
    requires StrictlySorted(entries)
    requires entries != [] ==> row.entrySeq >= entries[|entries| - 1].entrySeq
    ensures StrictlySorted(Put(entries, row))
  {
  }

  lemma WithoutNewest(entries: seq<Row>)
    requires entries != []
    requires forall i | 0 <= i < |entries| - 1 :: entries[i].entrySeq < entries[|entries| - 1].entrySeq
    ensures Without(entries, entries[|entries| - 1].entrySeq) == entries[..|entries| - 1]
  {
    WithoutAbsent(entries[..|entries| - 1], entries[|entries| - 1].entrySeq);
  }

  lemma WithoutThenPut(entries: seq<Row>, row: Row)
    requires entries != [] ==> row.entrySeq >= entries[|entries| - 1].entrySeq
    requires forall i | 0 <= i < |entries| - 1 :: entries[i].entrySeq < entries[|entries| - 1].entrySeq
    ensures Without(entries, row.entrySeq) + [row] == Put(entries, row)
  {
    if entries != [] && row.entrySeq == entries[|entries| - 1].entrySeq {
      WithoutNewest(entries);
    } else {
      WithoutAbsent(entries, row.entrySeq);
    }
  }

  lemma PutIsSort(entries: seq<Row>, row: Row)
    requires StrictlySorted(entries)
    requires entries != [] ==> row.entrySeq >= entries[|entries| - 1].entrySeq
    ensures StrictlySorted(Put(entries, row))
    ensures Reduced(entries, row) == Put(entries, row)
  {
    PutSorted(entries, row);
    WithoutThenPut(entries, row);
    SortOfSorted(SeqLeq, Put(entries, row));
  }

  ghost predicate Lists(entries: seq<Row>, number: int) {
    exists i :: 0 <= i < |entries| && entries[i].entrySeq == number
  }

  lemma PutLists(entries: seq<Row>, row: Row, number: int)
    requires Lists(entries, number) || number == row.entrySeq
    ensures Lists(Put(entries, row), number)
  {
    var after := Put(entries, row);
    if number == row.entrySeq {
      assert after[|after| - 1].entrySeq == number;
    } else {
      var i :| 0 <= i < |entries| && entries[i].entrySeq == number;
      assert after[i].entrySeq == number;
    }
  }

  lemma PublishKeepsCurrent(doc: Doc, row: Row, tag: string)
    requires WellFormed(doc) && Publishable(doc, row)
    ensures var current := if tag != "" then Some(row) else doc.current;
            current.Some? ==> Lists(Put(doc.entries, row), current.value.entrySeq)
  {
    if tag != "" || doc.current.Some? {
      PutLists(doc.entries, row, if tag != "" then row.entrySeq else doc.current.value.entrySeq);
    }
  }

  lemma PutLast(entries: seq<Row>, row: Row)
    ensures var after := Put(entries, row); after != [] && after[|after| - 1] == row
  {
  }

  lemma PublishKeeps(doc: Doc, row: Row, tag: string)
    requires WellFormed(doc) && Publishable(doc, row)
    ensures WellFormed(Publish(doc, row, tag))
  {
    PublishShape(doc, row, tag);
    PutSorted(doc.entries, row);
    PutLast(doc.entries, row);
    PublishKeepsCurrent(doc, row, tag);
  }

  lemma PutHolds(entries: seq<Row>, row: Row, other: Row)
    requires StrictlySorted(entries)
    requires entries != [] ==> row.entrySeq >= entries[|entries| - 1].entrySeq
    ensures other in Put(entries, row) <==> other == row || (other in entries && other.entrySeq != row.entrySeq)
  {
    var after, n := Put(entries, row), |entries|;
    assert after[|after| - 1] == row;
    if other in entries && other.entrySeq != row.entrySeq {
      var i :| 0 <= i < n && entries[i] == other;
      assert after[i] == other;
    }
    if other in after && other != row {
      var i :| 0 <= i < |after| && after[i] == other;
      assert entries[i] == other;
      assert i < |after| - 1;
    }
  }

  /** `current` is a row of the list after a publish exactly when this publish moved
      the tag, or it was one before and this publish did not replace it by another. */
  lemma PublishListsCurrentIff(doc: Doc, row: Row, tag: string)
    requires WellFormed(doc) && Publishable(doc, row)
    requires tag != "" || doc.current.Some?
    ensures var after := Publish(doc, row, tag);
            after.current.value in after.entries
            <==> tag != "" || doc.current.value == row
                 || (doc.current.value in doc.entries && doc.current.value.entrySeq != row.entrySeq)
  {
    PublishShape(doc, row, tag);
    PutHolds(doc.entries, row, if tag != "" then row else doc.current.value);
  }

  function ASecondLater(row: Row): Row { row.(kept := row.kept.(recordedAt := row.kept.recordedAt + 1)) }

  /** An entry republished without the tag at the sequence `current` names, with the
      same facts and a second later, leaves `current` holding a row that is no longer in
      the list. */
  lemma CurrentCanBeStale(row: Row, tag: string)
    requires tag != ""
    ensures var doc := Publish(Publish(NO_DOC, row, tag), ASecondLater(row), "");
            doc.current == Some(row) && row !in doc.entries
  {
    var first := Publish(NO_DOC, row, tag);
    PublishShape(NO_DOC, row, tag);
    PublishKeeps(NO_DOC, row, tag);
    PublishListsCurrentIff(first, ASecondLater(row), "");
  }

  // ---------------------------------------------------------------- stations

  const STALE_AFTER_DAYS := 30

  /** `ts` is None when the stamp does not parse; "" is an absent verdict. */
  datatype Receipt = Receipt(entrySeq: Option<int>, digest: string, ts: Option<int>, verdict: string)

  /** What the station's own report says: its release block and its phase verdicts. */
  datatype Report = Report(entrySeq: Option<int>, digest: string, phases: seq<string>)

  datatype Flag = Stale | ContractBreach | Revoked | EntryMismatch

  datatype Station = Station(receipt: Receipt, flags: seq<Flag>)

  function VerdictOf(phases: seq<string>): string {
    if phases == [] then "UNKNOWN"
    else if forall i | 0 <= i < |phases| :: phases[i] == "PASS" then "PASS"
    else "REFUSED"
  }

  function DeriveFlags(receipt: Receipt, latest: Option<int>, revoked: bool, now: int): seq<Flag> {
    (if latest.Some? && receipt.entrySeq.Some? && receipt.entrySeq.value < latest.value then [Stale]
     else if receipt.ts.Some? && (now - receipt.ts.value) / 86400 > STALE_AFTER_DAYS then [Stale]
     else [])
    + (if receipt.verdict !in {"", "PASS"} then [ContractBreach] else [])
    + (if revoked then [Revoked] else [])
  }

  predicate Mismatch(receipt: Receipt, report: Report) {
    || (receipt.entrySeq.Some? && report.entrySeq.Some? && receipt.entrySeq != report.entrySeq)
    || (receipt.digest != "" && report.digest != "" && receipt.digest != report.digest)
  }

  /** `record_ingest`: what is kept of one bundle. */
  function Ingest(revoked: bool, receipt: Receipt, report: Report, latest: Option<int>, now: int): Station {
    var kept := receipt.(entrySeq := if receipt.entrySeq.Some? then receipt.entrySeq else report.entrySeq,
                         verdict := if receipt.verdict != "" then receipt.verdict else VerdictOf(report.phases));
    var flags := DeriveFlags(kept, latest, revoked, now);
    Station(kept, flags + if Mismatch(receipt, report) then [EntryMismatch] else [])
  }

  /** What each flag of an ingested bundle says, from the receipt, the report and the channel alone. */
  lemma FlagsMean(revoked: bool, receipt: Receipt, report: Report, latest: Option<int>, now: int)
    ensures var station := Ingest(revoked, receipt, report, latest, now);
            var number := station.receipt.entrySeq;
            && (ContractBreach in station.flags <==>
                  if receipt.verdict != "" then receipt.verdict != "PASS"
                  else report.phases == [] || exists i :: 0 <= i < |report.phases| && report.phases[i] != "PASS")
            && (EntryMismatch in station.flags <==>
                  || (receipt.entrySeq.Some? && report.entrySeq.Some? && receipt.entrySeq.value != report.entrySeq.value)
                  || (receipt.digest != "" && report.digest != "" && receipt.digest != report.digest))
            && (Stale in station.flags <==>
                  || (latest.Some? && number.Some? && number.value < latest.value)
                  || (receipt.ts.Some? && now - receipt.ts.value >= 31 * 86400))
            && number == (if receipt.entrySeq.Some? then receipt.entrySeq else report.entrySeq)
            && station.receipt.digest == receipt.digest && station.receipt.ts == receipt.ts
            && station.receipt.verdict ==
               (if receipt.verdict != "" then receipt.verdict
                else if report.phases == [] then "UNKNOWN"
                else if exists i :: 0 <= i < |report.phases| && report.phases[i] != "PASS" then "REFUSED"
                else "PASS")
  {
  }

  // ---------------------------------------------------------------- any interleaving of the three

  datatype Ledger = Ledger(doc: Doc, stations: map<string, Station>)

  predicate IsRevoked(l: Ledger, station: string) {
    station in l.stations && Revoked in l.stations[station].flags
  }

  datatype Command =
    | PublishCmd(row: Row, tag: string)
    | PinCmd(station: string, position: string, justified: bool)
    | IngestCmd(station: string, receipt: Receipt, report: Report, now: int)

  function Execute(l: Ledger, c: Command): Ledger {
    match c
    case PublishCmd(row, tag) => if Publishable(l.doc, row) then l.(doc := Publish(l.doc, row, tag)) else l
    case PinCmd(station, position, justified) =>
      if l.doc.last.None? || !justified then l
      else l.(doc := l.doc.(pins := l.doc.pins[station := position]))
    case IngestCmd(station, receipt, report, now) =>
      l.(stations := l.stations[station := Ingest(IsRevoked(l, station), receipt, report, l.doc.last, now)])
  }

  function Run(l: Ledger, cs: seq<Command>): Ledger
    decreases |cs|
  {
    if cs == [] then l else Run(Execute(l, cs[0]), cs[1..])
  }

  lemma ExecuteKeeps(l: Ledger, c: Command)
    requires WellFormed(l.doc)
    ensures WellFormed(Execute(l, c).doc)
  {
    if c.PublishCmd? && Publishable(l.doc, c.row) {
      PublishKeeps(l.doc, c.row, c.tag);
    }
  }

  /** Every row strictly below the newest stays where it is, unchanged; the newest
      keeps its sequence. */
  ghost predicate Extends(was: seq<Row>, now: seq<Row>) {
    var n := |was|;
    n > 0 ==> n <= |now| && now[n - 1].entrySeq == was[n - 1].entrySeq && forall i | 0 <= i < n - 1 :: now[i] == was[i]
  }

  lemma PutExtends(entries: seq<Row>, row: Row)
    ensures Extends(entries, Put(entries, row))
  {
  }

  lemma ExtendsTransitive(a: seq<Row>, b: seq<Row>, c: seq<Row>)
    requires Extends(a, b) && Extends(b, c)
    ensures Extends(a, c)
  {
  }

  /** From any state of a ledger on, history is append-only, and the newest sequence
      never goes back. */
  lemma {:induction false} HistoryIsAppendOnly(l: Ledger, cs: seq<Command>)
    requires WellFormed(l.doc)
    ensures var (was, now) := (l.doc, Run(l, cs).doc);
            && WellFormed(now) && Extends(was.entries, now.entries)
            && (was.last.Some? ==> now.last.Some? && now.last.value >= was.last.value)
    decreases |cs|
  {
    if cs != [] {
      var next := Execute(l, cs[0]);
      ExecuteKeeps(l, cs[0]);
      if cs[0].PublishCmd? && Publishable(l.doc, cs[0].row) {
        PublishShape(l.doc, cs[0].row, cs[0].tag);
        PutExtends(l.doc.entries, cs[0].row);
      }
      HistoryIsAppendOnly(next, cs[1..]);
      ExtendsTransitive(l.doc.entries, next.doc.entries, Run(l, cs).doc.entries);
    }
  }

  // ---------------------------------------------------------------- one writer per fact

  /** The pins as the pin commands alone would leave them, once there is a channel:
      a pin before the first publish is refused. */
  function PinsAlone(published: bool, pins: map<string, string>, cs: seq<Command>): map<string, string>
    decreases |cs|
  {
    if cs == [] then pins
    else if cs[0].PublishCmd? then PinsAlone(true, pins, cs[1..])
    else if cs[0].PinCmd? && cs[0].justified && published then
      PinsAlone(published, pins[cs[0].station := cs[0].position], cs[1..])
    else PinsAlone(published, pins, cs[1..])
  }

  lemma {:induction false} PinsHaveOneWriter(l: Ledger, cs: seq<Command>)
    ensures Run(l, cs).doc.pins == PinsAlone(l.doc.last.Some?, l.doc.pins, cs)
    decreases |cs|
  {
    if cs != [] {
      PinsHaveOneWriter(Execute(l, cs[0]), cs[1..]);
    }
  }

  /** From an empty ledger, whatever is run: the sequence `current` names is always
      in the list, and the expiry index is its projection. */
  lemma ReachableIsWellFormed(cs: seq<Command>)
    ensures WellFormed(Run(Ledger(NO_DOC, map[]), cs).doc)
  {
    HistoryIsAppendOnly(Ledger(NO_DOC, map[]), cs);
  }

  predicate Accepts(last: Option<int>, c: Command) {
    c.PublishCmd? && (last.Some? ==> c.row.entrySeq >= last.value)
  }

  function NextLast(last: Option<int>, c: Command): Option<int> {
    if Accepts(last, c) then Some(c.row.entrySeq) else last
  }

  function NextRow(last: Option<int>, found: Option<Row>, number: int, c: Command): Option<Row> {
    if Accepts(last, c) && c.row.entrySeq == number then Some(c.row) else found
  }

  /** The last accepted row of one sequence. */
  function LastRow(last: Option<int>, found: Option<Row>, number: int, cs: seq<Command>): Option<Row>
    decreases |cs|
  {
    if cs == [] then found
    else LastRow(NextLast(last, cs[0]), NextRow(last, found, number, cs[0]), number, cs[1..])
  }

  lemma PublishHolds(doc: Doc, row: Row, tag: string, other: Row)
    requires WellFormed(doc) && Publishable(doc, row)
    ensures other in Publish(doc, row, tag).entries
            <==> other == row || (other in doc.entries && other.entrySeq != row.entrySeq)
  {
    PublishShape(doc, row, tag);
    PutHolds(doc.entries, row, other);
  }

  lemma ExecuteLast(l: Ledger, c: Command)
    ensures Execute(l, c).doc.last == NextLast(l.doc.last, c)
  {
  }

  lemma EntriesStep(l: Ledger, found: Option<Row>, row: Row, c: Command)
    requires WellFormed(l.doc) && (row in l.doc.entries <==> found == Some(row))
    ensures row in Execute(l, c).doc.entries <==> NextRow(l.doc.last, found, row.entrySeq, c) == Some(row)
  {
    if c.PublishCmd? && Publishable(l.doc, c.row) {
      PublishHolds(l.doc, c.row, c.tag, row);
    }
  }

  lemma {:induction false} EntriesFollow(l: Ledger, found: Option<Row>, row: Row, cs: seq<Command>)
    requires WellFormed(l.doc) && (row in l.doc.entries <==> found == Some(row))
    ensures row in Run(l, cs).doc.entries <==> LastRow(l.doc.last, found, row.entrySeq, cs) == Some(row)
    decreases |cs|
  {
    if cs != [] {
      ExecuteKeeps(l, cs[0]);
      ExecuteLast(l, cs[0]);
      EntriesStep(l, found, row, cs[0]);
      EntriesFollow(Execute(l, cs[0]), NextRow(l.doc.last, found, row.entrySeq, cs[0]), row, cs[1..]);
    }
  }

  /** Over every run from an empty ledger the entries are, for each sequence ever
      accepted, the last row accepted for it. */
  lemma EntriesAreLastPublished(cs: seq<Command>, row: Row)
    ensures row in Run(Ledger(NO_DOC, map[]), cs).doc.entries <==> LastRow(None, None, row.entrySeq, cs) == Some(row)
  {
    EntriesFollow(Ledger(NO_DOC, map[]), None, row, cs);
  }

  function NextCurrent(last: Option<int>, current: Option<Row>, c: Command): Option<Row> {
    if Accepts(last, c) && c.tag != "" then Some(c.row) else current
  }

  /** `current` as the tag-moving publishes alone would leave it. */
  function CurrentAlone(last: Option<int>, current: Option<Row>, cs: seq<Command>): Option<Row>
    decreases |cs|
  {
    if cs == [] then current
    else CurrentAlone(NextLast(last, cs[0]), NextCurrent(last, current, cs[0]), cs[1..])
  }

  lemma {:induction false} CurrentHasOneWriter(l: Ledger, cs: seq<Command>)
    ensures Run(l, cs).doc.current == CurrentAlone(l.doc.last, l.doc.current, cs)
    decreases |cs|
  {
    if cs != [] {
      CurrentHasOneWriter(Execute(l, cs[0]), cs[1..]);
    }
  }

  function NextShadow(last: Option<int>, current: Option<Row>, shadow: Option<Row>, c: Command): Option<Row> {
    if !Accepts(last, c) then shadow
    else if c.tag != "" then None
    else if current.Some? && c.row.entrySeq == current.value.entrySeq then Some(c.row)
    else shadow
  }

  /** The last row accepted without the tag, since the tag last moved, at the sequence
      it moved to. */
  function Shadow(last: Option<int>, current: Option<Row>, shadow: Option<Row>, cs: seq<Command>): Option<Row>
    decreases |cs|
  {
    if cs == [] then shadow
    else Shadow(NextLast(last, cs[0]), NextCurrent(last, current, cs[0]), NextShadow(last, current, shadow, cs[0]), cs[1..])
  }

  /** The row listed for the sequence of `current`. */
  ghost predicate ShadowOk(doc: Doc, shadow: Option<Row>) {
    if doc.current.None? then shadow.None?
    else if shadow.None? then doc.current.value in doc.entries
    else shadow.value in doc.entries && shadow.value.entrySeq == doc.current.value.entrySeq
  }

  lemma ShadowPut(doc: Doc, shadow: Option<Row>, row: Row, tag: string)
    requires WellFormed(doc) && ShadowOk(doc, shadow) && Publishable(doc, row)
    ensures ShadowOk(Publish(doc, row, tag),
                     if tag != "" then None
                     else if doc.current.Some? && row.entrySeq == doc.current.value.entrySeq then Some(row) else shadow)
  {
    PublishShape(doc, row, tag);
    PutHolds(doc.entries, row, row);
    if tag == "" && doc.current.Some? {
      PutHolds(doc.entries, row, if shadow.Some? then shadow.value else doc.current.value);
    }
  }

  lemma ShadowStep(l: Ledger, shadow: Option<Row>, c: Command)
    requires WellFormed(l.doc) && ShadowOk(l.doc, shadow)
    ensures var after := Execute(l, c).doc;
      && WellFormed(after) && after.last == NextLast(l.doc.last, c) && after.current == NextCurrent(l.doc.last, l.doc.current, c)
      && ShadowOk(after, NextShadow(l.doc.last, l.doc.current, shadow, c))
  {
    ExecuteKeeps(l, c);
    if c.PublishCmd? && Publishable(l.doc, c.row) {
      ShadowPut(l.doc, shadow, c.row, c.tag);
    }
  }

  lemma {:induction false} ShadowFollows(l: Ledger, shadow: Option<Row>, cs: seq<Command>)
    requires WellFormed(l.doc) && ShadowOk(l.doc, shadow)
    ensures WellFormed(Run(l, cs).doc) && ShadowOk(Run(l, cs).doc, Shadow(l.doc.last, l.doc.current, shadow, cs))
    decreases |cs|
  {
    if cs != [] {
      ShadowStep(l, shadow, cs[0]);
      ShadowFollows(Execute(l, cs[0]), NextShadow(l.doc.last, l.doc.current, shadow, cs[0]), cs[1..]);
    }
  }

  /** Over every run from an empty ledger: `current` is a listed row exactly when no
      untagged publish of its sequence came after the tag last moved, or the last of
      them brought the very same row. */
  lemma CurrentListedIff(cs: seq<Command>)
    ensures var doc := Run(Ledger(NO_DOC, map[]), cs).doc;
      doc.current.Some? ==>
        (doc.current.value in doc.entries <==>
          Shadow(None, None, None, cs).None? || Shadow(None, None, None, cs) == doc.current)
  {
    ShadowFollows(Ledger(NO_DOC, map[]), None, cs);
    var doc, shadow := Run(Ledger(NO_DOC, map[]), cs).doc, Shadow(None, None, None, cs);
    if doc.current.Some? && shadow.Some? && doc.current.value in doc.entries {
      var i :| 0 <= i < |doc.entries| && doc.entries[i] == doc.current.value;
      var j :| 0 <= j < |doc.entries| && doc.entries[j] == shadow.value;
    }
  }

  lemma IngestKeepsRevocation(revoked: bool, receipt: Receipt, report: Report, latest: Option<int>, now: int)
    ensures Revoked in Ingest(revoked, receipt, report, latest, now).flags <==> revoked
  {
    var flags := Ingest(revoked, receipt, report, latest, now).flags;
    if revoked {
      assert Revoked in [Revoked];
    }
  }

  lemma ExecuteKeepsRevocation(l: Ledger, c: Command, station: string)
    ensures IsRevoked(Execute(l, c), station) <==> IsRevoked(l, station)
  {
    if c.IngestCmd? {
      IngestKeepsRevocation(IsRevoked(l, c.station), c.receipt, c.report, l.doc.last, c.now);
    }
  }

  /** No command sets or clears a revocation: it is a human's word. */
  lemma {:induction false} RevocationSurvives(l: Ledger, cs: seq<Command>, station: string)
    ensures IsRevoked(Run(l, cs), station) <==> IsRevoked(l, station)
    decreases |cs|
  {
    if cs != [] {
      ExecuteKeepsRevocation(l, cs[0], station);
      RevocationSurvives(Execute(l, cs[0]), cs[1..], station);
    }
  }

  function LastIngest(cs: seq<Command>, station: string): Option<nat> {
    if cs == [] then None
    else
      var last := cs[|cs| - 1];
      if last.IngestCmd? && last.station == station then Some(|cs| - 1) else LastIngest(cs[..|cs| - 1], station)
  }

  lemma {:induction false} RunSnoc(l: Ledger, cs: seq<Command>, c: Command)
    ensures Run(l, cs + [c]) == Execute(Run(l, cs), c)
    decreases |cs|
  {
    if cs == [] {
      assert (cs + [c])[1..] == [];
    } else {
      assert (cs + [c])[0] == cs[0] && (cs + [c])[1..] == cs[1..] + [c];
      RunSnoc(Execute(l, cs[0]), cs[1..], c);
    }
  }

  /** Apart from the revocation, a station's state is a function of its last bundle
      and of the newest sequence at that moment: derived flags are never inherited. */
  lemma {:induction false} StationIsItsLastIngest(l: Ledger, cs: seq<Command>, station: string)
    requires LastIngest(cs, station).Some?
    ensures var i := LastIngest(cs, station).value;
            && i < |cs| && cs[i].IngestCmd? && cs[i].station == station
            && station in Run(l, cs).stations
            && Run(l, cs).stations[station]
               == Ingest(IsRevoked(l, station), cs[i].receipt, cs[i].report, Run(l, cs[..i]).doc.last, cs[i].now)
  {
    var front, last := cs[..|cs| - 1], cs[|cs| - 1];
    assert cs == front + [last];
    RunSnoc(l, front, last);
    RevocationSurvives(l, front, station);
    if !(last.IngestCmd? && last.station == station) {
      StationIsItsLastIngest(l, front, station);
      var i := LastIngest(front, station).value;
      assert cs[..i] == front[..i];
    }
  }
}
