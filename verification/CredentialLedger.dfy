/** The credential reducer (publisher/vexa_stations.py): the edge's attempts log,
    copied back any number of times, merged into one station's event list. */
module CredentialLedger {
  import opened Wrappers
  import opened Ordering

  // ---------------------------------------------------------------- events

  datatype Value = Null | Text(text: string) | Number(n: int)

  type Event = map<string, Value>

  const FORBIDDEN_EVENT_KEYS := {"password", "pass", "secret", "credential", "ciphertext",
                                 "code", "claim_code", "code_salt", "token", "htpasswd"}

  datatype Refusal = UnknownKind | NoTimestamp | Leak

  function Field(e: Event, key: string): Value {
    if key in e then e[key] else Null
  }

  function CheckEvent(e: Event): Option<Refusal> {
    if Field(e, "event") !in {Text("park"), Text("claim")} then Some(UnknownKind)
    else if Field(e, "ts") in {Null, Text(""), Number(0)} then Some(NoTimestamp)
    else if e.Keys * FORBIDDEN_EVENT_KEYS != {} then Some(Leak)
    else None
  }

  predicate OfKind(e: Event) { "event" in e && (e["event"] == Text("park") || e["event"] == Text("claim")) }

  predicate Dated(e: Event) { "ts" in e && e["ts"] != Null && e["ts"] != Text("") && e["ts"] != Number(0) }

  predicate Discreet(e: Event) {
    e.Keys !! {"password", "pass", "secret", "credential", "ciphertext", "code", "claim_code", "code_salt", "token", "htpasswd"}
  }

  /** A park or a claim, dated, and without a key that could carry a value. */
  predicate Admissible(e: Event) { OfKind(e) && Dated(e) && Discreet(e) }

  predicate RefusedFor(e: Event, why: Refusal) {
    match why
    case UnknownKind => !OfKind(e)
    case NoTimestamp => OfKind(e) && !Dated(e)
    case Leak => OfKind(e) && Dated(e) && !Discreet(e)
  }

  lemma CheckEventMeans(e: Event)
    ensures CheckEvent(e).None? <==> Admissible(e)
    ensures CheckEvent(e).Some? ==> RefusedFor(e, CheckEvent(e).value)
  {
    if e.Keys * FORBIDDEN_EVENT_KEYS == {} {
      forall key | key in e.Keys ensures key !in FORBIDDEN_EVENT_KEYS {
        assert key in FORBIDDEN_EVENT_KEYS ==> key in e.Keys * FORBIDDEN_EVENT_KEYS;
      }
    }
  }

  /** The row the ledger keeps; two rows are the same when they hold the same. */
  function RowOf(e: Event): Event {
    map k | k in e && e[k] != Null :: e[k]
  }

  /** A row reads as its event does, and holds no null. */
  lemma RowReads(e: Event, key: string)
    ensures Field(RowOf(e), key) == Field(e, key)
    ensures key in RowOf(e) <==> Field(e, key) != Null
  {
  }

  // ---------------------------------------------------------------- the order of rows

  function TextOr(v: Value): string { if v.Text? then v.text else "" }

  function NumberOr(v: Value): int { if v.Number? then v.n else 0 }

  predicate RowLeq(a: Event, b: Event) {
    var (t, u) := (TextOr(Field(a, "ts")), TextOr(Field(b, "ts")));
    var (e, f) := (TextOr(Field(a, "event")), TextOr(Field(b, "event")));
    if t != u then LexLeq(t, u)
    else if e != f then LexLeq(e, f)
    else NumberOr(Field(a, "seq")) <= NumberOr(Field(b, "seq"))
  }

  lemma RowOrder()
    ensures TotalPreorder(RowLeq)
  {
    LexOrder();
    forall a, b, c | RowLeq(a, b) && RowLeq(b, c) ensures RowLeq(a, c) {
      RowTransitive(a, b, c);
    }
  }

  lemma RowTransitive(a: Event, b: Event, c: Event)
    requires RowLeq(a, b) && RowLeq(b, c)
    ensures RowLeq(a, c)
  {
    LexOrder();
    var t, u, v := TextOr(Field(a, "ts")), TextOr(Field(b, "ts")), TextOr(Field(c, "ts"));
    var e, f, g := TextOr(Field(a, "event")), TextOr(Field(b, "event")), TextOr(Field(c, "event"));
    assert LexLeq(t, u) && LexLeq(u, v) ==> LexLeq(t, v);
    assert LexLeq(u, t) && LexLeq(t, u) ==> t == u;
    assert LexLeq(e, f) && LexLeq(f, g) ==> LexLeq(e, g);
  }

  // ---------------------------------------------------------------- one batch

  /** The rows of a batch that the list does not hold yet, each once. */
  function NewRows(known: seq<Event>, batch: seq<Event>): seq<Event> {
    if batch == [] then []
    else
      var added, row := NewRows(known, batch[..|batch| - 1]), RowOf(batch[|batch| - 1]);
      if row in known || row in added then added else added + [row]
  }

  predicate Clean(batch: seq<Event>) {
    forall i | 0 <= i < |batch| :: CheckEvent(batch[i]).None?
  }

  lemma CleanMeans(batch: seq<Event>)
    ensures Clean(batch) <==> forall i | 0 <= i < |batch| :: Admissible(batch[i])
  {
    forall i | 0 <= i < |batch| ensures CheckEvent(batch[i]).None? <==> Admissible(batch[i]) {
      CheckEventMeans(batch[i]);
    }
  }

  predicate FirstRefused(batch: seq<Event>, i: nat, why: Refusal)
    requires i < |batch|
  {
    RefusedFor(batch[i], why) && forall j | 0 <= j < i :: Admissible(batch[j])
  }

  function Merge(events: seq<Event>, batch: seq<Event>): seq<Event> {
    var added := NewRows(events, batch);
    if added == [] then events else Sort(RowLeq, events + added)
  }

  /** A batch with a refused event changes nothing. */
  function Ingest(events: seq<Event>, batch: seq<Event>): seq<Event> {
    if Clean(batch) then Merge(events, batch) else events
  }

  class EventFile {
    var events: seq<Event>

    constructor ()
      ensures events == []
    {
      events := [];
    }

    method Record(batch: seq<Event>) returns (r: Result<nat, Refusal>)
      modifies this
      ensures events == Ingest(old(events), batch)
      ensures r.Ok? <==> forall i | 0 <= i < |batch| :: Admissible(batch[i])
      ensures r.Ok? ==> |events| == |old(events)| + r.value
      ensures r.Err? ==> exists i :: 0 <= i < |batch| && FirstRefused(batch, i, r.error)
      ensures r.Err? ==> events == old(events)
    {
      var known, count := events, 0;
      for i := 0 to |batch|
        invariant Clean(batch[..i]) && events == old(events)
        invariant known == events + NewRows(events, batch[..i])
        invariant count == |NewRows(events, batch[..i])|
      {
        var refusal := CheckEvent(batch[i]);
        assert batch[..i + 1][..i] == batch[..i];
        CheckEventMeans(batch[i]);
        if refusal.Some? {
          CleanMeans(batch[..i]);
          assert forall j | 0 <= j < i :: batch[..i][j] == batch[j];
          assert FirstRefused(batch, i, refusal.value);
          return Err(refusal.value);
        }
        var row := RowOf(batch[i]);
        if row !in known {
          known := known + [row];
          count := count + 1;
        }
      }
      assert batch[..|batch|] == batch;
      CleanMeans(batch);
      SortMultiset(RowLeq, known);
      known := Sort(RowLeq, known);
      if count > 0 {
        events := known;
      }
      return Ok(count);
    }
  }

  // ---------------------------------------------------------------- any number of batches

  function IngestAll(batches: seq<seq<Event>>): seq<Event> {
    if batches == [] then [] else Ingest(IngestAll(batches[..|batches| - 1]), batches[|batches| - 1])
  }

  /** Some event of some accepted batch becomes this row. */
  ghost predicate Covered(batches: seq<seq<Event>>, row: Event) {
    exists b :: 0 <= b < |batches| && Brings(batches[b], row)
  }

  lemma {:induction false} NewRowsHolds(known: seq<Event>, batch: seq<Event>, row: Event)
    ensures row in NewRows(known, batch) <==> row !in known && exists i :: 0 <= i < |batch| && RowOf(batch[i]) == row
  {
    if batch != [] {
      NewRowsHolds(known, batch[..|batch| - 1], row);
    }
  }

  lemma {:induction false} NewRowsDistinct(known: seq<Event>, batch: seq<Event>)
    requires NoDuplicates(known)
    ensures NoDuplicates(known + NewRows(known, batch))
  {
    if batch == [] {
      assert known + [] == known;
    } else {
      var added, row := NewRows(known, batch[..|batch| - 1]), RowOf(batch[|batch| - 1]);
      NewRowsDistinct(known, batch[..|batch| - 1]);
      if row !in known && row !in added {
        assert known + NewRows(known, batch) == (known + added) + [row];
      }
    }
  }

  lemma InSort(s: seq<Event>, row: Event)
    ensures row in Sort(RowLeq, s) <==> row in s
  {
    SortMultiset(RowLeq, s);
    assert row in Sort(RowLeq, s) <==> row in multiset(Sort(RowLeq, s));
    assert row in s <==> row in multiset(s);
  }

  lemma MergeKeeps(events: seq<Event>, batch: seq<Event>)
    requires NoDuplicates(events) && Sorted(events, RowLeq)
    ensures var merged := Merge(events, batch); NoDuplicates(merged) && Sorted(merged, RowLeq)
  {
    var all := events + NewRows(events, batch);
    NewRowsDistinct(events, batch);
    NoDuplicatesMultiset(all);
    NoDuplicatesMultiset(Sort(RowLeq, all));
    SortMultiset(RowLeq, all);
    RowOrder();
    SortSorted(RowLeq, all);
  }

  lemma MergeHolds(events: seq<Event>, batch: seq<Event>, row: Event)
    ensures row in Merge(events, batch) <==>
              row in events || exists i :: 0 <= i < |batch| && RowOf(batch[i]) == row
  {
    NewRowsHolds(events, batch, row);
    var added := NewRows(events, batch);
    InSort(events + added, row);
  }

  ghost predicate Brings(batch: seq<Event>, row: Event) {
    Clean(batch) && exists i :: 0 <= i < |batch| && RowOf(batch[i]) == row
  }

  lemma CoveredSnoc(batches: seq<seq<Event>>, batch: seq<Event>, row: Event)
    ensures Covered(batches + [batch], row) <==> Covered(batches, row) || Brings(batch, row)
  {
    var all := batches + [batch];
    if Covered(batches, row) {
      var b :| 0 <= b < |batches| && Brings(batches[b], row);
      assert Brings(all[b], row);
    }
    if Brings(batch, row) {
      assert Brings(all[|batches|], row);
    }
    if Covered(all, row) {
      var b :| 0 <= b < |all| && Brings(all[b], row);
      if b < |batches| {
        assert Brings(batches[b], row);
      }
    }
  }

  /** The list is duplicate-free and sorted, and holds exactly the covered rows. */
  lemma {:induction false} IngestAllHolds(batches: seq<seq<Event>>)
    ensures var events := IngestAll(batches);
            && NoDuplicates(events) && Sorted(events, RowLeq)
            && forall row :: row in events <==> Covered(batches, row)
  {
    if batches != [] {
      var before, batch := batches[..|batches| - 1], batches[|batches| - 1];
      IngestAllHolds(before);
      MergeKeeps(IngestAll(before), batch);
      assert batches == before + [batch];
      forall row ensures row in IngestAll(batches) <==> Covered(batches, row) {
        MergeHolds(IngestAll(before), batch, row);
        CoveredSnoc(before, batch, row);
      }
    }
  }

  /** Whatever is ingested, no row of the list carries a forbidden key, and every row is
      a dated park or claim. */
  lemma RowsAreAdmissible(batches: seq<seq<Event>>, row: Event)
    requires row in IngestAll(batches)
    ensures row.Keys !! {"password", "pass", "secret", "credential", "ciphertext", "code", "claim_code", "code_salt",
                         "token", "htpasswd"}
    ensures "event" in row && (row["event"] == Text("park") || row["event"] == Text("claim"))
    ensures "ts" in row && row["ts"] != Null && row["ts"] != Text("") && row["ts"] != Number(0)
  {
    IngestAllHolds(batches);
    var b :| 0 <= b < |batches| && Brings(batches[b], row);
    CleanMeans(batches[b]);
    var i :| 0 <= i < |batches[b]| && RowOf(batches[b][i]) == row;
    assert Admissible(batches[b][i]);
    RowReads(batches[b][i], "event");
    RowReads(batches[b][i], "ts");
    assert row.Keys <= batches[b][i].Keys;
  }

  /** The number of an event; one without a number counts as zero. */
  ghost predicate Counts(e: Event, n: int) {
    Field(e, "seq") == Number(n) || (n == 0 && !Field(e, "seq").Number?)
  }

  /** The list is in the order of time; claims before parks of the same time; and by
      number among those. */
  lemma RowsAreInOrder(batches: seq<seq<Event>>, i: nat, j: nat, t: string, u: string, m: int, n: int)
    requires i < j < |IngestAll(batches)|
    requires Field(IngestAll(batches)[i], "ts") == Text(t) && Field(IngestAll(batches)[j], "ts") == Text(u)
    requires Counts(IngestAll(batches)[i], m) && Counts(IngestAll(batches)[j], n)
    ensures var (a, b) := (IngestAll(batches)[i], IngestAll(batches)[j]);
      && LexLeq(t, u)
      && (t == u ==> Field(a, "event") == Text("claim") || Field(b, "event") == Text("park"))
      && (t == u && Field(a, "event") == Field(b, "event") ==> m <= n)
  {
    IngestAllHolds(batches);
    var a, b := IngestAll(batches)[i], IngestAll(batches)[j];
    RowsAreAdmissible(batches, a);
    RowsAreAdmissible(batches, b);
    assert RowLeq(a, b);
    LexTotal(t, t);
    assert "park"[0] == 'p' && "claim"[0] == 'c';
  }

  /** Copying a batch back again adds nothing. */
  lemma ReingestIsNoOp(batches: seq<seq<Event>>, again: seq<Event>)
    requires forall i | 0 <= i < |again| :: Covered(batches, RowOf(again[i]))
    ensures IngestAll(batches + [again]) == IngestAll(batches)
  {
    assert (batches + [again])[..|batches|] == batches;
    IngestAllHolds(batches);
    var events := IngestAll(batches);
    if NewRows(events, again) != [] {
      var row := NewRows(events, again)[0];
      NewRowsHolds(events, again, row);
    }
  }

  lemma SameRowsSameMultiset(s: seq<Event>, t: seq<Event>)
    requires NoDuplicates(s) && NoDuplicates(t)
    requires forall row :: row in s <==> row in t
    ensures multiset(s) == multiset(t)
  {
    NoDuplicatesMultiset(s);
    NoDuplicatesMultiset(t);
    forall row ensures multiset(s)[row] == multiset(t)[row] {
      assert row in s <==> row in multiset(s);
      assert row in t <==> row in multiset(t);
    }
  }

  /** Two histories that cover the same rows end in the same set of events, and in
      the same list when no two rows share a sort key. */
  lemma OrderOfBatchesIsImmaterial(left: seq<seq<Event>>, right: seq<seq<Event>>)
    requires forall row :: Covered(left, row) <==> Covered(right, row)
    ensures multiset(IngestAll(left)) == multiset(IngestAll(right))
    ensures NoTies(IngestAll(left), RowLeq) ==> IngestAll(left) == IngestAll(right)
  {
    IngestAllHolds(left);
    IngestAllHolds(right);
    SameRowsSameMultiset(IngestAll(left), IngestAll(right));
    if NoTies(IngestAll(left), RowLeq) {
      RowOrder();
      SortedUnique(RowLeq, IngestAll(left), IngestAll(right));
    }
  }
}
