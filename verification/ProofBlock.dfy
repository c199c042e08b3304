/**
 * The `values_proven` block: its builder (publisher/vexa_values_proven.py:164-216), its own rules
 * (publisher/vexa_channel.py:577-644) and the verdict on it (publisher/vexa_station_verdict.py:120-149).
 */
module ProofBlock {
  import opened Wrappers
  import opened Lines
  import opened Fills
  import opened ValuesProven

  /** V1 a bad contract, V2 a bad map, V3 a required value unproven, E4 a malformed block. */
  datatype Failure = V1 | V2 | V3 | E4

  datatype Value = Value(id: string, required: bool)

  datatype Verdict = Proven | Waived | OtherVerdict(text: string)

  datatype Row = Row(id: string, verdict: Verdict, station: string, waivedBy: string, evidence: seq<Evidence>)

  datatype Job = Job(values: seq<Value>, mapping: map<string, string>, text: string, source: string, station: string)

  predicate Blank(s: string) { Strip(s) == "" }

  // ---------------------------------------------------------------- the block's own rules

  predicate LowerHex(c: char) { IsDigit(c) || 'a' <= c <= 'f' }

  /** `sha256:` and 64 lower-case hexadecimal digits. */
  predicate IsSha256(s: string) {
    |s| == 71 && s[..7] == "sha256:" && forall i | 7 <= i < 71 :: LowerHex(s[i])
  }

  predicate ValidEvidence(e: Evidence) {
    && !Blank(e.what) && !Blank(e.source) && Fits(SECONDS, e.testedAt)
    && (e.subjectDigest.Some? ==> IsSha256(e.subjectDigest.value))
  }

  predicate ValidRow(r: Row) {
    && !Blank(r.id) && !Blank(r.station)
    && match r.verdict
       case Proven => r.evidence != [] && forall i | 0 <= i < |r.evidence| :: ValidEvidence(r.evidence[i])
       case Waived => !Blank(r.waivedBy)
       case OtherVerdict(_) => false
  }

  function Ids(rows: seq<Row>): set<string> {
    if rows == [] then {} else Ids(rows[..|rows| - 1]) + {rows[|rows| - 1].id}
  }

  /** Every row names a value no earlier row names. */
  predicate DistinctIds(rows: seq<Row>) {
    rows == [] || (DistinctIds(rows[..|rows| - 1]) && rows[|rows| - 1].id !in Ids(rows[..|rows| - 1]))
  }

  predicate Every(valid: Row -> bool, rows: seq<Row>) {
    rows == [] || (Every(valid, rows[..|rows| - 1]) && valid(rows[|rows| - 1]))
  }

  predicate EachValid(rows: seq<Row>) { Every(ValidRow, rows) }

  predicate ValidSoFar(rows: seq<Row>) { DistinctIds(rows) && EachValid(rows) }

  predicate ValidRows(rows: seq<Row>) { rows != [] && ValidSoFar(rows) }

  lemma {:induction false} BrokenStays(rows: seq<Row>, n: nat)
    requires n <= |rows| && !ValidSoFar(rows[..n])
    ensures !ValidSoFar(rows)
  {
    if n < |rows| {
      assert rows[..|rows| - 1][..n] == rows[..n];
      BrokenStays(rows[..|rows| - 1], n);
    } else {
      assert rows[..n] == rows;
    }
  }

  lemma NextRow(rows: seq<Row>, n: nat)
    requires n < |rows|
    ensures ValidSoFar(rows[..n + 1]) <==> ValidSoFar(rows[..n]) && rows[n].id !in Ids(rows[..n]) && ValidRow(rows[n])
    ensures Ids(rows[..n + 1]) == Ids(rows[..n]) + {rows[n].id}
    ensures Answered(rows[..n + 1]) == Answered(rows[..n]) + if Answering(rows[n]) then {rows[n].id} else {}
  {
    assert rows[..n + 1][..n] == rows[..n];
  }

  method CheckValuesProven(rows: seq<Row>) returns (ok: bool)
    ensures ok <==> ValidRows(rows)
  {
    if rows == [] {
      return false;
    }
    var seen: set<string> := {};
    for n := 0 to |rows|
      invariant seen == Ids(rows[..n]) && ValidSoFar(rows[..n])
    {
      NextRow(rows, n);
      if rows[n].id in seen || !ValidRow(rows[n]) {
        BrokenStays(rows, n + 1);
        return false;
      }
      seen := seen + {rows[n].id};
    }
    assert rows[..|rows|] == rows;
    return true;
  }

  lemma {:induction false} IdIn(rows: seq<Row>, i: nat)
    requires i < |rows|
    ensures rows[i].id in Ids(rows)
  {
    if i < |rows| - 1 {
      IdIn(rows[..|rows| - 1], i);
    }
  }

  /** No two rows of a valid block name the same value. */
  lemma {:induction false} IdsDiffer(rows: seq<Row>, i: nat, j: nat)
    requires DistinctIds(rows) && i < j < |rows|
    ensures rows[i].id != rows[j].id
  {
    var front := rows[..|rows| - 1];
    if j < |front| {
      IdsDiffer(front, i, j);
    } else {
      IdIn(front, i);
    }
  }

  // ---------------------------------------------------------------- building

  predicate ContractOk(values: seq<Value>) {
    values != [] && forall i | 0 <= i < |values| :: values[i].id != ""
  }

  function Declared(values: seq<Value>): set<string> {
    if values == [] then {} else Declared(values[..|values| - 1]) + {values[|values| - 1].id}
  }

  predicate MapOk(values: seq<Value>, mapping: map<string, string>) {
    && mapping != map[]
    && forall row | row in mapping :: !Blank(row) && !Blank(mapping[row]) && mapping[row] in Declared(values)
  }

  function Proofs(job: Job): map<string, seq<Evidence>> {
    ProofMap(Outcomes(Split(job.text), job.mapping, job.source))
  }

  function RowsFrom(values: seq<Value>, proofs: map<string, seq<Evidence>>, station: string): seq<Row> {
    if values == [] then []
    else
      var id := values[|values| - 1].id;
      RowsFrom(values[..|values| - 1], proofs, station)
      + if Get(proofs, id) != [] then [Row(id, Proven, station, "", Get(proofs, id))] else []
  }

  /** Required values that nothing proves. */
  function Unproven(values: seq<Value>, proofs: map<string, seq<Evidence>>): seq<string> {
    if values == [] then []
    else
      var last := values[|values| - 1];
      Unproven(values[..|values| - 1], proofs)
      + if last.required && Get(proofs, last.id) == [] then [last.id] else []
  }

  function BuildFrom(values: seq<Value>, mapping: map<string, string>, proofs: map<string, seq<Evidence>>, station: string)
    : Result<seq<Row>, Failure>
  {
    if !ContractOk(values) then Err(V1)
    else if !MapOk(values, mapping) then Err(V2)
    else
      var rows := RowsFrom(values, proofs, station);
      if Unproven(values, proofs) != [] then Err(V3)
      else if !ValidRows(rows) then Err(E4)
      else Ok(rows)
  }

  function Build(job: Job): Result<seq<Row>, Failure> {
    BuildFrom(job.values, job.mapping, Proofs(job), job.station)
  }

  lemma NextValue(values: seq<Value>, proofs: map<string, seq<Evidence>>, station: string, n: nat)
    requires n < |values|
    ensures RowsFrom(values[..n + 1], proofs, station) == RowsFrom(values[..n], proofs, station)
            + if Get(proofs, values[n].id) != [] then [Row(values[n].id, Proven, station, "", Get(proofs, values[n].id))] else []
    ensures Unproven(values[..n + 1], proofs) == Unproven(values[..n], proofs)
            + if values[n].required && Get(proofs, values[n].id) == [] then [values[n].id] else []
  {
    assert values[..n + 1][..n] == values[..n];
  }

  method AnswerValues(values: seq<Value>, proofs: map<string, seq<Evidence>>, station: string)
    returns (rows: seq<Row>, unproven: seq<string>)
    ensures rows == RowsFrom(values, proofs, station) && unproven == Unproven(values, proofs)
  {
    rows, unproven := [], [];
    for n := 0 to |values|
      invariant rows == RowsFrom(values[..n], proofs, station)
      invariant unproven == Unproven(values[..n], proofs)
    {
      NextValue(values, proofs, station, n);
      var evidence := Get(proofs, values[n].id);
      if evidence != [] {
        rows := rows + [Row(values[n].id, Proven, station, "", evidence)];
      } else if values[n].required {
        unproven := unproven + [values[n].id];
      }
    }
    assert values[..|values|] == values;
  }

  method BuildBlock(job: Job) returns (r: Result<seq<Row>, Failure>)
    ensures r == Build(job)
  {
    if !ContractOk(job.values) {
      return Err(V1);
    }
    if !MapOk(job.values, job.mapping) {
      return Err(V2);
    }
    var proofs, _ := Collect(job.text, job.mapping, job.source);
    var rows, unproven := AnswerValues(job.values, proofs, job.station);
    if unproven != [] {
      return Err(V3);
    }
    var ok := CheckValuesProven(rows);
    if !ok {
      return Err(E4);
    }
    return Ok(rows);
  }

  // ---------------------------------------------------------------- the verdict

  datatype Judgement = Judgement(eligible: bool, unanswered: seq<string>, stray: set<string>)

  predicate Answering(r: Row) { r.verdict.Proven? || r.verdict.Waived? }

  function Answered(rows: seq<Row>): set<string> {
    if rows == [] then {}
    else
      var last := rows[|rows| - 1];
      Answered(rows[..|rows| - 1]) + if Answering(last) then {last.id} else {}
  }

  function Unanswered(values: seq<Value>, answered: set<string>): seq<string> {
    if values == [] then []
    else
      var last := values[|values| - 1];
      Unanswered(values[..|values| - 1], answered)
      + if last.required && last.id !in answered then [last.id] else []
  }

  function Judge(values: seq<Value>, rows: seq<Row>): Result<Judgement, Failure> {
    if !ContractOk(values) then Err(V1)
    else if !ValidRows(rows) then Err(E4)
    else
      var unanswered := Unanswered(values, Answered(rows));
      Ok(Judgement(unanswered == [], unanswered, Answered(rows) - Declared(values)))
  }

  lemma NextUnanswered(values: seq<Value>, answered: set<string>, n: nat)
    requires n < |values|
    ensures Unanswered(values[..n + 1], answered) == Unanswered(values[..n], answered)
            + if values[n].required && values[n].id !in answered then [values[n].id] else []
  {
    assert values[..n + 1][..n] == values[..n];
  }

  method CollectAnswered(rows: seq<Row>) returns (answered: set<string>)
    ensures answered == Answered(rows)
  {
    answered := {};
    for n := 0 to |rows|
      invariant answered == Answered(rows[..n])
    {
      NextRow(rows, n);
      if Answering(rows[n]) {
        answered := answered + {rows[n].id};
      }
    }
    assert rows[..|rows|] == rows;
  }

  method CollectUnanswered(values: seq<Value>, answered: set<string>) returns (unanswered: seq<string>)
    ensures unanswered == Unanswered(values, answered)
  {
    unanswered := [];
    for n := 0 to |values|
      invariant unanswered == Unanswered(values[..n], answered)
    {
      NextUnanswered(values, answered, n);
      if values[n].required && values[n].id !in answered {
        unanswered := unanswered + [values[n].id];
      }
    }
    assert values[..|values|] == values;
  }

  method Compute(values: seq<Value>, rows: seq<Row>) returns (r: Result<Judgement, Failure>)
    ensures r == Judge(values, rows)
  {
    if !ContractOk(values) {
      return Err(V1);
    }
    var ok := CheckValuesProven(rows);
    if !ok {
      return Err(E4);
    }
    var answered := CollectAnswered(rows);
    var unanswered := CollectUnanswered(values, answered);
    return Ok(Judgement(unanswered == [], unanswered, answered - Declared(values)));
  }

  // ---------------------------------------------------------------- the agreement

  lemma {:induction false} AnsweredIff(rows: seq<Row>, id: string)
    ensures id in Answered(rows) <==> exists i :: 0 <= i < |rows| && rows[i].id == id && Answering(rows[i])
  {
    if rows != [] {
      var n := |rows| - 1;
      AnsweredIff(rows[..n], id);
      assert forall i | 0 <= i < n :: rows[..n][i] == rows[i];
    }
  }

  lemma {:induction false} UnansweredIff(values: seq<Value>, answered: set<string>)
    ensures Unanswered(values, answered) == []
            <==> forall i | 0 <= i < |values| && values[i].required :: values[i].id in answered
  {
    if values != [] {
      var n := |values| - 1;
      UnansweredIff(values[..n], answered);
      assert forall i | 0 <= i < n :: values[..n][i] == values[i];
    }
  }

  lemma {:induction false} EveryAt(valid: Row -> bool, rows: seq<Row>, i: nat)
    requires Every(valid, rows) && i < |rows|
    ensures valid(rows[i])
  {
    if i < |rows| - 1 {
      EveryAt(valid, rows[..|rows| - 1], i);
    }
  }

  /** Exactly one row names `id`, and it holds evidence or the name of whoever waived it. */
  ghost predicate OneAnswer(rows: seq<Row>, id: string) {
    exists i :: 0 <= i < |rows| && Answers(rows, id, i)
  }

  ghost predicate Answers(rows: seq<Row>, id: string, i: nat)
    requires i < |rows|
  {
    && rows[i].id == id
    && (|| (rows[i].verdict == Proven && rows[i].evidence != [])
        || (rows[i].verdict == Waived && !Blank(rows[i].waivedBy)))
    && forall j | 0 <= j < |rows| && rows[j].id == id :: j == i
  }

  lemma AnsweredOnce(rows: seq<Row>, id: string)
    requires ValidRows(rows)
    ensures id in Answered(rows) <==> OneAnswer(rows, id)
  {
    AnsweredIff(rows, id);
    if id in Answered(rows) {
      var i :| 0 <= i < |rows| && rows[i].id == id && Answering(rows[i]);
      EveryAt(ValidRow, rows, i);
      forall j | 0 <= j < |rows| && rows[j].id == id ensures j == i {
        if i < j {
          IdsDiffer(rows, i, j);
        } else if j < i {
          IdsDiffer(rows, j, i);
        }
      }
      assert Answers(rows, id, i);
    }
  }

  /** ELIGIBLE says that every required value has exactly one answer, and no less. */
  lemma EligibleIff(values: seq<Value>, rows: seq<Row>)
    requires Judge(values, rows).Ok?
    ensures Judge(values, rows).value.eligible
            <==> forall i | 0 <= i < |values| && values[i].required :: OneAnswer(rows, values[i].id)
  {
    UnansweredIff(values, Answered(rows));
    forall i | 0 <= i < |values| ensures values[i].id in Answered(rows) <==> OneAnswer(rows, values[i].id) {
      AnsweredOnce(rows, values[i].id);
    }
  }

  ghost predicate RequiredProven(values: seq<Value>, proofs: map<string, seq<Evidence>>) {
    forall i | 0 <= i < |values| && values[i].required :: Get(proofs, values[i].id) != []
  }

  lemma {:induction false} UnprovenIff(values: seq<Value>, proofs: map<string, seq<Evidence>>)
    ensures Unproven(values, proofs) == [] <==> RequiredProven(values, proofs)
  {
    if values != [] {
      var n := |values| - 1;
      UnprovenIff(values[..n], proofs);
      assert forall i | 0 <= i < n :: values[..n][i] == values[i];
    }
  }

  /** The rows answer exactly the declared values that have evidence. */
  lemma {:induction false} RowsAnswer(values: seq<Value>, proofs: map<string, seq<Evidence>>, station: string, id: string)
    ensures id in Answered(RowsFrom(values, proofs, station)) <==> id in Declared(values) && Get(proofs, id) != []
    ensures id in Ids(RowsFrom(values, proofs, station)) <==> id in Declared(values) && Get(proofs, id) != []
  {
    if values != [] {
      var front := RowsFrom(values[..|values| - 1], proofs, station);
      RowsAnswer(values[..|values| - 1], proofs, station, id);
      var rows := RowsFrom(values, proofs, station);
      if rows != front {
        assert rows[..|rows| - 1] == front;
      }
    }
  }

  lemma {:induction false} DeclaredIn(values: seq<Value>, i: nat)
    requires i < |values|
    ensures values[i].id in Declared(values)
  {
    if i < |values| - 1 {
      DeclaredIn(values[..|values| - 1], i);
    }
  }

  lemma RowsAnswerAll(values: seq<Value>, proofs: map<string, seq<Evidence>>, station: string)
    ensures Unproven(values, proofs) == [] ==> Unanswered(values, Answered(RowsFrom(values, proofs, station))) == []
    ensures Answered(RowsFrom(values, proofs, station)) - Declared(values) == {}
  {
    var answered := Answered(RowsFrom(values, proofs, station));
    UnprovenIff(values, proofs);
    UnansweredIff(values, answered);
    forall id ensures id in answered <==> id in Declared(values) && Get(proofs, id) != [] {
      RowsAnswer(values, proofs, station, id);
    }
    forall i | 0 <= i < |values| ensures values[i].id in Declared(values) { DeclaredIn(values, i); }
  }

  /** A block that `build` writes passes the block's rules, and the verdict on it is ELIGIBLE with no stray row. */
  lemma BuildIsEligible(job: Job)
    requires Build(job).Ok?
    ensures Judge(job.values, Build(job).value) == Ok(Judgement(true, [], {}))
  {
    RowsAnswerAll(job.values, Proofs(job), job.station);
  }

  lemma {:induction false} RowIsProof(values: seq<Value>, proofs: map<string, seq<Evidence>>, station: string, i: nat)
    requires i < |RowsFrom(values, proofs, station)|
    ensures var r := RowsFrom(values, proofs, station)[i];
      && r == Row(r.id, Proven, station, "", Get(proofs, r.id))
      && r.evidence != [] && r.id in Declared(values)
  {
    if i < |RowsFrom(values[..|values| - 1], proofs, station)| {
      RowIsProof(values[..|values| - 1], proofs, station, i);
    }
  }

  lemma EvidenceOf(job: Job, id: string, e: Evidence)
    ensures e in Get(Proofs(job), id) <==> InLog(job.text, job.mapping, id, e) && e.source == job.source
  {
    ProofMapHolds(Outcomes(Split(job.text), job.mapping, job.source), id);
    EvidenceIff(job.text, job.mapping, job.source, id, e);
  }

  /** Every row written is `proven` by the station, and its evidence is exactly the log's PASS lines for its value. */
  lemma EvidenceIsVerbatim(job: Job, i: nat, e: Evidence)
    requires Build(job).Ok? && i < |Build(job).value|
    ensures var r := Build(job).value[i];
      && r.verdict == Proven && r.station == job.station && r.id in Declared(job.values)
      && (e in r.evidence <==> InLog(job.text, job.mapping, r.id, e) && e.source == job.source)
  {
    var rows := RowsFrom(job.values, Proofs(job), job.station);
    assert Build(job) == Ok(rows);
    RowIsProof(job.values, Proofs(job), job.station, i);
    EvidenceOf(job, rows[i].id, e);
  }

  // ---------------------------------------------------------------- when a block is written

  /** No value with evidence is declared twice. */
  predicate ProvenOnce(values: seq<Value>, proofs: map<string, seq<Evidence>>) {
    values == [] || (
      var front, last := values[..|values| - 1], values[|values| - 1];
      ProvenOnce(front, proofs) && (Get(proofs, last.id) == [] || last.id !in Declared(front)))
  }

  lemma {:induction false} DistinctIff(values: seq<Value>, proofs: map<string, seq<Evidence>>, station: string)
    ensures DistinctIds(RowsFrom(values, proofs, station)) <==> ProvenOnce(values, proofs)
  {
    if values != [] {
      var front := values[..|values| - 1];
      var rows := RowsFrom(values, proofs, station);
      DistinctIff(front, proofs, station);
      RowsAnswer(front, proofs, station, values[|values| - 1].id);
      if rows != RowsFrom(front, proofs, station) {
        assert rows[..|rows| - 1] == RowsFrom(front, proofs, station);
      }
    }
  }

  lemma PassLineIsSound(line: string, mapping: map<string, string>, id: string, e: Evidence)
    requires Stripped(line) && PassLine(line, mapping, id, e)
    ensures !Blank(e.what) && Fits(SECONDS, e.testedAt) && e.subjectDigest.None?
    ensures exists row :: row in mapping && mapping[row] == id
  {
    StripIdentity(line);
    var f :| Matches(line, f) && PassFill(line, f, mapping, id, e);
    assert f.row in mapping;
  }

  lemma InLogIsSound(job: Job, id: string, e: Evidence)
    requires MapOk(job.values, job.mapping) && InLog(job.text, job.mapping, id, e)
    ensures !Blank(id) && !Blank(e.what) && Fits(SECONDS, e.testedAt) && e.subjectDigest.None?
  {
    var k :| 0 <= k < |Split(job.text)| && PassLine(Strip(Split(job.text)[k]), job.mapping, id, e);
    var line := Strip(Split(job.text)[k]);
    StripIsStripped(Split(job.text)[k]);
    PassLineIsSound(line, job.mapping, id, e);
  }

  lemma LogEvidenceIsValid(job: Job, id: string, i: nat)
    requires MapOk(job.values, job.mapping) && i < |Get(Proofs(job), id)|
    ensures !Blank(id)
    ensures ValidEvidence(Get(Proofs(job), id)[i]) <==> !Blank(job.source)
  {
    EvidenceOf(job, id, Get(Proofs(job), id)[i]);
    InLogIsSound(job, id, Get(Proofs(job), id)[i]);
  }

  /** What the log yields is well formed but for the path and the station that the caller named. */
  lemma LogRowIsValid(job: Job, id: string)
    requires MapOk(job.values, job.mapping) && Get(Proofs(job), id) != []
    ensures ValidRow(Row(id, Proven, job.station, "", Get(Proofs(job), id)))
            <==> !Blank(job.station) && !Blank(job.source)
  {
    var evidence := Get(Proofs(job), id);
    LogEvidenceIsValid(job, id, 0);
    forall i | 0 <= i < |evidence| ensures ValidEvidence(evidence[i]) <==> !Blank(job.source) {
      LogEvidenceIsValid(job, id, i);
    }
  }

  function ProvenRow(proofs: map<string, seq<Evidence>>, station: string, id: string): Row {
    Row(id, Proven, station, "", Get(proofs, id))
  }

  lemma {:induction false} EveryProvenRow(
      valid: Row -> bool, values: seq<Value>, proofs: map<string, seq<Evidence>>, station: string, ok: bool)
    requires forall id | Get(proofs, id) != [] :: valid(ProvenRow(proofs, station, id)) <==> ok
    ensures Every(valid, RowsFrom(values, proofs, station)) <==> RowsFrom(values, proofs, station) == [] || ok
  {
    if values != [] {
      var front, id := values[..|values| - 1], values[|values| - 1].id;
      EveryProvenRow(valid, front, proofs, station, ok);
      if Get(proofs, id) != [] {
        var rows, r := RowsFrom(front, proofs, station), ProvenRow(proofs, station, id);
        assert RowsFrom(values, proofs, station) == rows + [r];
        assert (rows + [r])[..|rows|] == rows;
      } else {
        assert RowsFrom(values, proofs, station) == RowsFrom(front, proofs, station);
      }
    }
  }

  lemma LogRowsAreValid(job: Job)
    requires MapOk(job.values, job.mapping)
    ensures var rows := RowsFrom(job.values, Proofs(job), job.station);
      EachValid(rows) <==> rows == [] || (!Blank(job.station) && !Blank(job.source))
  {
    var ok := !Blank(job.station) && !Blank(job.source);
    forall id | Get(Proofs(job), id) != [] ensures ValidRow(ProvenRow(Proofs(job), job.station, id)) <==> ok {
      LogRowIsValid(job, id);
    }
    EveryProvenRow(ValidRow, job.values, Proofs(job), job.station, ok);
  }

  /** Some declared value has evidence. */
  predicate SomeProven(values: seq<Value>, proofs: map<string, seq<Evidence>>) {
    values != [] && (SomeProven(values[..|values| - 1], proofs) || Get(proofs, values[|values| - 1].id) != [])
  }

  lemma {:induction false} SomeRowIff(values: seq<Value>, proofs: map<string, seq<Evidence>>, station: string)
    ensures RowsFrom(values, proofs, station) != [] <==> SomeProven(values, proofs)
  {
    if values != [] {
      SomeRowIff(values[..|values| - 1], proofs, station);
    }
  }

  /** Exactly when `build` writes: every required value is proven, some value is, and none of those is declared twice. */
  lemma BuildWritesIff(job: Job)
    requires ContractOk(job.values) && MapOk(job.values, job.mapping)
    ensures var proofs := Proofs(job);
      Build(job).Ok? <==>
        && RequiredProven(job.values, proofs)
        && SomeProven(job.values, proofs) && ProvenOnce(job.values, proofs)
        && !Blank(job.station) && !Blank(job.source)
  {
    var proofs := Proofs(job);
    BuildParts(job);
    UnprovenIff(job.values, proofs);
    DistinctIff(job.values, proofs, job.station);
    LogRowsAreValid(job);
    SomeRowIff(job.values, proofs, job.station);
  }

  lemma BuildParts(job: Job)
    requires ContractOk(job.values) && MapOk(job.values, job.mapping)
    ensures var rows := RowsFrom(job.values, Proofs(job), job.station);
      Build(job).Ok? <==> Unproven(job.values, Proofs(job)) == [] && rows != [] && DistinctIds(rows) && EachValid(rows)
  {
  }

  // ---------------------------------------------------------------- the rules, written out

  lemma BlankIsWhite(s: string)
    ensures Blank(s) <==> White(s)
  {
    if White(s) {
      assert s + "" + "" == s;
      StripOf(s, "", "");
    } else {
      var i :| 0 <= i < |s| && !IsSpace(s[i]);
      StripKeepsInk(s, i);
    }
  }

  /** `2026-09-07T10:00:00Z` */
  ghost predicate Instant(s: string) {
    && |s| == 20 && s[4] == s[7] == '-' && s[10] == 'T' && s[13] == s[16] == ':' && s[19] == 'Z'
    && forall i | 0 <= i < 19 && i !in {4, 7, 10, 13, 16} :: '0' <= s[i] <= '9'
  }

  lemma InstantIff(s: string)
    ensures Fits(SECONDS, s) <==> Instant(s)
  {
    if |s| == 20 {
      forall i | 0 <= i < 20
        ensures SECONDS[i] == (if i in {4, 7} then '-' else if i == 10 then 'T' else if i in {13, 16} then ':'
                               else if i == 19 then 'Z' else 'd')
      {
      }
    }
  }

  ghost predicate Sha256Of(s: string, hex: string) {
    s == "sha256:" + hex && |hex| == 64 && forall c | c in hex :: c in "0123456789abcdef"
  }

  lemma Sha256Iff(s: string)
    ensures IsSha256(s) <==> exists hex :: Sha256Of(s, hex)
  {
    assert forall c :: LowerHex(c) <==> c in "0123456789abcdef";
    if IsSha256(s) {
      assert s == s[..7] + s[7..];
      assert Sha256Of(s, s[7..]);
    }
    if hex :| Sha256Of(s, hex) {
      forall i | 7 <= i < 71 ensures LowerHex(s[i]) {
        assert s[i] == hex[i - 7] && hex[i - 7] in hex;
      }
    }
  }

  ghost predicate GoodEvidence(e: Evidence) {
    && !White(e.what) && !White(e.source) && Instant(e.testedAt)
    && (e.subjectDigest == None || exists hex :: Sha256Of(e.subjectDigest.value, hex))
  }

  ghost predicate GoodRow(r: Row) {
    && !White(r.id) && !White(r.station)
    && (|| (r.verdict == Proven && r.evidence != [] && forall e | e in r.evidence :: GoodEvidence(e))
        || (r.verdict == Waived && !White(r.waivedBy)))
  }

  lemma EvidenceRules(e: Evidence)
    ensures ValidEvidence(e) <==> GoodEvidence(e)
  {
    BlankIsWhite(e.what);
    BlankIsWhite(e.source);
    InstantIff(e.testedAt);
    if e.subjectDigest.Some? {
      Sha256Iff(e.subjectDigest.value);
    }
  }

  lemma RowRules(r: Row)
    ensures ValidRow(r) <==> GoodRow(r)
  {
    BlankIsWhite(r.id);
    BlankIsWhite(r.station);
    BlankIsWhite(r.waivedBy);
    forall i | 0 <= i < |r.evidence| ensures ValidEvidence(r.evidence[i]) <==> GoodEvidence(r.evidence[i]) {
      EvidenceRules(r.evidence[i]);
    }
  }

  lemma {:induction false} EveryIff(valid: Row -> bool, rows: seq<Row>)
    ensures Every(valid, rows) <==> forall i | 0 <= i < |rows| :: valid(rows[i])
  {
    if rows != [] {
      var n := |rows| - 1;
      EveryIff(valid, rows[..n]);
      assert forall i | 0 <= i < n :: rows[..n][i] == rows[i];
    }
  }

  lemma {:induction false} IdsIff(rows: seq<Row>, id: string)
    ensures id in Ids(rows) <==> exists i :: 0 <= i < |rows| && rows[i].id == id
  {
    if rows != [] {
      var n := |rows| - 1;
      IdsIff(rows[..n], id);
      assert forall i | 0 <= i < n :: rows[..n][i] == rows[i];
    }
  }

  ghost predicate PairwiseApart(rows: seq<Row>) {
    forall i, j | 0 <= i < j < |rows| :: rows[i].id != rows[j].id
  }

  lemma {:induction false} DistinctIdsIff(rows: seq<Row>)
    ensures DistinctIds(rows) <==> PairwiseApart(rows)
  {
    if rows != [] {
      var n := |rows| - 1;
      DistinctIdsIff(rows[..n]);
      IdsIff(rows[..n], rows[n].id);
      assert forall i | 0 <= i < n :: rows[..n][i] == rows[i];
    }
  }

  /** The block's rules: some row, no value twice, and each row either proven by evidence
      that names what, where and when, or waived by somebody. */
  lemma BlockRules(rows: seq<Row>)
    ensures ValidRows(rows) <==> rows != [] && PairwiseApart(rows) && forall i | 0 <= i < |rows| :: GoodRow(rows[i])
  {
    DistinctIdsIff(rows);
    EveryIff(ValidRow, rows);
    forall i | 0 <= i < |rows| ensures ValidRow(rows[i]) <==> GoodRow(rows[i]) {
      RowRules(rows[i]);
    }
  }

  // ---------------------------------------------------------------- which refusal

  lemma {:induction false} DeclaredIff(values: seq<Value>, id: string)
    ensures id in Declared(values) <==> exists i :: 0 <= i < |values| && values[i].id == id
  {
    if values != [] {
      var n := |values| - 1;
      DeclaredIff(values[..n], id);
      assert forall i | 0 <= i < n :: values[..n][i] == values[i];
    }
  }

  /** No value declared, or one without a name. */
  ghost predicate BadContract(values: seq<Value>) {
    values == [] || exists i :: 0 <= i < |values| && values[i].id == ""
  }

  /** No row mapped, or one that is blank or goes to a value that is blank or not declared. */
  ghost predicate BadMap(values: seq<Value>, mapping: map<string, string>) {
    mapping == map[] || exists row :: row in mapping && BadMapping(values, row, mapping[row])
  }

  ghost predicate BadMapping(values: seq<Value>, row: string, id: string) {
    White(row) || White(id) || forall i | 0 <= i < |values| :: values[i].id != id
  }

  lemma BadMapIff(values: seq<Value>, mapping: map<string, string>)
    ensures MapOk(values, mapping) <==> !BadMap(values, mapping)
  {
    forall row | row in mapping
      ensures BadMapping(values, row, mapping[row])
              <==> Blank(row) || Blank(mapping[row]) || mapping[row] !in Declared(values)
    {
      BlankIsWhite(row);
      BlankIsWhite(mapping[row]);
      DeclaredIff(values, mapping[row]);
    }
  }

  /** Some line of the log proves the value. */
  ghost predicate Witnessed(job: Job, id: string) {
    exists e :: InLog(job.text, job.mapping, id, e)
  }

  lemma WitnessedIff(job: Job, id: string)
    ensures Get(Proofs(job), id) != [] <==> Witnessed(job, id)
  {
    var evidence := Get(Proofs(job), id);
    if evidence != [] {
      EvidenceOf(job, id, evidence[0]);
    }
    if e :| InLog(job.text, job.mapping, id, e) {
      var i :| 0 <= i < |Split(job.text)| && PassLine(Strip(Split(job.text)[i]), job.mapping, id, e);
      PassLineOfAnySource(Strip(Split(job.text)[i]), job.mapping, id, e, job.source);
      EvidenceOf(job, id, e.(source := job.source));
    }
  }

  lemma PassLineOfAnySource(line: string, mapping: map<string, string>, id: string, e: Evidence, source: string)
    requires PassLine(line, mapping, id, e)
    ensures PassLine(line, mapping, id, e.(source := source))
  {
    var f :| Matches(line, f) && PassFill(line, f, mapping, id, e);
    assert PassFill(line, f, mapping, id, e.(source := source));
  }

  lemma BuildRefuses(values: seq<Value>, mapping: map<string, string>, proofs: map<string, seq<Evidence>>, station: string)
    ensures var r := BuildFrom(values, mapping, proofs, station);
      && (r == Err(V1) <==> !ContractOk(values))
      && (r == Err(V2) <==> ContractOk(values) && !MapOk(values, mapping))
      && (r == Err(V3) <==> ContractOk(values) && MapOk(values, mapping) && !RequiredProven(values, proofs))
  {
    UnprovenIff(values, proofs);
  }

  /** The contract requires a value that no line proves. */
  ghost predicate Wanting(job: Job) {
    exists i :: 0 <= i < |job.values| && job.values[i].required && !Witnessed(job, job.values[i].id)
  }

  lemma WantingFrom(job: Job, proofs: map<string, seq<Evidence>>)
    requires forall id :: Get(proofs, id) != [] <==> Witnessed(job, id)
    ensures RequiredProven(job.values, proofs) <==> !Wanting(job)
  {
  }

  /** A bad contract first, then a bad map, then a required value that no line proves. */
  lemma BuildAnswers(job: Job)
    ensures Build(job) == Err(V1) <==> BadContract(job.values)
    ensures Build(job) == Err(V2) <==> !BadContract(job.values) && BadMap(job.values, job.mapping)
    ensures Build(job) == Err(V3) <==>
      !BadContract(job.values) && !BadMap(job.values, job.mapping) && Wanting(job)
  {
    var proofs := Proofs(job);
    BuildRefuses(job.values, job.mapping, proofs, job.station);
    ContractOkIff(job.values);
    BadMapIff(job.values, job.mapping);
    forall id ensures Get(proofs, id) != [] <==> Witnessed(job, id) {
      WitnessedIff(job, id);
    }
    WantingFrom(job, proofs);
  }

  lemma ContractOkIff(values: seq<Value>)
    ensures ContractOk(values) <==> !BadContract(values)
  {
  }

  // ---------------------------------------------------------------- what a verdict lists

  lemma {:induction false} UnansweredHolds(values: seq<Value>, answered: set<string>, id: string)
    ensures id in Unanswered(values, answered)
            <==> id !in answered && exists i :: 0 <= i < |values| && values[i].required && values[i].id == id
  {
    if values != [] {
      var n := |values| - 1;
      UnansweredHolds(values[..n], answered, id);
      assert forall i | 0 <= i < n :: values[..n][i] == values[i];
    }
  }

  lemma {:induction false} UnansweredConcat(a: seq<Value>, b: seq<Value>, answered: set<string>)
    ensures Unanswered(a + b, answered) == Unanswered(a, answered) + Unanswered(b, answered)
  {
    if b == [] {
      assert a + b == a;
    } else {
      assert (a + b)[..|a + b| - 1] == a + b[..|b| - 1];
      UnansweredConcat(a, b[..|b| - 1], answered);
    }
  }

  /** The verdict names exactly the required values without an answer, value by value in
      the order of the contract, and as strays the answered ids it does not declare. */
  lemma JudgementLists(values: seq<Value>, rows: seq<Row>, id: string)
    requires Judge(values, rows).Ok?
    ensures var j := Judge(values, rows).value;
      && (id in j.unanswered <==>
            !OneAnswer(rows, id) && exists i :: 0 <= i < |values| && values[i].required && values[i].id == id)
      && (id in j.stray <==> OneAnswer(rows, id) && forall i | 0 <= i < |values| :: values[i].id != id)
  {
    AnsweredOnce(rows, id);
    UnansweredHolds(values, Answered(rows), id);
    DeclaredIff(values, id);
  }

  lemma JudgementInOrder(a: seq<Value>, b: seq<Value>, rows: seq<Row>)
    requires Judge(a + b, rows).Ok? && a != [] && b != []
    ensures Judge(a, rows).Ok? && Judge(b, rows).Ok?
    ensures Judge(a + b, rows).value.unanswered == Judge(a, rows).value.unanswered + Judge(b, rows).value.unanswered
  {
    assert forall i | 0 <= i < |a| :: (a + b)[i] == a[i];
    assert forall i | 0 <= i < |b| :: (a + b)[|a| + i] == b[i];
    UnansweredConcat(a, b, Answered(rows));
  }

  /** The verdict refuses exactly a bad contract, and then a block that breaks the rules. */
  lemma JudgeAnswers(values: seq<Value>, rows: seq<Row>)
    ensures Judge(values, rows) == Err(V1) <==> BadContract(values)
    ensures Judge(values, rows) == Err(E4) <==> !BadContract(values) && !ValidRows(rows)
  {
  }
}
