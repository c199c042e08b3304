/** Which lines of a station's log prove which contract value (publisher/vexa_values_proven.py:127-161). */
module ValuesProven {
  import opened Wrappers
  import opened Lines
  import opened Ordering
  import opened Fills

  const PASS := "PASS"

  datatype Evidence = Evidence(what: string, source: string, testedAt: string, subjectDigest: Option<string>)

  /** A line that names a mapped row but proves nothing: another verdict, or a stamp that cannot be read. */
  datatype Reason = Caveat(row: string, verdict: string) | Unreadable(row: string, ts: string)

  datatype Outcome = Ignored | Proves(vid: string, evidence: Evidence) | Rejects(vid: string, reason: Reason)

  function JudgeFill(line: string, f: Fill, mapping: map<string, string>, source: string): Outcome {
    if f.row !in mapping then Ignored
    else if f.verdict != PASS then Rejects(mapping[f.row], Caveat(f.row, f.verdict))
    else
      var stamp := ParseStamp(f.ts);
      if stamp.None? then Rejects(mapping[f.row], Unreadable(f.row, f.ts))
      else Proves(mapping[f.row], Evidence(line, source, stamp.value, None))
  }

  function JudgeStripped(line: string, mapping: map<string, string>, source: string): Outcome {
    if line == "" || line[0] == '#' then Ignored
    else
      var fill := ReadFill(line);
      if fill.None? then Ignored else JudgeFill(line, fill.value, mapping, source)
  }

  function JudgeLine(raw: string, mapping: map<string, string>, source: string): Outcome {
    JudgeStripped(Strip(raw), mapping, source)
  }

  function Outcomes(lines: seq<string>, mapping: map<string, string>, source: string): (r: seq<Outcome>)
    ensures |r| == |lines| && forall i | 0 <= i < |r| :: r[i] == JudgeLine(lines[i], mapping, source)
  {
    seq(|lines|, i requires 0 <= i < |lines| => JudgeLine(lines[i], mapping, source))
  }

  /** The evidence for `vid`, in the order of the log. */
  function ProofsOf(outcomes: seq<Outcome>, vid: string): seq<Evidence> {
    if outcomes == [] then []
    else
      var last := outcomes[|outcomes| - 1];
      ProofsOf(outcomes[..|outcomes| - 1], vid)
      + if last.Proves? && last.vid == vid then [last.evidence] else []
  }

  function RejectsOf(outcomes: seq<Outcome>, vid: string): seq<Reason> {
    if outcomes == [] then []
    else
      var last := outcomes[|outcomes| - 1];
      RejectsOf(outcomes[..|outcomes| - 1], vid)
      + if last.Rejects? && last.vid == vid then [last.reason] else []
  }

  function Get<T>(m: map<string, seq<T>>, vid: string): seq<T> { if vid in m then m[vid] else [] }

  function Append<T>(m: map<string, seq<T>>, vid: string, x: T): map<string, seq<T>> {
    m[vid := Get(m, vid) + [x]]
  }

  function NoteProof(proofs: map<string, seq<Evidence>>, o: Outcome): map<string, seq<Evidence>> {
    if o.Proves? then Append(proofs, o.vid, o.evidence) else proofs
  }

  function NoteReject(rejected: map<string, seq<Reason>>, o: Outcome): map<string, seq<Reason>> {
    if o.Rejects? then Append(rejected, o.vid, o.reason) else rejected
  }

  function ProofMap(outcomes: seq<Outcome>): map<string, seq<Evidence>> {
    if outcomes == [] then map[]
    else NoteProof(ProofMap(outcomes[..|outcomes| - 1]), outcomes[|outcomes| - 1])
  }

  function RejectMap(outcomes: seq<Outcome>): map<string, seq<Reason>> {
    if outcomes == [] then map[]
    else NoteReject(RejectMap(outcomes[..|outcomes| - 1]), outcomes[|outcomes| - 1])
  }

  /** The mapping has a list for exactly the values that have evidence. */
  lemma {:induction false} ProofMapHolds(outcomes: seq<Outcome>, vid: string)
    ensures Get(ProofMap(outcomes), vid) == ProofsOf(outcomes, vid)
    ensures vid in ProofMap(outcomes) <==> ProofsOf(outcomes, vid) != []
  {
    if outcomes != [] {
      ProofMapHolds(outcomes[..|outcomes| - 1], vid);
    }
  }

  lemma {:induction false} RejectMapHolds(outcomes: seq<Outcome>, vid: string)
    ensures Get(RejectMap(outcomes), vid) == RejectsOf(outcomes, vid)
    ensures vid in RejectMap(outcomes) <==> RejectsOf(outcomes, vid) != []
  {
    if outcomes != [] {
      RejectMapHolds(outcomes[..|outcomes| - 1], vid);
    }
  }

  lemma NextOutcome(outcomes: seq<Outcome>, n: nat)
    requires n < |outcomes|
    ensures ProofMap(outcomes[..n + 1]) == NoteProof(ProofMap(outcomes[..n]), outcomes[n])
    ensures RejectMap(outcomes[..n + 1]) == NoteReject(RejectMap(outcomes[..n]), outcomes[n])
  {
    assert outcomes[..n + 1][..n] == outcomes[..n];
  }

  method Collect(text: string, mapping: map<string, string>, source: string)
    returns (proofs: map<string, seq<Evidence>>, rejected: map<string, seq<Reason>>)
    ensures proofs == ProofMap(Outcomes(Split(text), mapping, source))
    ensures rejected == RejectMap(Outcomes(Split(text), mapping, source))
  {
    var lines := Split(text);
    ghost var outcomes := Outcomes(lines, mapping, source);
    proofs, rejected := map[], map[];
    for n := 0 to |lines|
      invariant proofs == ProofMap(outcomes[..n]) && rejected == RejectMap(outcomes[..n])
    {
      NextOutcome(outcomes, n);
      var judged := JudgeLine(lines[n], mapping, source);
      if judged.Proves? {
        proofs := Append(proofs, judged.vid, judged.evidence);
      } else if judged.Rejects? {
        rejected := Append(rejected, judged.vid, judged.reason);
      }
    }
    assert outcomes[..|lines|] == outcomes;
  }

  lemma {:induction false} RejectsOfExact(outcomes: seq<Outcome>, vid: string, reason: Reason)
    ensures reason in RejectsOf(outcomes, vid) <==> Rejects(vid, reason) in outcomes
  {
    if outcomes != [] {
      var n := |outcomes| - 1;
      RejectsOfExact(outcomes[..n], vid, reason);
      assert outcomes == outcomes[..n] + [outcomes[n]];
    }
  }

  lemma {:induction false} ProofsOfExact(outcomes: seq<Outcome>, vid: string, e: Evidence)
    ensures e in ProofsOf(outcomes, vid) <==> Proves(vid, e) in outcomes
  {
    if outcomes != [] {
      var n := |outcomes| - 1;
      ProofsOfExact(outcomes[..n], vid, e);
      assert outcomes == outcomes[..n] + [outcomes[n]];
    }
  }

  /** A line of the log that proves `vid`: its row is mapped there, its verdict is PASS and nothing else. */
  ghost predicate PassLine(line: string, mapping: map<string, string>, vid: string, e: Evidence) {
    line != "" && line[0] != '#' && exists f :: Matches(line, f) && PassFill(line, f, mapping, vid, e)
  }

  predicate PassFill(line: string, f: Fill, mapping: map<string, string>, vid: string, e: Evidence) {
    && e.what == line && e.subjectDigest == None
    && f.row in mapping && mapping[f.row] == vid
    && f.verdict == "PASS"
    && ParseStamp(f.ts) == Some(e.testedAt)
  }

  lemma JudgeFillIff(line: string, f: Fill, mapping: map<string, string>, source: string, vid: string, e: Evidence)
    ensures JudgeFill(line, f, mapping, source) == Proves(vid, e)
            <==> PassFill(line, f, mapping, vid, e) && e.source == source
  {
  }

  lemma PassLineProves(line: string, mapping: map<string, string>, vid: string, e: Evidence)
    requires Stripped(line) && PassLine(line, mapping, vid, e)
    ensures JudgeStripped(line, mapping, e.source) == Proves(vid, e)
  {
    var f :| Matches(line, f) && PassFill(line, f, mapping, vid, e);
    ReadFillIff(line, f);
    JudgeFillIff(line, f, mapping, e.source, vid, e);
  }

  lemma ProvesIsPassLine(line: string, mapping: map<string, string>, source: string, vid: string, e: Evidence)
    requires Stripped(line) && JudgeStripped(line, mapping, source) == Proves(vid, e)
    ensures PassLine(line, mapping, vid, e) && e.source == source
  {
    var f := ReadFill(line).value;
    ReadFillIff(line, f);
    JudgeFillIff(line, f, mapping, source, vid, e);
  }

  /** The log has a line that proves `vid` with `e`: verbatim, but for the white space around it. */
  ghost predicate InLog(text: string, mapping: map<string, string>, vid: string, e: Evidence) {
    exists i :: 0 <= i < |Split(text)| && PassLine(Strip(Split(text)[i]), mapping, vid, e)
  }

  /** The evidence for a value is exactly the log's PASS lines for it. */
  lemma EvidenceIff(text: string, mapping: map<string, string>, source: string, vid: string, e: Evidence)
    ensures e in ProofsOf(Outcomes(Split(text), mapping, source), vid)
            <==> InLog(text, mapping, vid, e) && e.source == source
  {
    var lines := Split(text);
    var outcomes := Outcomes(lines, mapping, source);
    ProofsOfExact(outcomes, vid, e);
    if Proves(vid, e) in outcomes {
      var i :| 0 <= i < |outcomes| && outcomes[i] == Proves(vid, e);
      StripIsStripped(lines[i]);
      ProvesIsPassLine(Strip(lines[i]), mapping, source, vid, e);
    }
    if InLog(text, mapping, vid, e) && e.source == source {
      var i :| 0 <= i < |lines| && PassLine(Strip(lines[i]), mapping, vid, e);
      StripIsStripped(lines[i]);
      PassLineProves(Strip(lines[i]), mapping, vid, e);
      assert outcomes[i] == Proves(vid, e);
    }
  }

  // ---------------------------------------------------------------- what becomes of every line

  predicate Speaks(line: string) { line != "" && line[0] != '#' }

  predicate MapsTo(mapping: map<string, string>, f: Fill, vid: string) { f.row in mapping && mapping[f.row] == vid }

  /** Some instant could be the time written down. */
  ghost predicate Completable(ts: string) { exists instant :: Completes(ts, instant) }

  /** The earliest such instant. */
  ghost predicate Earliest(ts: string, stamp: string) {
    Completes(ts, stamp) && forall instant | Completes(ts, instant) :: LexLeq(stamp, instant)
  }

  /** Passed over when the row is not mapped, named as a caveat for any verdict but
      PASS, as unreadable when no instant completes the stamp, and otherwise evidence. */
  ghost predicate Judged(o: Outcome, line: string, f: Fill, mapping: map<string, string>, source: string) {
    if f.row !in mapping then o == Ignored
    else if f.verdict != "PASS" then o == Rejects(mapping[f.row], Caveat(f.row, f.verdict))
    else if !Completable(f.ts) then o == Rejects(mapping[f.row], Unreadable(f.row, f.ts))
    else
      && o.Proves? && o.vid == mapping[f.row]
      && o.evidence == Evidence(line, source, o.evidence.testedAt, None) && Earliest(f.ts, o.evidence.testedAt)
  }

  lemma StampMeans(ts: string)
    ensures ParseStamp(ts).Some? <==> Completable(ts)
    ensures ParseStamp(ts).Some? ==> Earliest(ts, ParseStamp(ts).value)
  {
    StampIff(ts);
    if ParseStamp(ts).Some? {
      StampIsEarliest(ts, "");
      forall instant | Completes(ts, instant) ensures LexLeq(ParseStamp(ts).value, instant) {
        StampIsEarliest(ts, instant);
      }
    }
  }

  lemma JudgeFillMeans(line: string, f: Fill, mapping: map<string, string>, source: string)
    ensures Judged(JudgeFill(line, f, mapping, source), line, f, mapping, source)
  {
    StampMeans(f.ts);
  }

  lemma JudgeStrippedIs(line: string, mapping: map<string, string>, source: string)
    ensures var (o, fill) := (JudgeStripped(line, mapping, source), ReadFill(line));
            o == if Speaks(line) && fill.Some? then JudgeFill(line, fill.value, mapping, source) else Ignored
  {
  }

  /** What becomes of a line that reads as a fill. */
  lemma JudgeMeans(line: string, f: Fill, mapping: map<string, string>, source: string)
    requires Stripped(line) && Speaks(line) && Matches(line, f)
    ensures Judged(JudgeStripped(line, mapping, source), line, f, mapping, source)
  {
    ReadFillIff(line, f);
    JudgeStrippedIs(line, mapping, source);
    JudgeFillMeans(line, f, mapping, source);
  }

  /** The line reads as a fill of a row that is mapped to `vid`. */
  ghost predicate Mentions(line: string, mapping: map<string, string>, vid: string) {
    Speaks(line) && exists f :: Matches(line, f) && MapsTo(mapping, f, vid)
  }

  lemma MentionsReads(line: string, mapping: map<string, string>, vid: string)
    requires Stripped(line)
    ensures Mentions(line, mapping, vid)
            <==> Speaks(line) && ReadFill(line).Some? && MapsTo(mapping, ReadFill(line).value, vid)
  {
    if ReadFill(line).Some? {
      ReadFillIff(line, ReadFill(line).value);
    }
    if Mentions(line, mapping, vid) {
      var f :| Matches(line, f) && MapsTo(mapping, f, vid);
      ReadFillIff(line, f);
    }
  }

  lemma FillMentions(line: string, f: Fill, mapping: map<string, string>, source: string, vid: string)
    ensures var o := JudgeFill(line, f, mapping, source);
            !o.Ignored? && o.vid == vid <==> MapsTo(mapping, f, vid)
  {
  }

  lemma MentionedIff(line: string, mapping: map<string, string>, source: string, vid: string)
    requires Stripped(line)
    ensures var o := JudgeStripped(line, mapping, source);
            !o.Ignored? && o.vid == vid <==> Mentions(line, mapping, vid)
  {
    MentionsReads(line, mapping, vid);
    JudgeStrippedIs(line, mapping, source);
    if ReadFill(line).Some? {
      FillMentions(line, ReadFill(line).value, mapping, source, vid);
    }
  }

  ghost function Mentioning(lines: seq<string>, mapping: map<string, string>, vid: string): nat {
    if lines == [] then 0
    else
      Mentioning(lines[..|lines| - 1], mapping, vid)
      + if Mentions(Strip(lines[|lines| - 1]), mapping, vid) then 1 else 0
  }

  /** No line of the log about a mapped value is lost: each is one piece of evidence or
      one named reason. */
  lemma {:induction false} CollectConserves(lines: seq<string>, mapping: map<string, string>, source: string, vid: string)
    ensures var outcomes := Outcomes(lines, mapping, source);
            |ProofsOf(outcomes, vid)| + |RejectsOf(outcomes, vid)| == Mentioning(lines, mapping, vid)
  {
    if lines != [] {
      var n := |lines| - 1;
      CollectConserves(lines[..n], mapping, source, vid);
      assert Outcomes(lines, mapping, source)[..n] == Outcomes(lines[..n], mapping, source);
      StripIsStripped(lines[n]);
      MentionedIff(Strip(lines[n]), mapping, source, vid);
    }
  }

  /** A line about `vid` with another verdict, or with a stamp that no instant completes. */
  ghost predicate RejectedLine(line: string, mapping: map<string, string>, vid: string, reason: Reason) {
    Speaks(line) && exists f :: Matches(line, f) && RejectedFill(f, mapping, vid, reason)
  }

  ghost predicate RejectedFill(f: Fill, mapping: map<string, string>, vid: string, reason: Reason) {
    && MapsTo(mapping, f, vid)
    && if f.verdict != "PASS" then reason == Caveat(f.row, f.verdict)
       else reason == Unreadable(f.row, f.ts) && !Completable(f.ts)
  }

  lemma RejectsFillIff(line: string, f: Fill, mapping: map<string, string>, source: string, vid: string, reason: Reason)
    ensures JudgeFill(line, f, mapping, source) == Rejects(vid, reason) <==> RejectedFill(f, mapping, vid, reason)
  {
    StampMeans(f.ts);
  }

  lemma RejectsLineIff(line: string, mapping: map<string, string>, source: string, vid: string, reason: Reason)
    requires Stripped(line)
    ensures JudgeStripped(line, mapping, source) == Rejects(vid, reason) <==> RejectedLine(line, mapping, vid, reason)
  {
    JudgeStrippedIs(line, mapping, source);
    forall f ensures ReadFill(line) == Some(f) <==> Matches(line, f) {
      ReadFillIff(line, f);
    }
    if Speaks(line) && ReadFill(line).Some? {
      RejectsFillIff(line, ReadFill(line).value, mapping, source, vid, reason);
    }
  }

  /** The reasons named for a value are exactly those of the log's lines about it that
      are not PASS lines. */
  lemma RejectedIff(text: string, mapping: map<string, string>, source: string, vid: string, reason: Reason)
    ensures reason in RejectsOf(Outcomes(Split(text), mapping, source), vid)
            <==> exists i :: 0 <= i < |Split(text)| && RejectedLine(Strip(Split(text)[i]), mapping, vid, reason)
  {
    var lines := Split(text);
    var outcomes := Outcomes(lines, mapping, source);
    RejectsOfExact(outcomes, vid, reason);
    forall i | 0 <= i < |lines|
      ensures outcomes[i] == Rejects(vid, reason) <==> RejectedLine(Strip(lines[i]), mapping, vid, reason)
    {
      StripIsStripped(lines[i]);
      RejectsLineIff(Strip(lines[i]), mapping, source, vid, reason);
    }
  }
}
