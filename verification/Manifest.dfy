/** The report's sections and their manifest: the writer (kit/validate/vexa_validate.py)
    and the ingest that checks it (publisher/vexa_station.py). */
module Manifest {
  import opened Wrappers
  import opened Lines
  import opened LiteralBlock

  /** An ideal SHA-256: equal digests mean equal texts. */
  datatype Digest = Digest(text: string)

  // ---------------------------------------------------------------- trimming a console

  const CONSOLE_TAIL_LINES := 200

  /** `TailOf` is the sentence that says how much of a console is kept. */
  datatype Note = TailOf(kept: nat, total: nat) | Said(text: string)

  datatype Trimmed = Trimmed(text: string, note: Option<Note>, dropped: nat)

  /** The last `keep` lines, and how many were dropped; -0 is the start of a slice. */
  function TrimConsole(text: string, keep: nat): Trimmed {
    var lines := NormalLines(text);
    if |lines| <= keep then Trimmed(Normalise(text), None, 0)
    else Trimmed(Join(if keep == 0 then lines else lines[|lines| - keep..]) + "\n",
                 Some(TailOf(keep, |lines|)), |lines| - keep)
  }

  /** `len(text.rstrip("\n").split("\n"))` */
  function LineCount(text: string): nat {
    |Split(DropBreaks(text))|
  }

  function DropBreaks(text: string): string {
    if text != [] && text[|text| - 1] == '\n' then DropBreaks(text[..|text| - 1]) else text
  }

  lemma DropOneBreak(s: string)
    requires s != "" && s[|s| - 1] != '\n'
    ensures DropBreaks(s + "\n") == s
  {
    var broken := s + "\n";
    assert broken[..|broken| - 1] == s;
    assert DropBreaks(broken) == DropBreaks(s);
  }

  lemma LineCountNormal(lines: seq<string>)
    requires Normal(lines) && lines != []
    ensures LineCount(Join(lines) + "\n") == |lines|
  {
    var s := Join(lines);
    SplitJoin(lines);
    LastLineEndsText(lines);
    DropOneBreak(s);
  }

  lemma {:induction false} LastLineEndsText(lines: seq<string>)
    requires Unbroken(lines) && lines != [] && lines[|lines| - 1] != ""
    ensures Join(lines) != "" && Join(lines)[|Join(lines)| - 1] != '\n'
  {
    if |lines| > 1 {
      LastLineEndsText(lines[1..]);
    }
  }

  lemma TailNormal(lines: seq<string>, k: nat)
    requires Normal(lines) && k < |lines|
    ensures Normal(lines[k..])
  {
  }

  lemma TailComesBack(lines: seq<string>, k: nat)
    requires Normal(lines) && k < |lines|
    ensures NormalLines(Join(lines[k..]) + "\n") == lines[k..]
  {
    TailNormal(lines, k);
    NormalLinesBack(lines[k..]);
  }

  lemma NormaliseLines(text: string)
    ensures NormalLines(Normalise(text)) == NormalLines(text)
  {
    NormalLinesNormal(text);
    if NormalLines(text) == [] {
      EmptyLines();
    } else {
      NormalLinesBack(NormalLines(text));
    }
  }

  /** Where what is kept starts. */
  function KeptFrom(total: nat, keep: nat): nat {
    if total <= keep || keep == 0 then 0 else total - keep
  }

  lemma TrimIs(text: string, keep: nat)
    ensures var (lines, t) := (NormalLines(text), TrimConsole(text, keep));
            t.text == if |lines| <= keep then Normalise(text) else Join(lines[KeptFrom(|lines|, keep)..]) + "\n"
  {
    assert NormalLines(text)[0..] == NormalLines(text);
  }

  lemma TailKept(lines: seq<string>, from: nat, text: string)
    requires Normal(lines) && from < |lines| && text == Join(lines[from..]) + "\n"
    ensures NormalLines(text) == lines[from..] && Normalise(text) == text
  {
    TailComesBack(lines, from);
    NormalIsFixed(text, lines[from..]);
  }

  lemma WholeKept(text: string)
    ensures NormalLines(Normalise(text)) == NormalLines(text) && Normalise(Normalise(text)) == Normalise(text)
  {
    NormaliseLines(text);
    NormaliseIdempotent(text);
  }

  /** What is kept, read as lines: all of them, or the tail. */
  lemma TrimmedLines(text: string, keep: nat)
    ensures var (lines, t) := (NormalLines(text), TrimConsole(text, keep));
            && NormalLines(t.text) == lines[KeptFrom(|lines|, keep)..]
            && Normalise(t.text) == t.text
  {
    var lines, t := NormalLines(text), TrimConsole(text, keep);
    TrimIs(text, keep);
    NormalLinesNormal(text);
    if |lines| <= keep {
      WholeKept(text);
    } else {
      TailKept(lines, KeptFrom(|lines|, keep), t.text);
    }
  }

  lemma NormalIsFixed(text: string, lines: seq<string>)
    requires lines != [] && NormalLines(text) == lines && text == Join(lines) + "\n"
    ensures Normalise(text) == text
  {
  }

  /** Nothing is lost silently: what is kept and what is dropped add up to the
      source, and what is kept is its tail; only `keep` zero breaks this. */
  lemma TrimConserves(text: string, keep: nat)
    ensures var (lines, t) := (NormalLines(text), TrimConsole(text, keep));
            && Normalise(t.text) == t.text
            && (|NormalLines(t.text)| + t.dropped == |lines| <==> keep > 0 || lines == [])
            && (keep > 0 ==> t.dropped <= |lines| && NormalLines(t.text) == lines[t.dropped..])
            && t.note == (if t.dropped > 0 then Some(TailOf(|lines| - t.dropped, |lines|)) else None)
  {
    TrimmedLines(text, keep);
  }

  /** As many lines as do not fit. */
  lemma TrimDrops(text: string, keep: nat)
    ensures var (lines, t) := (NormalLines(text), TrimConsole(text, keep));
            && t.dropped == (if |lines| <= keep then 0 else |lines| - keep)
            && (t.dropped == 0 ==> t.text == Normalise(text))
            && (keep > 0 ==> |NormalLines(t.text)| == (if |lines| <= keep then |lines| else keep))
  {
    TrimmedLines(text, keep);
  }

  lemma EmptyLines()
    ensures NormalLines("") == []
  {
    assert Split(Unix("")) == [""];
    assert StripEach([""]) == [""];
    assert DropBlankTail([""]) == [];
  }

  // ---------------------------------------------------------------- the document under construction

  datatype Row = Row(name: string, sha256: Digest, lines: nat, sourceLines: Option<nat>, note: Option<Note>)

  datatype Gap = Gap(what: string, reason: string)

  /** An empty note is no note. */
  function Kept(note: Option<Note>): Option<Note> {
    if note == Some(Said("")) then None else note
  }

  lemma KeptMeans(note: Option<Note>)
    ensures Kept(note) == None <==> note == None || note == Some(Said(""))
    ensures Kept(note).Some? ==> Kept(note) == note
  {
  }

  /** The row carries the digest and the length of its own section. */
  ghost predicate RowOk(sections: map<string, string>, row: Row) {
    && row.name in sections && row.sha256 == Digest(sections[row.name])
    && row.lines == |NormalLines(sections[row.name])|
  }

  predicate Named(rows: seq<Row>, name: string) {
    exists i :: 0 <= i < |rows| && rows[i].name == name
  }

  ghost predicate Carried(text: string) {
    text != "" && Normalise(text) == text
  }

  /** The rows and the sections correspond one to one, digest by digest. */
  ghost predicate Corresponds(sections: map<string, string>, rows: seq<Row>) {
    && (forall i | 0 <= i < |rows| :: RowOk(sections, rows[i]))
    && (forall i, j | 0 <= i < j < |rows| :: rows[i].name != rows[j].name)
    && (forall name | name in sections :: Named(rows, name) && Carried(sections[name]))
  }

  lemma NamedSnoc(rows: seq<Row>, row: Row, name: string)
    ensures Named(rows + [row], name) <==> Named(rows, name) || row.name == name
  {
    var more := rows + [row];
    if i :| 0 <= i < |rows| && rows[i].name == name {
      assert more[i].name == name;
    }
    if row.name == name {
      assert more[|rows|].name == name;
    }
  }

  lemma NewRowOk(sections: map<string, string>, name: string, text: string, source: Option<nat>, note: Option<Note>)
    requires Carried(text)
    ensures RowOk(sections[name := text], Row(name, Digest(text), LineCount(text), source, note))
  {
    NormalLinesNormal(text);
    LineCountNormal(NormalLines(text));
  }

  lemma AddCorresponds(sections: map<string, string>, rows: seq<Row>, name: string, text: string, source: Option<nat>,
                       note: Option<Note>)
    requires Corresponds(sections, rows) && name !in sections && Carried(text)
    ensures Corresponds(sections[name := text], rows + [Row(name, Digest(text), LineCount(text), source, note)])
  {
    var row := Row(name, Digest(text), LineCount(text), source, note);
    var more, wider := rows + [row], sections[name := text];
    NewRowOk(sections, name, text, source, note);
    forall i | 0 <= i < |more| ensures RowOk(wider, more[i]) {
      if i < |rows| {
        assert RowOk(sections, rows[i]);
      }
    }
    forall i | 0 <= i < |rows| ensures rows[i].name != name {
      assert RowOk(sections, rows[i]);
    }
    forall n | n in wider ensures Named(more, n) && Carried(wider[n]) {
      NamedSnoc(rows, row, n);
    }
  }

  class Doc {
    var sections: map<string, string>
    var manifest: seq<Row>
    var gaps: seq<Gap>
    var overflow: map<string, string>

    ghost predicate Valid()
      reads this
    {
      Corresponds(sections, manifest)
    }

    constructor ()
      ensures Valid() && sections == map[] && manifest == [] && gaps == [] && overflow == map[]
    {
      sections, manifest, gaps, overflow := map[], [], [], map[];
    }

    /** A section is carried normalised, with the digest of what is carried. */
    method Add(name: string, raw: string, note: Option<Note>, sourceLines: Option<nat>)
      modifies this
      ensures var text := Normalise(raw);
              if text == "" then
                gaps == old(gaps) + [Gap(name, "produced nothing")] && sections == old(sections) && manifest == old(manifest)
              else
                && gaps == old(gaps) && sections == old(sections)[name := text]
                && manifest == old(manifest) + [Row(name, Digest(text), LineCount(text), sourceLines, Kept(note))]
      ensures overflow == old(overflow)
      ensures old(Valid()) && name !in old(sections) ==> Valid()
    {
      var text := NormaliseText(raw);
      NormaliseIdempotent(raw);
      if text == "" {
        Absent(name, "produced nothing");
        return;
      }
      Carry(name, text, Kept(note), sourceLines);
    }

    method Carry(name: string, text: string, note: Option<Note>, sourceLines: Option<nat>)
      requires Carried(text)
      modifies this`sections, this`manifest
      ensures sections == old(sections)[name := text]
      ensures manifest == old(manifest) + [Row(name, Digest(text), LineCount(text), sourceLines, note)]
      ensures old(Valid()) && name !in old(sections) ==> Valid()
    {
      if Corresponds(sections, manifest) && name !in sections {
        AddCorresponds(sections, manifest, name, text, sourceLines, note);
      }
      sections := sections[name := text];
      manifest := manifest + [Row(name, Digest(text), LineCount(text), sourceLines, note)];
    }

    /** A long console is trimmed to its tail; the whole of it stays beside the
        report, and its length travels with the tail. */
    method AddConsole(name: string, raw: string)
      modifies this
      ensures var (lines, t) := (NormalLines(raw), TrimConsole(raw, 200));
              && overflow == (if t.dropped > 0 then old(overflow)[name := Normalise(raw)] else old(overflow))
              && (lines == [] ==> sections == old(sections) && manifest == old(manifest))
              && (lines != [] ==>
                    && sections == old(sections)[name := t.text]
                    && |manifest| == |old(manifest)| + 1
                    && var row := manifest[|old(manifest)|];
                       && row.name == name && row.sha256 == Digest(t.text)
                       && row.lines + t.dropped == |lines|
                       && row.note == (if t.dropped > 0 then Some(TailOf(row.lines, |lines|)) else None)
                       && row.sourceLines == (if t.dropped > 0 then Some(|lines|) else None))
      ensures old(Valid()) && name !in old(sections) ==> Valid()
    {
      var trimmed := TrimConsole(raw, CONSOLE_TAIL_LINES);
      TrimConserves(raw, CONSOLE_TAIL_LINES);
      NormalLinesNormal(raw);
      NormalLinesNormal(trimmed.text);
      if NormalLines(trimmed.text) != [] {
        LineCountNormal(NormalLines(trimmed.text));
      }
      if trimmed.dropped > 0 {
        var whole := NormaliseText(raw);
        overflow := overflow[name := whole];
      }
      Add(name, trimmed.text, trimmed.note, if trimmed.dropped > 0 then Some(LineCount(trimmed.text) + trimmed.dropped) else None);
    }

    method Absent(name: string, reason: string)
      modifies this`gaps
      ensures gaps == old(gaps) + [Gap(name, reason)]
    {
      gaps := gaps + [Gap(name, reason)];
    }
  }

  // ---------------------------------------------------------------- the ingest

  const INSTALL_ROLES := {"profile", "values", "contract_document", "preflight_receipt", "smoke_receipt"}
  const TELEMETRY_ROLES := {"contract_document"}
  const SECTIONS := INSTALL_ROLES + {"install_log", "smoke_console"}
  const MANIFEST_KEYS := {"schema_version", "bundle_kind", "tier", "station", "generated_at", "generator",
                          "kit", "kubernetes", "provider", "namespaces", "contract", "phases", "tiers",
                          "redaction", "release", "health", "usage", "sections", "absent", "refuses"}

  /** A declared row: not a mapping, or its name ("" when missing) and its digest. */
  datatype Declared = NotMapping | Entry(name: string, sha256: Option<Digest>)

  datatype Value = Text(text: string) | NotText

  /** `declared` is None unless `sections` is a list. */
  datatype Report = Report(station: string, declared: Option<seq<Declared>>, top: map<string, Value>)

  function SectionsOf(report: Report): map<string, string> {
    map k | k in report.top && k in SECTIONS && report.top[k].Text? :: report.top[k].text
  }

  /** A section is a text under one of seven names. */
  lemma SectionsMean(report: Report, name: string, text: string)
    ensures name in SectionsOf(report) && SectionsOf(report)[name] == text <==>
      && name in report.top && report.top[name] == Text(text)
      && name in {"profile", "values", "contract_document", "preflight_receipt", "smoke_receipt",
                  "install_log", "smoke_console"}
  {
  }

  function RolesOf(kind: string): set<string> {
    if kind == "telemetry" then TELEMETRY_ROLES else INSTALL_ROLES
  }

  /** `locate_roles`: every role of this kind of report, present and not blank. */
  predicate RolesLocated(report: Report, kind: string) {
    forall key | key in RolesOf(kind) :: key in SectionsOf(report) && Strip(SectionsOf(report)[key]) != ""
  }

  datatype Refusal = OtherStation | NothingDeclared | RowNotMapping | RowNotPresent | DigestMismatch
                   | Undeclared | RoleUndeclared | Stray

  function NamesOf(rows: seq<Declared>): set<string> {
    set i | 0 <= i < |rows| && rows[i].Entry? :: rows[i].name
  }

  predicate DeclaredOk(present: map<string, string>, row: Declared) {
    row.Entry? && row.name != "" && row.name in present && row.sha256 == Some(Digest(present[row.name]))
  }

  /** The declared rows and the present sections match one to one, digest by digest. */
  ghost predicate RowsMatch(rows: seq<Declared>, present: map<string, string>) {
    && (forall i | 0 <= i < |rows| :: DeclaredOk(present, rows[i]))
    && (forall i, j | 0 <= i < j < |rows| :: rows[i].name != rows[j].name)
    && present.Keys <= NamesOf(rows)
  }

  /** And the required ones are declared, and nothing else rides along. */
  ghost predicate Agrees(report: Report, station: string, roles: set<string>) {
    && report.station == station
    && report.declared.Some? && report.declared.value != []
    && RowsMatch(report.declared.value, SectionsOf(report))
    && roles <= NamesOf(report.declared.value)
    && report.top.Keys <= MANIFEST_KEYS + NamesOf(report.declared.value)
  }

  lemma NamesSnoc(rows: seq<Declared>, i: nat)
    requires i < |rows| && rows[i].Entry?
    ensures NamesOf(rows[..i + 1]) == NamesOf(rows[..i]) + {rows[i].name}
  {
    assert rows[..i + 1] == rows[..i] + [rows[i]];
  }

  lemma TakenTwice(rows: seq<Declared>, i: nat, present: map<string, string>)
    requires i < |rows| && rows[i].Entry? && rows[i].name in NamesOf(rows[..i])
    ensures !RowsMatch(rows, present)
  {
    var j :| 0 <= j < i && rows[..i][j].Entry? && rows[..i][j].name == rows[i].name;
    assert rows[j].name == rows[i].name;
  }

  /** What is wrong with one row, when every row before it was matched. */
  predicate RowRefusedFor(rows: seq<Declared>, i: nat, all: map<string, string>, why: Refusal)
    requires i < |rows|
  {
    var row := rows[i];
    if row.NotMapping? then why == RowNotMapping
    else if row.name == "" || row.name !in all || (exists j | 0 <= j < i :: rows[j].Entry? && rows[j].name == row.name)
    then why == RowNotPresent
    else row.sha256 != Some(Digest(all[row.name])) && why == DigestMismatch
  }

  method MatchRows(rows: seq<Declared>, all: map<string, string>) returns (refusal: Option<Refusal>)
    ensures refusal.None? <==> RowsMatch(rows, all)
    ensures refusal.Some? ==>
      || (exists i :: 0 <= i < |rows| && RowRefusedFor(rows, i, all, refusal.value)
                      && forall j | 0 <= j < i :: DeclaredOk(all, rows[j]))
      || (refusal.value == Undeclared && (forall j | 0 <= j < |rows| :: DeclaredOk(all, rows[j]))
          && exists name :: name in all && name !in NamesOf(rows))
  {
    var present := all;
    for i := 0 to |rows|
      invariant forall j | 0 <= j < i :: DeclaredOk(all, rows[j])
      invariant forall j, k | 0 <= j < k < i :: rows[j].name != rows[k].name
      invariant present == all - NamesOf(rows[..i])
    {
      if rows[i].NotMapping? {
        assert RowRefusedFor(rows, i, all, RowNotMapping);
        return Some(RowNotMapping);
      }
      if rows[i].name == "" || rows[i].name !in present {
        if rows[i].name != "" && rows[i].name in all {
          TakenTwice(rows, i, all);
          var j :| 0 <= j < i && rows[..i][j].Entry? && rows[..i][j].name == rows[i].name;
          assert rows[j].Entry? && rows[j].name == rows[i].name;
        }
        assert RowRefusedFor(rows, i, all, RowNotPresent);
        return Some(RowNotPresent);
      }
      if rows[i].sha256 != Some(Digest(present[rows[i].name])) {
        forall j | 0 <= j < i && rows[j].Entry? ensures rows[j].name != rows[i].name {
          assert rows[..i][j] == rows[j];
        }
        assert RowRefusedFor(rows, i, all, DigestMismatch);
        return Some(DigestMismatch);
      }
      NamesSnoc(rows, i);
      forall j | 0 <= j < i ensures rows[j].name != rows[i].name {
        assert rows[..i][j] == rows[j];
      }
      present := present - {rows[i].name};
    }
    assert rows[..|rows|] == rows;
    if present != map[] {
      return Some(Undeclared);
    }
    assert all.Keys <= NamesOf(rows) by {
      assert forall k | k in all && k !in NamesOf(rows) :: k in present;
    }
    return None;
  }

  method CheckManifest(report: Report, station: string, roles: set<string>) returns (refusal: Option<Refusal>)
    ensures refusal.None? <==> Agrees(report, station, roles)
    ensures refusal == Some(OtherStation) <==> report.station != station
    ensures refusal == Some(NothingDeclared) <==>
      report.station == station && (report.declared.None? || report.declared.value == [])
    ensures refusal == Some(RoleUndeclared) || refusal == Some(Stray) ==>
      && report.declared.Some? && RowsMatch(report.declared.value, SectionsOf(report))
      && (refusal == Some(RoleUndeclared) <==> !(roles <= NamesOf(report.declared.value)))
  {
    if report.station != station {
      return Some(OtherStation);
    }
    if report.declared.None? || report.declared.value == [] {
      return Some(NothingDeclared);
    }
    refusal := MatchRows(report.declared.value, SectionsOf(report));
    if refusal.Some? {
      return;
    }
    var names := NamesOf(report.declared.value);
    if !(roles <= names) {
      return Some(RoleUndeclared);
    }
    if !(report.top.Keys <= MANIFEST_KEYS + names) {
      return Some(Stray);
    }
  }

  // ---------------------------------------------------------------- the two agree

  function DeclaredRows(rows: seq<Row>): seq<Declared> {
    seq(|rows|, i requires 0 <= i < |rows| => Entry(rows[i].name, Some(rows[i].sha256)))
  }

  /** The report as assembled: some manifest fields, and the document's sections. */
  function Assemble(sections: map<string, string>, rows: seq<Row>, station: string, fields: set<string>): Report {
    Report(station, Some(DeclaredRows(rows)),
           map k | k in fields + {"station", "sections"} + sections.Keys ::
             if k in sections then Text(sections[k]) else NotText)
  }

  /** One section written as a YAML block at the top level and read back by the
      ingest's loader. */
  function ReadBack(text: string): Option<string> {
    ReadBlock(Yaml11, WriteBlock(text, 0), 0)
  }

  /** A section that comes back: characters the loader lets stand in a line, and no
      empty line above an indented first one. */
  predicate Portable(text: string) {
    LinesHold(Yaml11, NormalLines(text)) && Faithful(NormalLines(text))
  }

  /** Every section through the same trip; None when one cannot be read. */
  function MapAll(sections: map<string, string>, trip: string -> Option<string>): Option<map<string, string>> {
    if forall k | k in sections :: trip(sections[k]).Some? then Some(map k | k in sections :: trip(sections[k]).value)
    else None
  }

  function Travelled(sections: map<string, string>): Option<map<string, string>> {
    MapAll(sections, ReadBack)
  }

  lemma MapAllUnchangedIff(sections: map<string, string>, trip: string -> Option<string>)
    ensures MapAll(sections, trip) == Some(sections) <==> forall k | k in sections :: trip(sections[k]) == Some(sections[k])
    ensures MapAll(sections, trip).Some? ==> MapAll(sections, trip).value.Keys == sections.Keys
  {
    if MapAll(sections, trip) == Some(sections) {
      var read := MapAll(sections, trip).value;
      forall k | k in sections ensures trip(sections[k]) == Some(sections[k]) {
        assert read[k] == trip(sections[k]).value;
      }
    }
    if forall k | k in sections :: trip(sections[k]) == Some(sections[k]) {
      assert MapAll(sections, trip).value == sections;
    }
  }

  ghost predicate Submittable(sections: map<string, string>, rows: seq<Row>, kind: string, fields: set<string>) {
    && Corresponds(sections, rows) && rows != []
    && "" !in sections && sections.Keys <= SECTIONS && RolesOf(kind) <= sections.Keys
    && fields <= MANIFEST_KEYS
  }

  lemma AssembledSections(sections: map<string, string>, rows: seq<Row>, station: string, fields: set<string>)
    requires sections.Keys <= SECTIONS && fields <= MANIFEST_KEYS
    ensures SectionsOf(Assemble(sections, rows, station, fields)) == sections
  {
    var report := Assemble(sections, rows, station, fields);
    assert SectionsOf(report).Keys == sections.Keys;
  }

  lemma DeclaredNames(rows: seq<Row>, name: string)
    ensures name in NamesOf(DeclaredRows(rows)) <==> Named(rows, name)
  {
    if i :| 0 <= i < |rows| && rows[i].name == name {
      assert DeclaredRows(rows)[i].name == name;
    }
    if name in NamesOf(DeclaredRows(rows)) {
      var i :| 0 <= i < |rows| && DeclaredRows(rows)[i].name == name;
      assert rows[i].name == name;
    }
  }

  lemma DeclaredSound(sections: map<string, string>, rows: seq<Row>, i: nat)
    requires Corresponds(sections, rows) && "" !in sections && i < |rows|
    ensures rows[i].name in sections && rows[i].name != ""
    ensures DeclaredRows(rows)[i] == Entry(rows[i].name, Some(Digest(sections[rows[i].name])))
  {
    assert RowOk(sections, rows[i]);
  }

  lemma MatchIsUnchanged(sections: map<string, string>, rows: seq<Row>, read: map<string, string>, name: string)
    requires Corresponds(sections, rows) && "" !in sections && name in sections
    requires RowsMatch(DeclaredRows(rows), read)
    ensures name in read && read[name] == sections[name]
  {
    assert Named(rows, name);
    var i :| 0 <= i < |rows| && rows[i].name == name;
    DeclaredSound(sections, rows, i);
    assert DeclaredOk(read, DeclaredRows(rows)[i]);
  }

  lemma UnchangedMatches(sections: map<string, string>, rows: seq<Row>)
    requires Corresponds(sections, rows) && "" !in sections
    ensures RowsMatch(DeclaredRows(rows), sections)
  {
    var declared := DeclaredRows(rows);
    forall i | 0 <= i < |declared| ensures DeclaredOk(sections, declared[i]) && declared[i].name == rows[i].name {
      DeclaredSound(sections, rows, i);
    }
    forall name | name in sections ensures name in NamesOf(declared) {
      DeclaredNames(rows, name);
    }
  }

  /** What was read matches the rows written exactly when every section came back
      as it was. */
  lemma MatchIffUnchanged(sections: map<string, string>, rows: seq<Row>, read: map<string, string>)
    requires Corresponds(sections, rows) && "" !in sections && read.Keys == sections.Keys
    ensures RowsMatch(DeclaredRows(rows), read) <==> read == sections
  {
    if RowsMatch(DeclaredRows(rows), read) {
      forall name | name in sections ensures read[name] == sections[name] {
        MatchIsUnchanged(sections, rows, read, name);
      }
    }
    UnchangedMatches(sections, rows);
  }

  lemma AgreesIffUnchanged(sections: map<string, string>, rows: seq<Row>, station: string, kind: string,
                           fields: set<string>, read: map<string, string>)
    requires Submittable(sections, rows, kind, fields) && read.Keys == sections.Keys
    ensures Agrees(Assemble(read, rows, station, fields), station, RolesOf(kind)) <==> read == sections
  {
    var report := Assemble(read, rows, station, fields);
    MatchIffUnchanged(sections, rows, read);
    AssembledSections(read, rows, station, fields);
    forall name | name in sections ensures name in NamesOf(DeclaredRows(rows)) {
      DeclaredNames(rows, name);
    }
    assert report.top.Keys <= MANIFEST_KEYS + NamesOf(DeclaredRows(rows));
  }

  lemma ReadsBackIff(text: string)
    requires Carried(text)
    ensures ReadBack(text) == Some(text) <==> Portable(text)
  {
    SectionRoundTripIff(Yaml11, text, 0);
  }

  lemma AllUnchangedIff(sections: map<string, string>, trip: string -> Option<string>, good: string -> bool)
    requires forall name | name in sections :: trip(sections[name]) == Some(sections[name]) <==> good(sections[name])
    ensures MapAll(sections, trip) == Some(sections) <==> forall name | name in sections :: good(sections[name])
    ensures MapAll(sections, trip).Some? ==> MapAll(sections, trip).value.Keys == sections.Keys
  {
    MapAllUnchangedIff(sections, trip);
  }

  lemma TravelsUnchangedIff(sections: map<string, string>)
    requires forall name | name in sections :: Carried(sections[name])
    ensures Travelled(sections) == Some(sections) <==> forall name | name in sections :: Portable(sections[name])
    ensures Travelled(sections).Some? ==> Travelled(sections).value.Keys == sections.Keys
  {
    forall name | name in sections
      ensures ReadBack(sections[name]) == Some(sections[name]) <==> Portable(sections[name])
    {
      ReadsBackIff(sections[name]);
    }
    AllUnchangedIff(sections, ReadBack, Portable);
  }

  /** A document built by distinct additions, with the roles of its kind, is accepted
      after the trip through YAML exactly when every section holds only characters the
      loader lets stand in a line, and none opens with an empty line above an indented
      one. */
  lemma IngestAcceptsIff(sections: map<string, string>, rows: seq<Row>, station: string, kind: string, fields: set<string>)
    requires Submittable(sections, rows, kind, fields)
    ensures var travelled := Travelled(sections);
            (travelled.Some? && Agrees(Assemble(travelled.value, rows, station, fields), station, RolesOf(kind)))
            <==> forall name | name in sections :: Portable(sections[name])
  {
    TravelsUnchangedIff(sections);
    if Travelled(sections).Some? {
      AgreesIffUnchanged(sections, rows, station, kind, fields, Travelled(sections).value);
    }
  }

  /** Not blank either, so the roles are located. */
  lemma CarriedIsNotBlank(text: string)
    requires Carried(text)
    ensures Strip(text) != ""
  {
    NormalLinesNormal(text);
    var lines := NormalLines(text);
    var last := lines[|lines| - 1];
    assert last[|last| - 1] in last;
    LastCharOfJoin(lines);
    StripKeepsInk(text, |text| - 2);
  }

  lemma {:induction false} LastCharOfJoin(lines: seq<string>)
    requires lines != [] && lines[|lines| - 1] != ""
    ensures var last := lines[|lines| - 1];
            Join(lines) != "" && Join(lines)[|Join(lines)| - 1] == last[|last| - 1]
  {
    if |lines| > 1 {
      LastCharOfJoin(lines[1..]);
    }
  }

  /** An accepted document has its roles, as the ingest reads it. */
  lemma RolesAreLocated(sections: map<string, string>, rows: seq<Row>, station: string, kind: string, fields: set<string>)
    requires Submittable(sections, rows, kind, fields)
    ensures var travelled := Travelled(sections);
            travelled.Some? && Agrees(Assemble(travelled.value, rows, station, fields), station, RolesOf(kind))
            ==> RolesLocated(Assemble(travelled.value, rows, station, fields), kind)
  {
    TravelsUnchangedIff(sections);
    if Travelled(sections).Some? {
      AgreesIffUnchanged(sections, rows, station, kind, fields, Travelled(sections).value);
    }
    AssembledSections(sections, rows, station, fields);
    forall key | key in RolesOf(kind) ensures Strip(sections[key]) != "" {
      CarriedIsNotBlank(sections[key]);
    }
  }

  /** The five sections every accepted install report has, and the one of a telemetry
      report, each with something in it. */
  lemma AcceptedHasItsRoles(report: Report, kind: string, station: string, key: string)
    requires Agrees(report, station, RolesOf(kind)) && RolesLocated(report, kind)
    requires key == "contract_document"
             || (kind != "telemetry" && key in {"profile", "values", "preflight_receipt", "smoke_receipt"})
    ensures key in NamesOf(report.declared.value)
    ensures key in report.top && report.top[key].Text? && Strip(report.top[key].text) != ""
  {
    assert key in RolesOf(kind);
  }

  // ---------------------------------------------------------------- documents that are refused

  const INDENTED_BELOW_EMPTY := "\n  values:\n"

  lemma IndentedBelowEmptyIsCarried()
    ensures NormalLines(INDENTED_BELOW_EMPTY) == ["", "  values:"] && Carried(INDENTED_BELOW_EMPTY)
  {
    var lines := ["", "  values:"];
    assert Normal(lines);
    assert lines[1..] == ["  values:"];
    assert Join(lines) + "\n" == INDENTED_BELOW_EMPTY;
    NormalLinesBack(lines);
  }

  lemma IndentedBelowEmptyIsNotFaithful()
    ensures !Faithful(["", "  values:"])
  {
    var lines := ["", "  values:"];
    assert lines[1..][0] == "  values:";
    assert FirstInked(lines) == "  values:";
    assert LeadingSpaces("  values:") == 1 + LeadingSpaces("  values:"[1..]);
  }

  lemma OneSection(text: string, row: Row)
    requires Carried(text) && row == Row("contract_document", Digest(text), LineCount(text), None, None)
    ensures Corresponds(map["contract_document" := text], [row])
  {
    AddCorresponds(map[], [], "contract_document", text, None, None);
    assert map[]["contract_document" := text] == map["contract_document" := text];
    assert [] + [row] == [row];
  }

  const ESCAPE: char := 0x1B as char

  /** The first line of a coloured console. */
  const COLOURED := [ESCAPE] + "[31mred\n"

  lemma ColouredIsCarried()
    ensures NormalLines(COLOURED) == [[ESCAPE] + "[31mred"] && Carried(COLOURED)
  {
    var lines := [[ESCAPE] + "[31mred"];
    assert Normal(lines);
    assert Join(lines) + "\n" == COLOURED;
    NormalLinesBack(lines);
  }

  lemma ColouredIsNotPortable()
    ensures Faithful(NormalLines(COLOURED)) && !Portable(COLOURED)
  {
    ColouredIsCarried();
    assert NormalLines(COLOURED)[0][0] == ESCAPE && !Yaml11(ESCAPE);
  }

  /** A well-formed telemetry report whose one section begins with a terminal escape:
      nothing strips it on the way, and the ingest refuses the document. */
  lemma IngestRefusesEscape(row: Row, station: string, fields: set<string>)
    requires fields <= MANIFEST_KEYS
    requires row == Row("contract_document", Digest(COLOURED), LineCount(COLOURED), None, None)
    ensures var sections := map["contract_document" := COLOURED];
      && Submittable(sections, [row], "telemetry", fields)
      && !(Travelled(sections).Some?
           && Agrees(Assemble(Travelled(sections).value, [row], station, fields), station, RolesOf("telemetry")))
  {
    ColouredIsCarried();
    ColouredIsNotPortable();
    OneSection(COLOURED, row);
    IngestAcceptsIff(map["contract_document" := COLOURED], [row], station, "telemetry", fields);
  }

  /** A well-formed telemetry report whose one section opens with an empty line above
      an indented one: nothing was added wrongly, and the ingest refuses it. */
  lemma IngestRefusesIndentedBelowEmpty(row: Row, station: string, fields: set<string>)
    requires fields <= MANIFEST_KEYS
    requires row == Row("contract_document", Digest(INDENTED_BELOW_EMPTY), LineCount(INDENTED_BELOW_EMPTY), None, None)
    ensures var sections := map["contract_document" := INDENTED_BELOW_EMPTY];
      && Submittable(sections, [row], "telemetry", fields)
      && !(Travelled(sections).Some?
           && Agrees(Assemble(Travelled(sections).value, [row], station, fields), station, RolesOf("telemetry")))
  {
    IndentedBelowEmptyIsCarried();
    IndentedBelowEmptyIsNotFaithful();
    OneSection(INDENTED_BELOW_EMPTY, row);
    IngestAcceptsIff(map["contract_document" := INDENTED_BELOW_EMPTY], [row], station, "telemetry", fields);
  }
}
