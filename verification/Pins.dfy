/** The pin set resolved into the overlay the platform chart reads
    (publisher/vexa_channel.py). */
module Pins {
  import opened Wrappers
  import opened Values
  import opened Ordering

  /** "Whole": the value is the entire reference. "Split": repository and tag are two
      values the template joins with a colon. */
  datatype Shape = Whole | Split

  datatype Row = Row(path: Path, shape: Shape, repo: string)

  datatype Pin = Pin(repo: string, digest: string)

  const SUBCHART_TAG_OVERRIDE: Path := ["vexa", "global", "imageTag"]

  /** The table, in the order `sorted` gives the assigned paths. */
  function TableRow(i: nat): Row
    requires i < ROWS
  {
    match i
    case 0 => Row(["analytics", "customerMetricsSync", "image"], Split, "vexaai/analytics-refresh")
    case 1 => Row(["analytics", "meterSync", "image"], Split, "vexaai/analytics-refresh")
    case 2 => Row(["analytics", "refresh", "image"], Split, "vexaai/analytics-refresh")
    case 3 => Row(["backups", "database", "image"], Whole, "postgres")
    case 4 => Row(["backups", "recordings", "image"], Whole, "amazon/aws-cli")
    case 5 => Row(["caddy", "image"], Split, "caddy")
    case 6 => Row(["capacityReserve", "image"], Whole, "registry.k8s.io/pause")
    case 7 => Row(["dashboard", "image"], Split, "vexaai/dashboard")
    case 8 => Row(["driftDetector", "image"], Whole, "alpine/helm")
    case 9 => Row(["postgres", "image"], Whole, "postgres")
    case 10 => Row(["recordingReconciler", "image"], Whole, "vexaai/v012-meeting-api")
    case 11 => Row(["transcriptionGateway", "image"], Split, "vexaai/vexa-transcription-gateway")
    case 12 => Row(["vexa", "adminApi", "image"], Split, "vexaai/v012-admin-api")
    case 13 => Row(["vexa", "agentApi", "image"], Split, "vexaai/v012-agent-api")
    case 14 => Row(["vexa", "gateway", "image"], Split, "vexaai/v012-gateway")
    case 15 => Row(["vexa", "meetingApi", "image"], Split, "vexaai/v012-meeting-api")
    case 16 => Row(["vexa", "minio", "image"], Split, "minio/minio")
    case 17 => Row(["vexa", "pgbouncer", "image"], Whole, "docker.io/bitnami/pgbouncer")
    case 18 => Row(["vexa", "postgres", "image"], Whole, "postgres")
    case 19 => Row(["vexa", "redis", "image"], Whole, "redis")
    case 20 => Row(["vexa", "runtime", "browserImage"], Whole, "vexaai/vexa-bot")
    case 21 => Row(["vexa", "runtime", "image"], Split, "vexaai/v012-runtime")
    case 22 => Row(["vexa", "terminal", "image"], Split, "vexaai/v012-terminal")
    case _ => Row(["webapp", "image"], Split, "vexaai/vexa-webapp")
  }

  const ROWS: nat := 24

  // ---------------------------------------------------------------- the table is prefix-free

  /** Strictly earlier at the first key where the two differ, which both have. */
  predicate Before(p: Path, q: Path) {
    p != [] && q != [] && ((p[0] != q[0] && LexLeq(p[0], q[0])) || (p[0] == q[0] && Before(p[1..], q[1..])))
  }

  lemma {:induction false} BeforeTransitive(p: Path, q: Path, r: Path)
    requires Before(p, q) && Before(q, r)
    ensures Before(p, r)
  {
    if p[0] == q[0] && q[0] == r[0] {
      BeforeTransitive(p[1..], q[1..], r[1..]);
    } else {
      LexOrder();
      assert LexLeq(p[0], q[0]) && LexLeq(q[0], r[0]);
    }
  }

  lemma {:induction false} BeforeIsApart(p: Path, q: Path)
    requires Before(p, q)
    ensures Apart(p, q) && Apart(q, p)
  {
    if p[0] == q[0] {
      BeforeIsApart(p[1..], q[1..]);
    }
  }

  lemma {:induction false} ApartExtends(p: Path, q: Path, r: Path, s: Path)
    requires Apart(p, q)
    ensures Apart(p + r, q + s)
  {
    if p[0] == q[0] {
      ApartExtends(p[1..], q[1..], r, s);
      assert (p + r)[1..] == p[1..] + r && (q + s)[1..] == q[1..] + s;
    }
  }

  lemma {:induction false} SiblingsAreApart(p: Path, a: string, b: string)
    requires a != b
    ensures Apart(p + [a], p + [b])
  {
    if p != [] {
      SiblingsAreApart(p[1..], a, b);
      assert (p + [a])[1..] == p[1..] + [a] && (p + [b])[1..] == p[1..] + [b];
    }
  }

  lemma TableStepA(i: nat)
    requires 0 <= i < 6
    ensures Before(TableRow(i).path, TableRow(i + 1).path)
  {
    match i
    case 0 =>
    case 1 =>
    case 2 =>
    case 3 =>
    case 4 =>
    case _ =>
  }

  lemma TableStepB(i: nat)
    requires 6 <= i < 12
    ensures Before(TableRow(i).path, TableRow(i + 1).path)
  {
    match i
    case 6 =>
    case 7 =>
    case 8 =>
    case 9 =>
    case 10 =>
    case _ =>
  }

  lemma TableStepC(i: nat)
    requires 12 <= i < 18
    ensures Before(TableRow(i).path, TableRow(i + 1).path)
  {
    match i
    case 12 =>
    case 13 =>
    case 14 =>
    case 15 =>
    case 16 =>
    case _ =>
  }

  lemma TableStepD(i: nat)
    requires 18 <= i < 23
    ensures Before(TableRow(i).path, TableRow(i + 1).path)
  {
    match i
    case 18 =>
    case 19 =>
    case 20 =>
    case 21 =>
    case _ =>
  }

  lemma TableStep(i: nat)
    requires i < 23
    ensures Before(TableRow(i).path, TableRow(i + 1).path)
  {
    if i < 6 { TableStepA(i); } else if i < 12 { TableStepB(i); } else if i < 18 { TableStepC(i); } else { TableStepD(i); }
  }

  lemma {:induction false} TableOrders(i: nat, j: nat)
    requires i < j < ROWS
    ensures Before(TableRow(i).path, TableRow(j).path)
    decreases j
  {
    TableStep(j - 1);
    if i < j - 1 {
      TableOrders(i, j - 1);
      BeforeTransitive(TableRow(i).path, TableRow(j - 1).path, TableRow(j).path);
    }
  }

  lemma OverrideIsApart(i: nat)
    requires i < ROWS
    ensures Apart(TableRow(i).path, SUBCHART_TAG_OVERRIDE) && Apart(SUBCHART_TAG_OVERRIDE, TableRow(i).path)
  {
    var p := SUBCHART_TAG_OVERRIDE;
    if i <= 14 {
      assert Before(TableRow(14).path, p);
      if i < 14 {
        TableOrders(i, 14);
        BeforeTransitive(TableRow(i).path, TableRow(14).path, p);
      }
      BeforeIsApart(TableRow(i).path, p);
    } else {
      assert Before(p, TableRow(15).path);
      if i > 15 {
        TableOrders(15, i);
        BeforeTransitive(p, TableRow(15).path, TableRow(i).path);
      }
      BeforeIsApart(p, TableRow(i).path);
    }
  }

  // ---------------------------------------------------------------- the tag in front of the digest

  predicate Truthy(tree: Tree) {
    match tree
    case Node(kids) => kids != map[]
    case Leaf(Str(text)) => text != ""
    case Leaf(Null) => false
    case Leaf(Other(_, truthy)) => truthy
  }

  function TextOf(tree: Tree): string {
    match tree
    case Leaf(Str(text)) => text
    case Leaf(Other(text, _)) => text
    case _ => ""
  }

  function AfterLastColon(text: string): string
    requires ':' in text
  {
    if text[|text| - 1] == ':' then [] else AfterLastColon(text[..|text| - 1]) + [text[|text| - 1]]
  }

  /** "" when the chart renders no tag today. */
  function EffectiveTag(merged: Tree, row: Row): string {
    if row.shape == Whole then
      match Dig(merged, row.path)
      case Some(Leaf(Str(text))) => if ':' in text && '@' !in text then AfterLastColon(text) else ""
      case _ => ""
    else
      var override := Dig(merged, SUBCHART_TAG_OVERRIDE);
      if row.path != [] && row.path[0] == "vexa" && override.Some? && Truthy(override.value) then TextOf(override.value)
      else
        var tag := Dig(merged, row.path + ["tag"]);
        if tag.Some? && Truthy(tag.value) then TextOf(tag.value) else ""
  }

  // ---------------------------------------------------------------- what the tag is

  lemma {:induction false} AfterLastColonOf(before: string, tag: string)
    requires ':' !in tag
    ensures AfterLastColon(before + ":" + tag) == tag
  {
    var text := before + ":" + tag;
    if tag != "" {
      var front := tag[..|tag| - 1];
      assert text[..|text| - 1] == before + ":" + front;
      AfterLastColonOf(before, front);
      assert text[|text| - 1] == tag[|tag| - 1];
      assert tag[|tag| - 1] in tag;
    }
  }

  /** A whole reference that stands in the values without a digest gives the text after
      its last colon. */
  lemma WholeTag(merged: Tree, row: Row, before: string, tag: string)
    requires row.shape == Whole && Dig(merged, row.path) == Some(Leaf(Str(before + ":" + tag))) && ':' !in tag
    ensures EffectiveTag(merged, row) == if '@' in before || '@' in tag then "" else tag
  {
    AfterLastColonOf(before, tag);
    assert ':' in before + ":" + tag;
  }

  lemma WholeWithoutTag(merged: Tree, row: Row)
    requires row.shape == Whole
    requires forall text | Dig(merged, row.path) == Some(Leaf(Str(text))) :: ':' !in text
    ensures EffectiveTag(merged, row) == ""
  {
  }

  /** The scalar at the path has the text. */
  ghost predicate Says(tree: Tree, path: Path, text: string) {
    || (text != "" && Dig(tree, path) == Some(Leaf(Str(text))))
    || Dig(tree, path) == Some(Leaf(Other(text, true)))
  }

  /** Nothing stands at the path, or something empty. */
  ghost predicate Blank(tree: Tree, path: Path) {
    var at := Dig(tree, path);
    at.Some? ==> at.value in {Leaf(Str("")), Leaf(Null), Node(map[])} || (at.value.Leaf? && at.value.value.Other? && !at.value.value.truthy)
  }

  /** A split row of the subchart takes the subchart-wide tag before its own; any
      other only its own. */
  lemma SplitTag(merged: Tree, row: Row, text: string)
    requires row.shape == Split && row.path != []
    ensures row.path[0] == "vexa" && Says(merged, ["vexa", "global", "imageTag"], text) ==> EffectiveTag(merged, row) == text
    ensures row.path[0] != "vexa" || Blank(merged, ["vexa", "global", "imageTag"]) ==>
      && (Says(merged, row.path + ["tag"], text) ==> EffectiveTag(merged, row) == text)
      && (Blank(merged, row.path + ["tag"]) ==> EffectiveTag(merged, row) == "")
  {
  }

  // ---------------------------------------------------------------- resolving

  /** An explicit assignment of the path wins over the pin of its repository. */
  function Assigned(auto: map<string, string>, explicit: map<Path, Pin>, row: Row): Option<Pin> {
    if row.path in explicit then Some(explicit[row.path])
    else if row.repo in auto then Some(Pin(row.repo, auto[row.repo]))
    else None
  }

  /** What the mapping list says of a row. */
  function Image(pin: Pin, tag: string): string {
    pin.repo + (if tag != "" then ":" + tag else "") + "@" + pin.digest
  }

  /** What the row's template renders: a split row without a tag is marked. */
  function Reference(row: Row, pin: Pin, tag: string): string {
    if row.shape == Split && tag == "" then pin.repo + ":pinned@" + pin.digest else Image(pin, tag)
  }

  datatype Mapped = Mapped(path: Path, shape: Shape, image: string)

  /** The list returned beside the overlay. */
  function Mapping(rows: seq<Row>, auto: map<string, string>, explicit: map<Path, Pin>, merged: Tree): seq<Mapped> {
    if rows == [] then []
    else
      var row := rows[|rows| - 1];
      var pin := Assigned(auto, explicit, row);
      Mapping(rows[..|rows| - 1], auto, explicit, merged)
      + if pin.Some? then [Mapped(row.path, row.shape, Image(pin.value, EffectiveTag(merged, row)))] else []
  }

  function RowWrites(row: Row, pin: Pin, tag: string): seq<Write> {
    if row.shape == Whole then
      [Write(row.path, Image(pin, tag))]
    else
      [Write(row.path + ["repository"], pin.repo),
       Write(row.path + ["tag"], (if tag != "" then tag else "pinned") + "@" + pin.digest)]
  }

  function PinWrites(rows: seq<Row>, auto: map<string, string>, explicit: map<Path, Pin>, merged: Tree): seq<Write> {
    if rows == [] then []
    else
      var row := rows[|rows| - 1];
      var pin := Assigned(auto, explicit, row);
      PinWrites(rows[..|rows| - 1], auto, explicit, merged)
      + if pin.Some? then RowWrites(row, pin.value, EffectiveTag(merged, row)) else []
  }

  /** The overlay's writes: the pins, and the blanked subchart-wide tag. */
  function AllWrites(rows: seq<Row>, auto: map<string, string>, explicit: map<Path, Pin>, merged: Tree): seq<Write> {
    PinWrites(rows, auto, explicit, merged) + [Write(SUBCHART_TAG_OVERRIDE, "")]
  }

  datatype Refusal = UnknownPath | NoPathForRepo

  predicate KnownPath(rows: seq<Row>, path: Path) {
    exists i :: 0 <= i < |rows| && rows[i].path == path
  }

  predicate KnownRepo(rows: seq<Row>, repo: string) {
    exists i :: 0 <= i < |rows| && rows[i].repo == repo
  }

  ghost predicate Writable(writes: seq<Write>) {
    forall i | 0 <= i < |writes| :: writes[i].path != []
  }

  lemma OverlayAppend(writes: seq<Write>, w: Write)
    requires Writable(writes) && w.path != []
    ensures Writable(writes + [w])
    ensures Overlay(writes + [w]) == Set(Overlay(writes), w.path, Leaf(Str(w.text)))
  {
    assert (writes + [w])[..|writes|] == writes;
  }

  method Apply(overlay: Tree, ws: seq<Write>, ghost writes: seq<Write>) returns (after: Tree)
    requires Writable(writes) && Writable(ws) && overlay == Overlay(writes)
    ensures Writable(writes + ws) && after == Overlay(writes + ws)
  {
    after := overlay;
    assert writes + ws[..0] == writes;
    for i := 0 to |ws|
      invariant Writable(writes + ws[..i]) && after == Overlay(writes + ws[..i])
    {
      OverlayAppend(writes + ws[..i], ws[i]);
      assert writes + ws[..i + 1] == writes + ws[..i] + [ws[i]];
      after := Set(after, ws[i].path, Leaf(Str(ws[i].text)));
    }
    assert ws[..|ws|] == ws;
  }

  predicate Accepted(rows: seq<Row>, auto: map<string, string>, explicit: map<Path, Pin>, unpinnable: set<string>) {
    && (forall path | path in explicit :: KnownPath(rows, path))
    && (forall repo | repo in auto :: KnownRepo(rows, repo) || repo in unpinnable)
  }

  /** The overlay and the list, or a refusal for a path or a repository the table lacks. */
  method ResolvePlatformPins(rows: seq<Row>, auto: map<string, string>, explicit: map<Path, Pin>, merged: Tree,
                             unpinnable: set<string>) returns (r: Result<(Tree, seq<Mapped>), Refusal>)
    requires forall i | 0 <= i < |rows| :: rows[i].path != []
    ensures r == Err(UnknownPath) <==> exists path :: path in explicit && forall i | 0 <= i < |rows| :: rows[i].path != path
    ensures r == Err(NoPathForRepo) <==>
      && (forall path | path in explicit :: exists i :: 0 <= i < |rows| && rows[i].path == path)
      && exists repo :: repo in auto && repo !in unpinnable && forall i | 0 <= i < |rows| :: rows[i].repo != repo
    ensures r.Ok? <==> Accepted(rows, auto, explicit, unpinnable)
    ensures var writes := AllWrites(rows, auto, explicit, merged);
            r.Ok? ==> Writable(writes) && r.value == (Overlay(writes), Mapping(rows, auto, explicit, merged))
  {
    if exists path | path in explicit :: !KnownPath(rows, path) {
      return Err(UnknownPath);
    }
    if exists repo | repo in auto :: !KnownRepo(rows, repo) && repo !in unpinnable {
      return Err(NoPathForRepo);
    }
    var overlay, mapping := BuildOverlay(rows, auto, explicit, merged);
    return Ok((overlay, mapping));
  }

  method BuildOverlay(rows: seq<Row>, auto: map<string, string>, explicit: map<Path, Pin>, merged: Tree)
      returns (overlay: Tree, mapping: seq<Mapped>)
    requires forall i | 0 <= i < |rows| :: rows[i].path != []
    ensures var writes := AllWrites(rows, auto, explicit, merged); Writable(writes) && overlay == Overlay(writes)
    ensures mapping == Mapping(rows, auto, explicit, merged)
  {
    overlay, mapping := Node(map[]), [];
    ghost var writes: seq<Write> := [];
    for i := 0 to |rows|
      invariant writes == PinWrites(rows[..i], auto, explicit, merged)
      invariant Writable(writes) && overlay == Overlay(writes)
      invariant mapping == Mapping(rows[..i], auto, explicit, merged)
    {
      assert rows[..i + 1][..i] == rows[..i];
      var pin := Assigned(auto, explicit, rows[i]);
      if pin.Some? {
        var tag := EffectiveTag(merged, rows[i]);
        var ws := RowWrites(rows[i], pin.value, tag);
        overlay := Apply(overlay, ws, writes);
        writes := writes + ws;
        mapping := mapping + [Mapped(rows[i].path, rows[i].shape, Image(pin.value, tag))];
      }
    }
    assert rows[..|rows|] == rows;
    OverlayAppend(writes, Write(SUBCHART_TAG_OVERRIDE, ""));
    overlay := Set(overlay, SUBCHART_TAG_OVERRIDE, Leaf(Str("")));
  }

  // ---------------------------------------------------------------- the pins survive

  /** No row's path, nor the subchart-wide tag's, is a prefix of another. */
  ghost predicate RowsApart(rows: seq<Row>) {
    && (forall i | 0 <= i < |rows| :: rows[i].path != []
          && Apart(rows[i].path, SUBCHART_TAG_OVERRIDE) && Apart(SUBCHART_TAG_OVERRIDE, rows[i].path))
    && (forall i, j | 0 <= i < |rows| && 0 <= j < |rows| && i != j :: Apart(rows[i].path, rows[j].path))
  }

  const PLATFORM_IMAGE_PATHS: seq<Row> := seq(ROWS, i requires 0 <= i < ROWS => TableRow(i))

  lemma PlatformRowsApart()
    ensures RowsApart(PLATFORM_IMAGE_PATHS)
  {
    forall i, j | 0 <= i < ROWS && 0 <= j < ROWS && i != j ensures Apart(TableRow(i).path, TableRow(j).path) {
      TableOrders(if i < j then i else j, if i < j then j else i);
      BeforeIsApart(TableRow(if i < j then i else j).path, TableRow(if i < j then j else i).path);
    }
    forall i | 0 <= i < ROWS ensures Apart(TableRow(i).path, SUBCHART_TAG_OVERRIDE)
                                      && Apart(SUBCHART_TAG_OVERRIDE, TableRow(i).path) {
      OverrideIsApart(i);
    }
  }

  /** At the row's path or below it. */
  ghost predicate Under(path: Path, row: Row) {
    |row.path| <= |path| && path[..|row.path|] == row.path
  }

  lemma UnderApart(p: Path, q: Path, row: Row, other: Row)
    requires Under(p, row) && Under(q, other) && Apart(row.path, other.path)
    ensures Apart(p, q)
  {
    ApartExtends(row.path, other.path, p[|row.path|..], q[|other.path|..]);
    assert p == row.path + p[|row.path|..] && q == other.path + q[|other.path|..];
  }

  lemma RowWritesUnder(row: Row, pin: Pin, tag: string)
    requires row.path != []
    ensures PrefixFree(RowWrites(row, pin, tag))
    ensures forall k | 0 <= k < |RowWrites(row, pin, tag)| :: Under(RowWrites(row, pin, tag)[k].path, row)
  {
    SiblingsAreApart(row.path, "repository", "tag");
    SiblingsAreApart(row.path, "tag", "repository");
  }

  ghost predicate AllUnder(writes: seq<Write>, rows: seq<Row>) {
    forall k | 0 <= k < |writes| :: exists i :: 0 <= i < |rows| && Under(writes[k].path, rows[i])
  }

  lemma PrefixFreeConcat(a: seq<Write>, b: seq<Write>)
    requires PrefixFree(a) && PrefixFree(b)
    requires forall i, j | 0 <= i < |a| && 0 <= j < |b| ::
               Apart(a[i].path, b[j].path) && Apart(b[j].path, a[i].path)
    ensures PrefixFree(a + b)
  {
    var all := a + b;
    forall i, j | 0 <= i < |all| && 0 <= j < |all| && i != j ensures Apart(all[i].path, all[j].path) {
      assert i < |a| ==> all[i] == a[i];
      assert i >= |a| ==> all[i] == b[i - |a|];
      assert j < |a| ==> all[j] == a[j];
      assert j >= |a| ==> all[j] == b[j - |a|];
    }
  }

  lemma {:induction false} PinWritesPrefixFree(rows: seq<Row>, auto: map<string, string>, explicit: map<Path, Pin>, merged: Tree)
    requires RowsApart(rows)
    ensures var writes := PinWrites(rows, auto, explicit, merged); PrefixFree(writes) && AllUnder(writes, rows)
  {
    if rows != [] {
      var front, row := rows[..|rows| - 1], rows[|rows| - 1];
      PinWritesPrefixFree(front, auto, explicit, merged);
      var before, pin := PinWrites(front, auto, explicit, merged), Assigned(auto, explicit, row);
      var ws := if pin.Some? then RowWrites(row, pin.value, EffectiveTag(merged, row)) else [];
      if pin.Some? {
        RowWritesUnder(row, pin.value, EffectiveTag(merged, row));
      }
      forall k, m | 0 <= k < |before| && 0 <= m < |ws|
        ensures Apart(before[k].path, ws[m].path) && Apart(ws[m].path, before[k].path)
      {
        var i :| 0 <= i < |front| && Under(before[k].path, front[i]);
        assert front[i] == rows[i];
        UnderApart(before[k].path, ws[m].path, rows[i], row);
        UnderApart(ws[m].path, before[k].path, row, rows[i]);
      }
      PrefixFreeConcat(before, ws);
      forall k | 0 <= k < |before + ws| ensures exists i :: 0 <= i < |rows| && Under((before + ws)[k].path, rows[i]) {
        if k < |before| {
          var i :| 0 <= i < |front| && Under(before[k].path, front[i]);
          assert Under((before + ws)[k].path, rows[i]);
        } else {
          assert Under(ws[k - |before|].path, row);
          assert rows[|rows| - 1] == row;
        }
      }
    }
  }

  lemma AllWritesPrefixFree(rows: seq<Row>, auto: map<string, string>, explicit: map<Path, Pin>, merged: Tree)
    requires RowsApart(rows)
    ensures PrefixFree(AllWrites(rows, auto, explicit, merged))
  {
    PinWritesPrefixFree(rows, auto, explicit, merged);
    var writes, last := PinWrites(rows, auto, explicit, merged), Write(SUBCHART_TAG_OVERRIDE, "");
    var override := Row(SUBCHART_TAG_OVERRIDE, Whole, "");
    forall k | 0 <= k < |writes| ensures Apart(writes[k].path, last.path) && Apart(last.path, writes[k].path) {
      var i :| 0 <= i < |rows| && Under(writes[k].path, rows[i]);
      UnderApart(writes[k].path, last.path, rows[i], override);
      UnderApart(last.path, writes[k].path, override, rows[i]);
    }
    PrefixFreeConcat(writes, [last]);
  }

  lemma {:induction false} WriteIsThere(rows: seq<Row>, auto: map<string, string>, explicit: map<Path, Pin>, merged: Tree,
                                        i: nat, m: nat) returns (k: nat)
    requires i < |rows| && Assigned(auto, explicit, rows[i]).Some?
    requires m < |RowWrites(rows[i], Assigned(auto, explicit, rows[i]).value, EffectiveTag(merged, rows[i]))|
    ensures k < |PinWrites(rows, auto, explicit, merged)|
    ensures PinWrites(rows, auto, explicit, merged)[k]
            == RowWrites(rows[i], Assigned(auto, explicit, rows[i]).value, EffectiveTag(merged, rows[i]))[m]
  {
    var front := rows[..|rows| - 1];
    if i < |front| {
      assert front[i] == rows[i];
      k := WriteIsThere(front, auto, explicit, merged, i, m);
    } else {
      k := |PinWrites(front, auto, explicit, merged)| + m;
    }
  }

  function StrAt(tree: Tree, path: Path): Option<string> {
    match Dig(tree, path)
    case Some(Leaf(Str(text))) => Some(text)
    case _ => None
  }

  /** The image reference the row's template renders. */
  function Rendered(tree: Tree, row: Row): Option<string> {
    if row.shape == Whole then StrAt(tree, row.path)
    else
      var repository, tag := StrAt(tree, row.path + ["repository"]), StrAt(tree, row.path + ["tag"]);
      if repository.Some? && tag.Some? then Some(repository.value + ":" + tag.value) else None
  }

  /** Whatever values the chart starts from and whatever overlays come between, with
      the pin overlay merged last every assigned row of the platform table renders exactly
      its own repository at its own digest, behind the tag the chart renders today or the
      mark a split row gets without one; the subchart-wide tag that would override them
      is blank, and every path apart from the written ones reads what it read. */
  lemma PinsSurviveOverlays(auto: map<string, string>, explicit: map<Path, Pin>, merged: Tree,
                            base: Tree, overlays: seq<Tree>, i: nat, other: Path)
    requires base.Node? && forall j | 0 <= j < |overlays| :: overlays[j].Node?
    requires i < ROWS && Assigned(auto, explicit, TableRow(i)).Some?
    ensures var writes := AllWrites(PLATFORM_IMAGE_PATHS, auto, explicit, merged);
            && PrefixFree(writes)
            && var before := MergeAll(base, overlays);
               var after := Merge(before, Overlay(writes));
               && Rendered(after, TableRow(i))
                  == Some(Reference(TableRow(i), Assigned(auto, explicit, TableRow(i)).value,
                                    EffectiveTag(merged, TableRow(i))))
               && StrAt(after, SUBCHART_TAG_OVERRIDE) == Some("")
               && (ApartFromAll(other, writes) ==> Dig(after, other) == Dig(before, other))
               && Merge(after, Overlay(writes)) == after
  {
    PlatformRowsApart();
    RowRenders(PLATFORM_IMAGE_PATHS, auto, explicit, merged, base, overlays, i);
    AllWritesPrefixFree(PLATFORM_IMAGE_PATHS, auto, explicit, merged);
    var writes := AllWrites(PLATFORM_IMAGE_PATHS, auto, explicit, merged);
    WritesSurviveOverlays(base, overlays, writes, |writes| - 1, other);
  }

  lemma WriteReads(rows: seq<Row>, auto: map<string, string>, explicit: map<Path, Pin>, merged: Tree,
                   base: Tree, overlays: seq<Tree>, i: nat, m: nat)
    requires base.Node? && forall j | 0 <= j < |overlays| :: overlays[j].Node?
    requires RowsApart(rows) && i < |rows| && Assigned(auto, explicit, rows[i]).Some?
    requires m < |RowWrites(rows[i], Assigned(auto, explicit, rows[i]).value, EffectiveTag(merged, rows[i]))|
    ensures PrefixFree(AllWrites(rows, auto, explicit, merged))
    ensures var after := Merge(MergeAll(base, overlays), Overlay(AllWrites(rows, auto, explicit, merged)));
            var w := RowWrites(rows[i], Assigned(auto, explicit, rows[i]).value, EffectiveTag(merged, rows[i]))[m];
            StrAt(after, w.path) == Some(w.text)
  {
    AllWritesPrefixFree(rows, auto, explicit, merged);
    var writes := AllWrites(rows, auto, explicit, merged);
    var k := WriteIsThere(rows, auto, explicit, merged, i, m);
    WritesSurviveOverlays(base, overlays, writes, k, []);
  }

  lemma RowRenders(rows: seq<Row>, auto: map<string, string>, explicit: map<Path, Pin>, merged: Tree,
                   base: Tree, overlays: seq<Tree>, i: nat)
    requires base.Node? && forall j | 0 <= j < |overlays| :: overlays[j].Node?
    requires RowsApart(rows) && i < |rows| && Assigned(auto, explicit, rows[i]).Some?
    ensures PrefixFree(AllWrites(rows, auto, explicit, merged))
    ensures var after := Merge(MergeAll(base, overlays), Overlay(AllWrites(rows, auto, explicit, merged)));
            Rendered(after, rows[i])
            == Some(Reference(rows[i], Assigned(auto, explicit, rows[i]).value, EffectiveTag(merged, rows[i])))
  {
    var row, pin := rows[i], Assigned(auto, explicit, rows[i]).value;
    WriteReads(rows, auto, explicit, merged, base, overlays, i, 0);
    if row.shape == Split {
      WriteReads(rows, auto, explicit, merged, base, overlays, i, 1);
    }
    WritesCompose(row, pin, EffectiveTag(merged, row));
  }

  lemma WritesCompose(row: Row, pin: Pin, tag: string)
    ensures var ws := RowWrites(row, pin, tag);
            Reference(row, pin, tag) == if row.shape == Whole then ws[0].text else ws[0].text + ":" + ws[1].text
  {
    if row.shape == Split && tag != "" {
      assert pin.repo + ":" + (tag + "@" + pin.digest) == pin.repo + (":" + tag) + "@" + pin.digest;
    } else if row.shape == Split {
      assert pin.repo + ":" + ("pinned" + "@" + pin.digest) == pin.repo + ":pinned@" + pin.digest;
    }
  }

  /** The list tells what will be rendered exactly when the row is whole or has a tag. */
  lemma MappingTellsIff(row: Row, pin: Pin, tag: string)
    ensures Image(pin, tag) == Reference(row, pin, tag) <==> row.shape == Whole || tag != ""
  {
    if row.shape == Split && tag == "" {
      assert |Image(pin, tag)| == |pin.repo| + |"@"| + |pin.digest|;
      assert |Reference(row, pin, tag)| == |pin.repo| + |":pinned@"| + |pin.digest|;
    }
  }

  /** An accepted pin by repository lands on a row exactly when some row of that
      repository is left to it, or an explicit line assigns the very same pin. */
  lemma AutoPinLandsIff(rows: seq<Row>, auto: map<string, string>, explicit: map<Path, Pin>, unpinnable: set<string>,
                        repo: string)
    requires Accepted(rows, auto, explicit, unpinnable) && repo in auto
    ensures (exists i :: 0 <= i < |rows| && Assigned(auto, explicit, rows[i]) == Some(Pin(repo, auto[repo])))
            <==> || (exists i :: 0 <= i < |rows| && rows[i].repo == repo && rows[i].path !in explicit)
                 || (exists path :: path in explicit && explicit[path] == Pin(repo, auto[repo]))
  {
    if i :| 0 <= i < |rows| && rows[i].repo == repo && rows[i].path !in explicit {
      assert Assigned(auto, explicit, rows[i]) == Some(Pin(repo, auto[repo]));
    }
    if path :| path in explicit && explicit[path] == Pin(repo, auto[repo]) {
      var i :| 0 <= i < |rows| && rows[i].path == path;
      assert Assigned(auto, explicit, rows[i]) == Some(Pin(repo, auto[repo]));
    }
  }

  /** A pin set that is accepted and whose repository pin lands nowhere: the one row of
      that repository is taken by an explicit line. */
  lemma AutoPinLandsNowhere(i: nat)
    requires i < ROWS
    ensures var auto, explicit := map["caddy" := "sha256:aa"], map[["caddy", "image"] := Pin("mirror/caddy", "sha256:bb")];
      && Accepted(PLATFORM_IMAGE_PATHS, auto, explicit, {})
      && Assigned(auto, explicit, TableRow(i)) != Some(Pin("caddy", "sha256:aa"))
  {
    assert PLATFORM_IMAGE_PATHS[5] == TableRow(5) && TableRow(5).path == ["caddy", "image"];
    var explicit := map[["caddy", "image"] := Pin("mirror/caddy", "sha256:bb")];
    assert KnownRepo(PLATFORM_IMAGE_PATHS, "caddy") && KnownPath(PLATFORM_IMAGE_PATHS, ["caddy", "image"]);
    if TableRow(i).repo == "caddy" {
      assert i == 5;
    }
  }

  // ---------------------------------------------------------------- which rows are written, and with what

  /** The pin set gives the row this pin: by its path, or else by its repository. */
  ghost predicate Given(auto: map<string, string>, explicit: map<Path, Pin>, row: Row, repo: string, digest: string) {
    if row.path in explicit then explicit[row.path] == Pin(repo, digest)
    else row.repo == repo && repo in auto && auto[repo] == digest
  }

  lemma AssignedIff(auto: map<string, string>, explicit: map<Path, Pin>, row: Row, repo: string, digest: string)
    ensures Assigned(auto, explicit, row) == Some(Pin(repo, digest)) <==> Given(auto, explicit, row, repo, digest)
  {
  }

  lemma ReferenceSays(row: Row, pin: Pin, tag: string)
    ensures Reference(row, pin, tag) ==
      if tag != "" then pin.repo + ":" + tag + "@" + pin.digest
      else if row.shape == Split then pin.repo + ":pinned@" + pin.digest
      else pin.repo + "@" + pin.digest
  {
    assert pin.repo + (":" + tag) + "@" + pin.digest == pin.repo + ":" + tag + "@" + pin.digest;
    assert pin.repo + "" + "@" + pin.digest == pin.repo + "@" + pin.digest;
  }

  /** Rendered from the platform table after any overlays: `repo:tag@digest` with
      today's tag, else `repo@digest` or, for a split row, `repo:pinned@digest`. */
  lemma GivenIsRendered(auto: map<string, string>, explicit: map<Path, Pin>, merged: Tree,
                        base: Tree, overlays: seq<Tree>, i: nat, repo: string, digest: string)
    requires base.Node? && forall j | 0 <= j < |overlays| :: overlays[j].Node?
    requires i < ROWS && Given(auto, explicit, TableRow(i), repo, digest)
    ensures var writes := AllWrites(PLATFORM_IMAGE_PATHS, auto, explicit, merged);
            var (row, tag) := (TableRow(i), EffectiveTag(merged, TableRow(i)));
            && PrefixFree(writes)
            && Rendered(Merge(MergeAll(base, overlays), Overlay(writes)), row)
               == Some(if tag != "" then repo + ":" + tag + "@" + digest
                       else if row.shape == Split then repo + ":pinned@" + digest
                       else repo + "@" + digest)
  {
    AssignedIff(auto, explicit, TableRow(i), repo, digest);
    PinsSurviveOverlays(auto, explicit, merged, base, overlays, i, []);
    ReferenceSays(TableRow(i), Pin(repo, digest), EffectiveTag(merged, TableRow(i)));
  }

  /** The pin set has nothing for the row. */
  ghost predicate Passed(auto: map<string, string>, explicit: map<Path, Pin>, row: Row) {
    row.path !in explicit && row.repo !in auto
  }

  lemma {:induction false} PassedIsApart(rows: seq<Row>, auto: map<string, string>, explicit: map<Path, Pin>, merged: Tree,
                                         passed: Row, path: Path, k: nat)
    requires (forall i | 0 <= i < |rows| :: rows[i].path != [] && (rows[i] == passed || Apart(rows[i].path, passed.path)))
    requires Passed(auto, explicit, passed) && Under(path, passed)
    requires k < |PinWrites(rows, auto, explicit, merged)|
    ensures Apart(PinWrites(rows, auto, explicit, merged)[k].path, path)
  {
    var front, row := rows[..|rows| - 1], rows[|rows| - 1];
    var before, pin := PinWrites(front, auto, explicit, merged), Assigned(auto, explicit, row);
    if k < |before| {
      PassedIsApart(front, auto, explicit, merged, passed, path, k);
    } else {
      var ws := RowWrites(row, pin.value, EffectiveTag(merged, row));
      RowWritesUnder(row, pin.value, EffectiveTag(merged, row));
      assert Under(ws[k - |before|].path, row);
      UnderApart(ws[k - |before|].path, path, row, passed);
    }
  }

  /** Nothing at or under a row of the platform table without a pin is written. */
  lemma PassedIsUntouched(auto: map<string, string>, explicit: map<Path, Pin>, merged: Tree,
                          base: Tree, overlays: seq<Tree>, i: nat, path: Path)
    requires base.Node? && forall j | 0 <= j < |overlays| :: overlays[j].Node?
    requires i < ROWS && Passed(auto, explicit, TableRow(i)) && Under(path, TableRow(i))
    ensures var writes := AllWrites(PLATFORM_IMAGE_PATHS, auto, explicit, merged);
            PrefixFree(writes)
            && Dig(Merge(MergeAll(base, overlays), Overlay(writes)), path) == Dig(MergeAll(base, overlays), path)
  {
    PlatformRowsApart();
    var rows, row := PLATFORM_IMAGE_PATHS, TableRow(i);
    AllWritesPrefixFree(rows, auto, explicit, merged);
    var pins, writes := PinWrites(rows, auto, explicit, merged), AllWrites(rows, auto, explicit, merged);
    assert rows[i] == row;
    forall k | 0 <= k < |writes| ensures Apart(writes[k].path, path) {
      if k < |pins| {
        PassedIsApart(rows, auto, explicit, merged, row, path, k);
      } else {
        UnderApart(writes[k].path, path, Row(SUBCHART_TAG_OVERRIDE, Whole, ""), row);
      }
    }
    WritesSurviveOverlays(base, overlays, writes, 0, path);
  }

  lemma MappingGrows(rows: seq<Row>, auto: map<string, string>, explicit: map<Path, Pin>, merged: Tree, m: Mapped)
    requires rows != []
    ensures var n := |rows| - 1;
            m in Mapping(rows, auto, explicit, merged)
            <==> m in Mapping(rows[..n], auto, explicit, merged) || Lists(rows[n], auto, explicit, merged, m)
  {
    ListsIff(rows[|rows| - 1], auto, explicit, merged, m);
  }

  /** The list has exactly the rows with a pin, each with its reference. */
  lemma {:induction false} MappingLists(rows: seq<Row>, auto: map<string, string>, explicit: map<Path, Pin>, merged: Tree,
                                        m: Mapped)
    ensures m in Mapping(rows, auto, explicit, merged) <==> exists i :: 0 <= i < |rows| && Lists(rows[i], auto, explicit, merged, m)
  {
    if rows != [] {
      var n := |rows| - 1;
      MappingLists(rows[..n], auto, explicit, merged, m);
      MappingGrows(rows, auto, explicit, merged, m);
      if i :| 0 <= i < |rows| && Lists(rows[i], auto, explicit, merged, m) {
        assert i < n ==> rows[..n][i] == rows[i];
      }
    }
  }

  ghost predicate Lists(row: Row, auto: map<string, string>, explicit: map<Path, Pin>, merged: Tree, m: Mapped) {
    var tag := EffectiveTag(merged, row);
    && m.path == row.path && m.shape == row.shape
    && exists repo, digest :: Given(auto, explicit, row, repo, digest)
                              && m.image == if tag != "" then repo + ":" + tag + "@" + digest else repo + "@" + digest
  }

  lemma ListsIff(row: Row, auto: map<string, string>, explicit: map<Path, Pin>, merged: Tree, m: Mapped)
    ensures Lists(row, auto, explicit, merged, m)
            <==> var pin := Assigned(auto, explicit, row);
                 pin.Some? && m == Mapped(row.path, row.shape, Image(pin.value, EffectiveTag(merged, row)))
  {
    var pin, tag := Assigned(auto, explicit, row), EffectiveTag(merged, row);
    if pin.Some? {
      var (repo, digest) := (pin.value.repo, pin.value.digest);
      AssignedIff(auto, explicit, row, repo, digest);
      assert repo + (":" + tag) + "@" + digest == repo + ":" + tag + "@" + digest;
      assert repo + "" + "@" + digest == repo + "@" + digest;
    }
    if Lists(row, auto, explicit, merged, m) {
      var repo, digest :| Given(auto, explicit, row, repo, digest)
                          && m.image == if tag != "" then repo + ":" + tag + "@" + digest else repo + "@" + digest;
      AssignedIff(auto, explicit, row, repo, digest);
    }
  }
}
