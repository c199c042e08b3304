/** The literal block a report carries a section in (kit/report/vexa_state_report.py),
    the normalisation before it (kit/validate/vexa_validate.py), and a reader by the
    rules of section 8.1 of YAML 1.2.2, over any set of characters a line may hold. */
module LiteralBlock {
  import opened Wrappers
  import opened Lines

  // ---------------------------------------------------------------- normalisation

  /** CRLF and lone CR become LF. */
  function Unix(s: string): string {
    if s == [] then []
    else if s[0] == '\r' then ['\n'] + Unix(s[if |s| > 1 && s[1] == '\n' then 2 else 1..])
    else [s[0]] + Unix(s[1..])
  }

  function StripEach(lines: seq<string>): seq<string> {
    seq(|lines|, i requires 0 <= i < |lines| => RStrip(lines[i]))
  }

  function DropBlankTail(lines: seq<string>): seq<string> {
    if lines != [] && lines[|lines| - 1] == "" then DropBlankTail(lines[..|lines| - 1]) else lines
  }

  function NormalLines(text: string): seq<string> {
    DropBlankTail(StripEach(Split(Unix(text))))
  }

  function Normalise(text: string): string {
    var lines := NormalLines(text);
    if lines == [] then "" else Join(lines) + "\n"
  }

  method NormaliseText(text: string) returns (r: string)
    ensures r == Normalise(text)
  {
    var lines := StripEach(Split(Unix(text)));
    while lines != [] && lines[|lines| - 1] == ""
      invariant DropBlankTail(lines) == NormalLines(text)
    {
      lines := lines[..|lines| - 1];
    }
    r := if lines == [] then "" else Join(lines) + "\n";
  }

  /** Lines as normalisation leaves them. */
  ghost predicate Normal(lines: seq<string>) {
    && Unbroken(lines)
    && (forall i | 0 <= i < |lines| :: '\r' !in lines[i] && RStrip(lines[i]) == lines[i])
    && (lines != [] ==> lines[|lines| - 1] != "")
  }

  lemma {:induction false} UnixHasNoReturn(s: string)
    ensures '\r' !in Unix(s)
  {
    if s != [] {
      if s[0] == '\r' {
        UnixHasNoReturn(s[if |s| > 1 && s[1] == '\n' then 2 else 1..]);
      } else {
        UnixHasNoReturn(s[1..]);
      }
    }
  }

  lemma {:induction false} UnixIdentity(s: string)
    requires '\r' !in s
    ensures Unix(s) == s
  {
    if s != [] {
      UnixIdentity(s[1..]);
    }
  }

  lemma {:induction false} SplitChars(s: string, c: char)
    requires c !in s
    ensures forall i | 0 <= i < |Split(s)| :: c !in Split(s)[i]
  {
    if s != [] {
      SplitChars(s[1..], c);
    }
  }

  lemma {:induction false} JoinChars(lines: seq<string>, c: char)
    requires c != '\n' && forall i | 0 <= i < |lines| :: c !in lines[i]
    ensures c !in Join(lines)
  {
    if |lines| > 1 {
      JoinChars(lines[1..], c);
    }
  }

  lemma RStripFixed(s: string)
    ensures RStrip(RStrip(s)) == RStrip(s)
  {
  }

  lemma {:induction false} DropBlankTailNormal(lines: seq<string>)
    requires Unbroken(lines) && forall i | 0 <= i < |lines| :: '\r' !in lines[i] && RStrip(lines[i]) == lines[i]
    ensures Normal(DropBlankTail(lines))
  {
    if lines != [] && lines[|lines| - 1] == "" {
      DropBlankTailNormal(lines[..|lines| - 1]);
    }
  }

  lemma NormalLinesNormal(text: string)
    ensures Normal(NormalLines(text))
  {
    var unix := Unix(text);
    UnixHasNoReturn(text);
    SplitUnbroken(unix);
    SplitChars(unix, '\r');
    var lines := StripEach(Split(unix));
    forall i | 0 <= i < |lines| ensures '\n' !in lines[i] && '\r' !in lines[i] && RStrip(lines[i]) == lines[i] {
      RStripFixed(Split(unix)[i]);
    }
    DropBlankTailNormal(lines);
  }

  lemma SplitNormal(lines: seq<string>)
    requires Normal(lines) && lines != []
    ensures Split(Unix(Join(lines) + "\n")) == lines + [""]
  {
    JoinChars(lines, '\r');
    UnixIdentity(Join(lines) + "\n");
    JoinThenBreak(lines);
    SplitJoin(lines + [""]);
  }

  lemma DropOneBlank(lines: seq<string>)
    requires lines != [] ==> lines[|lines| - 1] != ""
    ensures DropBlankTail(lines + [""]) == lines
  {
    assert (lines + [""])[..|lines|] == lines;
  }

  lemma NormalLinesBack(lines: seq<string>)
    requires Normal(lines) && lines != []
    ensures NormalLines(Join(lines) + "\n") == lines
  {
    SplitNormal(lines);
    assert StripEach(lines + [""]) == lines + [""];
    DropOneBlank(lines);
  }

  /** Normalising once is enough. */
  lemma NormaliseIdempotent(text: string)
    ensures Normalise(Normalise(text)) == Normalise(text)
  {
    NormalLinesNormal(text);
    var lines := NormalLines(text);
    if lines == [] {
      assert Split(Unix("")) == [""];
      assert StripEach([""]) == [""];
      assert DropBlankTail([""]) == [];
    } else {
      NormalLinesBack(lines);
    }
  }

  // ---------------------------------------------------------------- what normalisation makes of any text

  datatype Break = LF | CRLF | CR

  function BreakText(b: Break): string {
    match b
    case LF => "\n"
    case CRLF => "\r\n"
    case CR => "\r"
  }

  /** A line as its ink, which does not end in white space, and the white space after it. */
  datatype Line = Line(ink: string, blank: string)

  ghost predicate ProperLine(line: Line) {
    && (line.ink != "" ==> !IsSpace(line.ink[|line.ink| - 1]))
    && (forall i | 0 <= i < |line.blank| :: IsSpace(line.blank[i]))
    && '\n' !in line.ink && '\r' !in line.ink && '\n' !in line.blank && '\r' !in line.blank
  }

  function LineText(line: Line): string { line.ink + line.blank }

  /** The lines, each with the break that ended it, and what is left after the last break. */
  datatype Layout = End(last: Line) | Then(line: Line, ended: Break, rest: Layout)

  function TextOf(l: Layout): string {
    match l
    case End(last) => LineText(last)
    case Then(line, ended, rest) => LineText(line) + (BreakText(ended) + TextOf(rest))
  }

  function Inks(l: Layout): seq<string> {
    match l
    case End(last) => [last.ink]
    case Then(line, _, rest) => [line.ink] + Inks(rest)
  }

  /** A carriage return directly before a line feed is one break, not two. */
  ghost predicate Proper(l: Layout) {
    match l
    case End(last) => ProperLine(last)
    case Then(line, ended, rest) =>
      ProperLine(line) && Proper(rest) && (ended == CR ==> TextOf(rest) == "" || TextOf(rest)[0] != '\n')
  }

  lemma {:induction false} UnixConcat(line: string, rest: string)
    requires '\r' !in line
    ensures Unix(line + rest) == line + Unix(rest)
  {
    if line == [] {
      assert line + rest == rest;
    } else {
      assert (line + rest)[1..] == line[1..] + rest;
      UnixConcat(line[1..], rest);
      assert line == [line[0]] + line[1..];
    }
  }

  lemma UnixBreak(b: Break, rest: string)
    requires b == CR ==> rest == "" || rest[0] != '\n'
    ensures Unix(BreakText(b) + rest) == "\n" + Unix(rest)
  {
    var text := BreakText(b) + rest;
    match b
    case LF => assert text[1..] == rest;
    case CRLF => assert text[2..] == rest;
    case CR => assert text[1..] == rest;
  }

  lemma {:induction false} RStripOf(ink: string, blank: string)
    requires ink != "" ==> !IsSpace(ink[|ink| - 1])
    requires forall i | 0 <= i < |blank| :: IsSpace(blank[i])
    ensures RStrip(ink + blank) == ink
  {
    if blank == [] {
      assert ink + blank == ink;
    } else {
      var front := blank[..|blank| - 1];
      assert (ink + blank)[..|ink + blank| - 1] == ink + front;
      RStripOf(ink, front);
    }
  }

  lemma LineUnbroken(line: Line)
    requires ProperLine(line)
    ensures '\n' !in LineText(line) && '\r' !in LineText(line) && RStrip(LineText(line)) == line.ink
  {
    RStripOf(line.ink, line.blank);
  }

  lemma StripEachCons(line: string, rest: seq<string>)
    ensures StripEach([line] + rest) == [RStrip(line)] + StripEach(rest)
  {
  }

  lemma UnixOfLine(line: string, b: Break, rest: string)
    requires '\n' !in line && '\r' !in line && (b == CR ==> rest == "" || rest[0] != '\n')
    ensures Split(Unix(line + (BreakText(b) + rest))) == [line] + Split(Unix(rest))
  {
    UnixConcat(line, BreakText(b) + rest);
    UnixBreak(b, rest);
    SplitFirst(line, Unix(rest));
  }

  lemma SplitFirst(line: string, unix: string)
    requires '\n' !in line
    ensures Split(line + ("\n" + unix)) == [line] + Split(unix)
  {
    assert line + ("\n" + unix) == line + "\n" + unix;
    SplitCons(line, unix);
  }

  /** Whatever ends them, the lines of a text are its inks. */
  lemma {:induction false} LinesAreInks(l: Layout)
    requires Proper(l)
    ensures StripEach(Split(Unix(TextOf(l)))) == Inks(l)
  {
    match l
    case End(last) =>
      LineUnbroken(last);
      UnixIdentity(LineText(last));
      SplitOne(LineText(last));
    case Then(line, ended, rest) =>
      LinesAreInks(rest);
      LineUnbroken(line);
      UnixOfLine(LineText(line), ended, TextOf(rest));
      StripEachCons(LineText(line), Split(Unix(TextOf(rest))));
  }

  lemma {:induction false} DropsBlankTail(lines: seq<string>, k: nat)
    requires k <= |lines| && (k > 0 ==> lines[k - 1] != "")
    requires forall i | k <= i < |lines| :: lines[i] == ""
    ensures DropBlankTail(lines) == lines[..k]
  {
    if k < |lines| {
      DropsBlankTail(lines[..|lines| - 1], k);
      assert lines[..|lines| - 1][..k] == lines[..k];
    } else {
      assert lines[..k] == lines;
    }
  }

  /** Any text, whatever ends its lines and whatever white space stands before the ends:
      its lines without that white space and without the blank ones after the last ink,
      one line feed after each; and nothing when all is blank. */
  lemma NormaliseMeans(l: Layout, k: nat)
    requires Proper(l) && k <= |Inks(l)| && (k > 0 ==> Inks(l)[k - 1] != "")
    requires forall i | k <= i < |Inks(l)| :: Inks(l)[i] == ""
    ensures Normalise(TextOf(l)) == if k == 0 then "" else Join(Inks(l)[..k]) + "\n"
    ensures NormalLines(TextOf(l)) == Inks(l)[..k]
  {
    LinesAreInks(l);
    DropsBlankTail(Inks(l), k);
  }

  lemma SplitInk(text: string) returns (line: Line)
    requires '\n' !in text && '\r' !in text
    ensures ProperLine(line) && LineText(line) == text
  {
    var ink := RStrip(text);
    line := Line(ink, text[|ink|..]);
    forall i | 0 <= i < |line.blank| ensures IsSpace(line.blank[i]) {
      RStripDropsSpace(text, |ink| + i);
    }
  }

  lemma {:induction false} RStripDropsSpace(s: string, i: nat)
    requires |RStrip(s)| <= i < |s|
    ensures IsSpace(s[i])
  {
    if i < |s| - 1 {
      RStripDropsSpace(s[..|s| - 1], i);
    }
  }

  lemma AddToLine(c: char, l: Layout) returns (more: Layout)
    requires Proper(l) && c != '\n' && c != '\r'
    ensures Proper(more) && TextOf(more) == [c] + TextOf(l)
  {
    var line := if l.End? then l.last else l.line;
    assert ProperLine(line);
    var longer := SplitInk([c] + LineText(line));
    more := if l.End? then End(longer) else l.(line := longer);
    if l.Then? {
      assert LineText(longer) + (BreakText(l.ended) + TextOf(l.rest))
          == [c] + (LineText(line) + (BreakText(l.ended) + TextOf(l.rest)));
    }
  }

  lemma BreakFirst(b: Break, rest: Layout)
    requires Proper(rest) && (b == CR ==> TextOf(rest) == "" || TextOf(rest)[0] != '\n')
    ensures Proper(Then(Line("", ""), b, rest)) && TextOf(Then(Line("", ""), b, rest)) == BreakText(b) + TextOf(rest)
  {
    assert LineText(Line("", "")) == "";
    assert "" + (BreakText(b) + TextOf(rest)) == BreakText(b) + TextOf(rest);
  }

  /** The break a text begins with. */
  lemma CutBreak(text: string) returns (b: Break, rest: string)
    requires text != "" && (text[0] == '\n' || text[0] == '\r')
    ensures text == BreakText(b) + rest && (b == CR ==> rest == "" || rest[0] != '\n')
  {
    if text[0] == '\n' {
      b, rest := LF, text[1..];
    } else if |text| > 1 && text[1] == '\n' {
      b, rest := CRLF, text[2..];
    } else {
      b, rest := CR, text[1..];
    }
  }

  /** Every text has such a layout. */
  lemma {:induction false} EveryTextIsLaidOut(text: string) returns (l: Layout)
    ensures Proper(l) && TextOf(l) == text
    decreases |text|
  {
    if text == [] {
      l := End(Line("", ""));
    } else if text[0] == '\n' || text[0] == '\r' {
      var b, tail := CutBreak(text);
      var rest := EveryTextIsLaidOut(tail);
      BreakFirst(b, rest);
      l := Then(Line("", ""), b, rest);
    } else {
      var rest := EveryTextIsLaidOut(text[1..]);
      l := AddToLine(text[0], rest);
      assert text == [text[0]] + text[1..];
    }
  }

  // ---------------------------------------------------------------- the writer

  datatype Chomping = Clip | NoBreak

  /** `explicit` is the indentation indicator 2. */
  datatype Block = Block(explicit: bool, chomping: Chomping, lines: seq<string>)

  function Spaces(n: nat): string { seq(n, i => ' ') }

  function BodyOf(text: string): seq<string> {
    var lines := Split(text);
    if lines[|lines| - 1] == "" then lines[..|lines| - 1] else lines
  }

  function Padded(body: seq<string>, pad: string): seq<string> {
    seq(|body|, i requires 0 <= i < |body| => if body[i] != "" then pad + body[i] else "")
  }

  /** `_block`: a first line that begins with a space makes the indicator explicit. */
  function WriteBlock(text: string, indent: nat): Block {
    var lines, body := Split(text), BodyOf(text);
    Block(body != [] && body[0] != "" && body[0][0] == ' ',
          if lines[|lines| - 1] == "" then Clip else NoBreak,
          Padded(body, Spaces(indent + 2)))
  }

  // ---------------------------------------------------------------- the reader

  function LeadingSpaces(line: string): (n: nat)
    ensures n <= |line|
  {
    if line != [] && line[0] == ' ' then 1 + LeadingSpaces(line[1..]) else 0
  }

  predicate OnlySpaces(line: string) { LeadingSpaces(line) == |line| }

  function Widest(lines: seq<string>): nat {
    if lines == [] then 0
    else
      var rest := Widest(lines[1..]);
      if |lines[0]| > rest then |lines[0]| else rest
  }

  /** With no indicator, the first line that is not only spaces gives the content's
      indentation; with none, the longest line does. */
  function Detect(lines: seq<string>): nat {
    if lines == [] then 0
    else if !OnlySpaces(lines[0]) then LeadingSpaces(lines[0])
    else if forall i | 0 <= i < |lines| :: OnlySpaces(lines[i]) then Widest(lines)
    else Detect(lines[1..])
  }

  /** A line at this indentation; None is a line that ends or breaks the block. */
  function Undent(line: string, m: nat): Option<string> {
    if OnlySpaces(line) && |line| <= m then Some("")
    else if LeadingSpaces(line) < m then None
    else Some(line[m..])
  }

  function UndentAll(lines: seq<string>, m: nat): Option<seq<string>> {
    if lines == [] then Some([])
    else
      var first, rest := Undent(lines[0], m), UndentAll(lines[1..], m);
      if first.Some? && rest.Some? then Some([first.value] + rest.value) else None
  }

  predicate Blank(lines: seq<string>) {
    forall i | 0 <= i < |lines| :: OnlySpaces(lines[i])
  }

  function ReadAt(block: Block, m: nat): Option<string> {
    match UndentAll(block.lines, m)
    case None => None
    case Some(content) => Some(Chomp(DropBlankTail(content), block.chomping))
  }

  function Chomp(kept: seq<string>, chomping: Chomping): string {
    if kept == [] then "" else if chomping == Clip then Join(kept) + "\n" else Join(kept)
  }

  function ContentIndent(block: Block, parent: nat): nat {
    if block.explicit then parent + 2 else Detect(block.lines)
  }

  /** `parent` is the indentation of the mapping or sequence that holds the block;
      content that is not deeper does not belong to it. */
  function ReadIndented(block: Block, parent: nat): Option<string> {
    var m := ContentIndent(block, parent);
    if m <= parent && !Blank(block.lines) then None else ReadAt(block, m)
  }

  predicate Holds(content: char -> bool, line: string) {
    forall k | 0 <= k < |line| :: content(line[k])
  }

  predicate LinesHold(content: char -> bool, lines: seq<string>) {
    forall i | 0 <= i < |lines| :: Holds(content, lines[i])
  }

  /** What may stand in a line by section 5.4 of YAML 1.2.2: printable, not a break, no
      byte order mark. */
  predicate Yaml12(c: char) {
    var n := c as int;
    || n == 0x09 || 0x20 <= n <= 0x7E || n == 0x85 || 0xA0 <= n <= 0xD7FF
    || (0xE000 <= n <= 0xFFFD && n != 0xFEFF) || 0x10000 <= n
  }

  /** And by sections 5.1 and 5.4 of YAML 1.1, which the ingest's loader follows: the
      next-line, line-separator and paragraph-separator characters break a line. */
  predicate Yaml11(c: char) {
    var n := c as int;
    || n == 0x09 || 0x20 <= n <= 0x7E || (0xA0 <= n <= 0xD7FF && n != 0x2028 && n != 0x2029)
    || 0xE000 <= n <= 0xFFFD || 0x10000 <= n
  }

  /** A block with any other character in a line is not read: the reader refuses the
      stream, or breaks the line there and finds a rest that was never indented. */
  function ReadBlock(content: char -> bool, block: Block, parent: nat): Option<string> {
    if LinesHold(content, block.lines) then ReadIndented(block, parent) else None
  }

  // ---------------------------------------------------------------- what the reader does with any block

  lemma {:induction false} DetectsFirstInk(lines: seq<string>, i: nat)
    requires i < |lines| && !OnlySpaces(lines[i]) && forall j | 0 <= j < i :: OnlySpaces(lines[j])
    ensures Detect(lines) == LeadingSpaces(lines[i])
  {
    if i > 0 {
      assert lines[1..][i - 1] == lines[i];
      DetectsFirstInk(lines[1..], i - 1);
    }
  }

  /** Without an indicator a block whose first line of ink is no deeper than its parent
      is not read: that line does not belong to it. */
  lemma ShallowIsNotRead(block: Block, parent: nat, i: nat)
    requires !block.explicit && i < |block.lines|
    requires !OnlySpaces(block.lines[i]) && forall j | 0 <= j < i :: OnlySpaces(block.lines[j])
    requires LeadingSpaces(block.lines[i]) <= parent
    ensures ReadIndented(block, parent) == None
  {
    DetectsFirstInk(block.lines, i);
  }

  lemma {:induction false} WidestHolds(lines: seq<string>, i: nat)
    requires i < |lines|
    ensures |lines[i]| <= Widest(lines)
  {
    if i > 0 {
      WidestHolds(lines[1..], i - 1);
    }
  }

  lemma {:induction false} UndentsToNothing(lines: seq<string>, m: nat)
    requires forall i | 0 <= i < |lines| :: OnlySpaces(lines[i]) && |lines[i]| <= m
    ensures UndentAll(lines, m).Some? && DropBlankTail(UndentAll(lines, m).value) == []
  {
    if lines != [] {
      UndentsToNothing(lines[1..], m);
      var rest := UndentAll(lines[1..], m).value;
      DropBlankTailCons("", rest);
    }
  }

  lemma {:induction false} DropBlankTailCons(line: string, rest: seq<string>)
    requires line == "" && DropBlankTail(rest) == []
    ensures DropBlankTail([line] + rest) == []
  {
    var all := [line] + rest;
    if rest != [] {
      assert all[..|all| - 1] == [line] + rest[..|rest| - 1];
      DropBlankTailCons(line, rest[..|rest| - 1]);
    }
  }

  /** Without an indicator a block of blank lines, however wide, reads as the empty text. */
  lemma BlankReadsEmpty(block: Block, parent: nat)
    requires !block.explicit && forall i | 0 <= i < |block.lines| :: OnlySpaces(block.lines[i])
    ensures ReadIndented(block, parent) == Some("")
  {
    forall i | 0 <= i < |block.lines| ensures |block.lines[i]| <= Detect(block.lines) {
      WidestHolds(block.lines, i);
    }
    UndentsToNothing(block.lines, Detect(block.lines));
  }

  /** The two standards differ in the next-line, line-separator and paragraph-separator
      characters, and in the byte order mark. */
  lemma StandardsDiffer(c: char)
    ensures Yaml11(c) <==> (Yaml12(c) && c as int !in {0x85, 0x2028, 0x2029}) || c as int == 0xFEFF
  {
  }

  /** What may not stand in a line: control characters but the tab and the next line,
      the byte order mark and the two characters that are none. */
  lemma NotInALine(c: char)
    ensures !Yaml12(c) <==>
      var n := c as int;
      (n < 32 && c != '\t') || (127 <= n < 160 && n != 133) || n in {0xFEFF, 0xFFFE, 0xFFFF}
  {
  }

  // ---------------------------------------------------------------- reading back

  lemma {:induction false} PadLeads(n: nat, line: string)
    ensures LeadingSpaces(Spaces(n) + line) == n + LeadingSpaces(line)
  {
    if n == 0 {
      assert Spaces(0) + line == line;
    } else {
      PadLeads(n - 1, line);
      assert (Spaces(n) + line)[1..] == Spaces(n - 1) + line;
    }
  }

  lemma PaddedTail(body: seq<string>, pad: string)
    requires body != []
    ensures Padded(body, pad)[1..] == Padded(body[1..], pad)
  {
  }

  /** At its own indentation every line comes back. */
  lemma {:induction false} UndentPadded(body: seq<string>, n: nat)
    ensures UndentAll(Padded(body, Spaces(n)), n) == Some(body)
  {
    if body != [] {
      UndentPadded(body[1..], n);
      PaddedTail(body, Spaces(n));
      PadLeads(n, body[0]);
      assert body[0] != "" ==> (Spaces(n) + body[0])[n..] == body[0];
      assert [body[0]] + body[1..] == body;
    }
  }

  lemma TextOfBody(text: string)
    requires BodyOf(text) != []
    ensures text == if WriteBlock(text, 0).chomping == Clip then Join(BodyOf(text)) + "\n" else Join(BodyOf(text))
  {
    var lines, body := Split(text), BodyOf(text);
    JoinSplit(text);
    if lines[|lines| - 1] == "" {
      assert lines == body + [""];
      JoinThenBreak(body);
    }
  }

  lemma ReadsAtOwnIndent(text: string, indent: nat)
    requires BodyOf(text) != [] && BodyOf(text)[|BodyOf(text)| - 1] != ""
    ensures ReadAt(WriteBlock(text, indent), indent + 2) == Some(text)
  {
    UndentPadded(BodyOf(text), indent + 2);
    TextOfBody(text);
  }

  lemma DetectFirst(body: seq<string>, n: nat)
    requires body != [] && body[0] != "" && body[0][0] != ' '
    ensures Detect(Padded(body, Spaces(n))) == n
  {
    PadLeads(n, body[0]);
    assert Padded(body, Spaces(n))[0] == Spaces(n) + body[0];
  }

  lemma SpacesHold(content: char -> bool, n: nat, line: string)
    requires content(' ')
    ensures Holds(content, Spaces(n) + line) <==> Holds(content, line)
  {
    var padded := Spaces(n) + line;
    if Holds(content, padded) {
      forall k | 0 <= k < |line| ensures content(line[k]) {
        assert padded[n + k] == line[k];
      }
    }
  }

  /** Padding adds no character a reader could refuse. */
  lemma PaddedHolds(content: char -> bool, body: seq<string>, n: nat)
    requires content(' ')
    ensures LinesHold(content, Padded(body, Spaces(n))) <==> LinesHold(content, body)
  {
    var padded := Padded(body, Spaces(n));
    forall i | 0 <= i < |body| ensures Holds(content, padded[i]) <==> Holds(content, body[i]) {
      SpacesHold(content, n, body[i]);
    }
  }

  /** For every reader: any text of characters it lets stand in a line, whose first line
      is not empty and that ends in at most one line break, comes back from its block
      unchanged, at any indentation. */
  lemma BlockRoundTrip(content: char -> bool, text: string, indent: nat)
    requires content(' ') && LinesHold(content, BodyOf(text))
    requires BodyOf(text) != [] && BodyOf(text)[0] != "" && BodyOf(text)[|BodyOf(text)| - 1] != ""
    ensures ReadBlock(content, WriteBlock(text, indent), indent) == Some(text)
  {
    PaddedHolds(content, BodyOf(text), indent + 2);
    IndentedRoundTrip(text, indent);
  }

  lemma IndentedRoundTrip(text: string, indent: nat)
    requires BodyOf(text) != [] && BodyOf(text)[0] != "" && BodyOf(text)[|BodyOf(text)| - 1] != ""
    ensures ReadIndented(WriteBlock(text, indent), indent) == Some(text)
  {
    var body, block := BodyOf(text), WriteBlock(text, indent);
    ReadsAtOwnIndent(text, indent);
    if !block.explicit {
      DetectFirst(body, indent + 2);
    }
  }

  // ---------------------------------------------------------------- normalised text

  function FirstInked(lines: seq<string>): string {
    if lines == [] then "" else if lines[0] != "" then lines[0] else FirstInked(lines[1..])
  }

  /** The indentation a reader finds in the block is the block's own. */
  predicate Faithful(lines: seq<string>) {
    lines != [] ==> lines[0] != "" || LeadingSpaces(FirstInked(lines)) == 0
  }

  lemma {:induction false} StrippedHasInk(line: string)
    requires RStrip(line) == line && line != ""
    ensures !OnlySpaces(line)
    ensures LeadingSpaces(line) < |line|
  {
    if line[0] == ' ' {
      assert |line| > 1;
      RStripTail(line);
      StrippedHasInk(line[1..]);
    }
  }

  lemma RStripTail(line: string)
    requires RStrip(line) == line && |line| > 1
    ensures RStrip(line[1..]) == line[1..]
  {
    assert line[1..][|line| - 2] == line[|line| - 1];
  }

  ghost predicate Inked(lines: seq<string>) {
    lines != [] && lines[|lines| - 1] != "" && forall i | 0 <= i < |lines| :: RStrip(lines[i]) == lines[i]
  }

  lemma {:induction false} DetectPadded(lines: seq<string>, n: nat)
    requires Inked(lines)
    ensures Detect(Padded(lines, Spaces(n))) == n + LeadingSpaces(FirstInked(lines))
    ensures FirstInked(lines) != "" && RStrip(FirstInked(lines)) == FirstInked(lines)
  {
    var padded := Padded(lines, Spaces(n));
    if lines[0] != "" {
      StrippedHasInk(lines[0]);
      PadLeads(n, lines[0]);
    } else {
      var last := |lines| - 1;
      StrippedHasInk(lines[last]);
      PadLeads(n, lines[last]);
      assert !OnlySpaces(padded[last]);
      PaddedTail(lines, Spaces(n));
      DetectPadded(lines[1..], n);
    }
  }

  /** Read deeper than it was written, a block loses its first ink's indentation. */
  lemma {:induction false} DeeperDiffers(lines: seq<string>, n: nat, m: nat)
    requires Inked(lines) && m == n + LeadingSpaces(FirstInked(lines)) && m > n
    requires UndentAll(Padded(lines, Spaces(n)), m).Some?
    ensures UndentAll(Padded(lines, Spaces(n)), m).value != lines
  {
    PaddedTail(lines, Spaces(n));
    if lines[0] != "" {
      PadLeads(n, lines[0]);
      StrippedHasInk(lines[0]);
    } else {
      DeeperDiffers(lines[1..], n, m);
    }
  }

  lemma UndentLine(line: string, n: nat, m: nat)
    requires RStrip(line) == line && '\n' !in line && line != "" && n <= m
    requires Undent(Spaces(n) + line, m).Some?
    ensures var content := Undent(Spaces(n) + line, m).value; content != "" && '\n' !in content
  {
    PadLeads(n, line);
    StrippedHasInk(line);
    assert '\n' !in Spaces(n);
  }

  lemma {:induction false} UndentAt(lines: seq<string>, m: nat, i: nat)
    requires UndentAll(lines, m).Some? && i < |lines|
    ensures |UndentAll(lines, m).value| == |lines| && Undent(lines[i], m) == Some(UndentAll(lines, m).value[i])
  {
    if i > 0 {
      UndentAt(lines[1..], m, i - 1);
    } else if |lines| > 1 {
      UndentAt(lines[1..], m, 0);
    }
  }

  lemma UndentKeepsInk(lines: seq<string>, n: nat, m: nat)
    requires Inked(lines) && Unbroken(lines) && n <= m
    requires UndentAll(Padded(lines, Spaces(n)), m).Some?
    ensures var content := UndentAll(Padded(lines, Spaces(n)), m).value;
            |content| == |lines| && content[|content| - 1] != "" && Unbroken(content)
  {
    var padded := Padded(lines, Spaces(n));
    var content := UndentAll(padded, m).value;
    forall i | 0 <= i < |lines|
      ensures |content| == |lines| && '\n' !in content[i] && (lines[i] != "" ==> content[i] != "")
    {
      UndentAt(padded, m, i);
      if lines[i] != "" {
        UndentLine(lines[i], n, m);
      }
    }
  }

  lemma SectionBody(lines: seq<string>)
    requires Normal(lines) && lines != []
    ensures Split(Join(lines) + "\n") == lines + [""] && BodyOf(Join(lines) + "\n") == lines
  {
    JoinThenBreak(lines);
    SplitJoin(lines + [""]);
  }

  lemma SameTextSameLines(a: seq<string>, b: seq<string>)
    requires a != [] && b != [] && Unbroken(a) && Unbroken(b)
    ensures Join(a) + "\n" == Join(b) + "\n" ==> a == b
  {
    JoinThenBreak(a);
    JoinThenBreak(b);
    SplitJoin(a + [""]);
    SplitJoin(b + [""]);
    assert (a + [""])[..|a|] == a && (b + [""])[..|b|] == b;
  }

  lemma ReadsDeeperDiffers(text: string, lines: seq<string>, indent: nat, m: nat)
    requires text == Join(lines) + "\n" && BodyOf(text) == lines && Normal(lines) && Inked(lines)
    requires m == indent + 2 + LeadingSpaces(FirstInked(lines)) && m > indent + 2
    ensures ReadAt(WriteBlock(text, indent), m) != Some(text)
  {
    SectionBody(lines);
    var got := UndentAll(Padded(lines, Spaces(indent + 2)), m);
    if got.Some? {
      DeeperDiffers(lines, indent + 2, m);
      UndentKeepsInk(lines, indent + 2, m);
      SameTextSameLines(got.value, lines);
    }
  }

  function InkIndent(text: string, indent: nat): nat {
    indent + 2 + LeadingSpaces(FirstInked(BodyOf(text)))
  }

  /** Below an empty first line the reader goes by the first ink. */
  lemma ReadsAtInk(text: string, indent: nat)
    requires Inked(BodyOf(text)) && BodyOf(text)[0] == ""
    ensures ReadIndented(WriteBlock(text, indent), indent) == ReadAt(WriteBlock(text, indent), InkIndent(text, indent))
  {
    DetectPadded(BodyOf(text), indent + 2);
  }

  lemma ReadsAtShallowInk(text: string, indent: nat)
    requires Inked(BodyOf(text)) && LeadingSpaces(FirstInked(BodyOf(text))) == 0
    ensures ReadAt(WriteBlock(text, indent), InkIndent(text, indent)) == Some(text)
  {
    ReadsAtOwnIndent(text, indent);
  }

  /** For every reader: a normalised section comes back from its block exactly when it
      holds only characters the reader lets stand in a line, and its first line is not
      empty or its first inked line is not indented: the writer marks an indented first
      line only when it is the very first. */
  lemma SectionRoundTripIff(content: char -> bool, text: string, indent: nat)
    requires content(' ') && Normalise(text) != ""
    ensures ReadBlock(content, WriteBlock(Normalise(text), indent), indent) == Some(Normalise(text))
            <==> LinesHold(content, NormalLines(text)) && Faithful(NormalLines(text))
  {
    NormalLinesNormal(text);
    SectionBody(NormalLines(text));
    PaddedHolds(content, NormalLines(text), indent + 2);
    IndentedSectionIff(text, indent);
  }

  lemma IndentedSectionIff(text: string, indent: nat)
    requires Normalise(text) != ""
    ensures ReadIndented(WriteBlock(Normalise(text), indent), indent) == Some(Normalise(text))
            <==> Faithful(NormalLines(text))
  {
    NormalLinesNormal(text);
    var lines := NormalLines(text);
    SectionBody(lines);
    if lines[0] != "" {
      IndentedRoundTrip(Join(lines) + "\n", indent);
    } else {
      ReadsAtInk(Join(lines) + "\n", indent);
      if LeadingSpaces(FirstInked(lines)) > 0 {
        ReadsDeeperDiffers(Join(lines) + "\n", lines, indent, InkIndent(Join(lines) + "\n", indent));
      } else {
        ReadsAtShallowInk(Join(lines) + "\n", indent);
      }
    }
  }
}
