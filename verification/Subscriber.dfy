/** The registry's accounts and the channel's env file (publisher/vexa_subscriber.py). */
module Subscriber {
  import opened Wrappers
  import opened Lines
  import opened Ordering

  datatype Error = NoSeparator | EmptyPart | Duplicate | BadName | NoAccount | NeedsForce | NoKey | DuplicateKey

  function IndexOf(s: string, c: char): (i: nat)
    requires c in s
    ensures i < |s| && s[i] == c && c !in s[..i]
  {
    if s[0] == c then 0 else 1 + IndexOf(s[1..], c)
  }

  lemma {:induction false} IndexOfUnique(s: string, c: char, k: nat)
    requires k < |s| && s[k] == c && c !in s[..k]
    ensures IndexOf(s, c) == k
  {
    if k > 0 {
      assert s[0] == s[..k][0];
      assert s[1..][..k - 1] == s[..k][1..];
      IndexOfUnique(s[1..], c, k - 1);
    }
  }

  // ---------------------------------------------------------------- htpasswd

  /** A stripped part that a line can carry. */
  predicate Part(s: string) { s != "" && Stripped(s) && '\n' !in s }

  predicate CleanUser(s: string) { Part(s) && ':' !in s && s[0] != '#' }

  ghost predicate CleanAccounts(accounts: map<string, string>) {
    forall user | user in accounts :: CleanUser(user) && Part(accounts[user])
  }

  datatype Parsed = Skip | Account(user: string, digest: string) | Bad(error: Error)

  /** `line` cut at its `i`-th character, a colon. */
  function CutLine(line: string, i: nat): Parsed
    requires i < |line|
  {
    var user, digest := Strip(line[..i]), Strip(line[i + 1..]);
    if user == "" || digest == "" then Bad(EmptyPart) else Account(user, digest)
  }

  function ParseLine(raw: string): Parsed {
    var line := Strip(raw);
    if line == "" || line[0] == '#' then Skip
    else if ':' !in line then Bad(NoSeparator)
    else CutLine(line, IndexOf(line, ':'))
  }

  lemma IndexSplits(line: string, before: string, after: string)
    requires line == before + ":" + after && ':' !in before
    ensures ':' in line && IndexOf(line, ':') == |before|
    ensures line[..|before|] == before && line[|before| + 1..] == after
  {
    assert line[|before|] == ':' && line[..|before|] == before;
    IndexOfUnique(line, ':', |before|);
  }

  /** A line of `user : digest` is an account; without either part, or without a colon, it
      is refused; a blank one or a comment says nothing. */
  lemma ParseLineReads(raw: string, before: string, after: string)
    requires ':' !in before
    ensures Strip(raw) == "" || Strip(raw)[0] == '#' <==> ParseLine(raw) == Skip
    ensures Strip(raw) != "" && Strip(raw)[0] != '#' && ':' !in Strip(raw) <==> ParseLine(raw) == Bad(NoSeparator)
    ensures Strip(raw) == before + ":" + after && Strip(raw)[0] != '#' ==>
      ParseLine(raw) == if Strip(before) == "" || Strip(after) == "" then Bad(EmptyPart)
                        else Account(Strip(before), Strip(after))
  {
    if Strip(raw) == before + ":" + after {
      IndexSplits(Strip(raw), before, after);
    }
  }

  function Take(accounts: map<string, string>, parsed: Parsed): Result<map<string, string>, Error> {
    match parsed
    case Skip => Ok(accounts)
    case Bad(e) => Err(e)
    case Account(user, digest) =>
      if user in accounts then Err(Duplicate) else Ok(accounts[user := digest])
  }

  function ParseLines(lines: seq<string>): Result<map<string, string>, Error> {
    if lines == [] then Ok(map[])
    else
      var front := ParseLines(lines[..|lines| - 1]);
      if front.Err? then front else Take(front.value, ParseLine(lines[|lines| - 1]))
  }

  lemma ParseSnoc(lines: seq<string>, line: string)
    requires ParseLines(lines).Ok?
    ensures ParseLines(lines + [line]) == Take(ParseLines(lines).value, ParseLine(line))
  {
    assert (lines + [line])[..|lines|] == lines;
  }

  // What a file that parses holds, and when a file parses, from its lines alone.

  function TakeAll(parsed: seq<Parsed>): Result<map<string, string>, Error> {
    if parsed == [] then Ok(map[])
    else
      var front := TakeAll(parsed[..|parsed| - 1]);
      if front.Err? then front else Take(front.value, parsed[|parsed| - 1])
  }

  lemma {:induction false} ParseIsTakeAll(lines: seq<string>)
    ensures ParseLines(lines) == TakeAll(Map(ParseLine, lines))
  {
    if lines != [] {
      var front := lines[..|lines| - 1];
      ParseIsTakeAll(front);
      assert Map(ParseLine, lines)[..|front|] == Map(ParseLine, front);
    }
  }

  predicate Names(parsed: Parsed, user: string) { parsed.Account? && parsed.user == user }

  lemma {:induction false} TakenUsers(parsed: seq<Parsed>, user: string)
    requires TakeAll(parsed).Ok?
    ensures user in TakeAll(parsed).value <==> exists i :: 0 <= i < |parsed| && Names(parsed[i], user)
    ensures forall i | 0 <= i < |parsed| && Names(parsed[i], user) :: TakeAll(parsed).value[user] == parsed[i].digest
  {
    if parsed != [] {
      var n := |parsed| - 1;
      TakenUsers(parsed[..n], user);
      assert forall i | 0 <= i < n :: parsed[..n][i] == parsed[i];
    }
  }

  /** Every line is blank, a comment or an account, and no account is named twice. */
  ghost predicate WellFormed(parsed: seq<Parsed>) {
    && (forall i | 0 <= i < |parsed| :: !parsed[i].Bad?)
    && (forall i, j | 0 <= i < j < |parsed| && parsed[j].Account? :: !Names(parsed[i], parsed[j].user))
  }

  lemma {:induction false} TakeAllIff(parsed: seq<Parsed>)
    ensures TakeAll(parsed).Ok? <==> WellFormed(parsed)
  {
    if parsed != [] {
      var n := |parsed| - 1;
      var front, last := parsed[..n], parsed[n];
      TakeAllIff(front);
      assert forall i | 0 <= i < n :: front[i] == parsed[i];
      if TakeAll(front).Ok? && last.Account? {
        TakenUsers(front, last.user);
      }
    }
  }

  /** A file is refused exactly for a malformed line or a repeated user; otherwise it yields exactly its accounts. */
  lemma ParseAnswers(text: string, user: string)
    ensures var parsed := Map(ParseLine, Split(text));
      && (ParseHtpasswd(text).Ok? <==> WellFormed(parsed))
      && (ParseHtpasswd(text).Ok? ==>
            && (user in ParseHtpasswd(text).value <==> exists i :: 0 <= i < |parsed| && Names(parsed[i], user))
            && forall i | 0 <= i < |parsed| && Names(parsed[i], user) ::
                 ParseHtpasswd(text).value[user] == parsed[i].digest)
  {
    var parsed := Map(ParseLine, Split(text));
    ParseIsTakeAll(Split(text));
    TakeAllIff(parsed);
    if TakeAll(parsed).Ok? {
      TakenUsers(parsed, user);
    }
  }

  function ParseHtpasswd(text: string): Result<map<string, string>, Error> {
    ParseLines(Split(text))
  }

  lemma {:induction false} ErrorStays(lines: seq<string>, n: nat)
    requires n <= |lines| && ParseLines(lines[..n]).Err?
    ensures ParseLines(lines) == ParseLines(lines[..n])
  {
    if n < |lines| {
      assert lines[..|lines| - 1][..n] == lines[..n];
      ErrorStays(lines[..|lines| - 1], n);
    } else {
      assert lines[..n] == lines;
    }
  }

  lemma ParseNext(lines: seq<string>, n: nat)
    requires n < |lines| && ParseLines(lines[..n]).Ok?
    ensures ParseLines(lines[..n + 1]) == Take(ParseLines(lines[..n]).value, ParseLine(lines[n]))
  {
    var s := lines[..n + 1];
    assert s[..|s| - 1] == lines[..n];
    assert s[|s| - 1] == lines[n];
  }

  method ReadHtpasswd(text: string) returns (r: Result<map<string, string>, Error>)
    ensures r == ParseHtpasswd(text)
  {
    var lines, accounts := Split(text), map[];
    for n := 0 to |lines|
      invariant ParseLines(lines[..n]) == Ok(accounts)
    {
      ParseNext(lines, n);
      var parsed := ParseLine(lines[n]);
      if parsed.Bad? {
        ErrorStays(lines, n + 1);
        return Err(parsed.error);
      } else if parsed.Account? {
        if parsed.user in accounts {
          ErrorStays(lines, n + 1);
          return Err(Duplicate);
        }
        accounts := accounts[parsed.user := parsed.digest];
      }
    }
    assert lines[..|lines|] == lines;
    return Ok(accounts);
  }

  ghost predicate IsGreatest(s: set<string>, g: string) {
    g in s && forall x | x in s :: LexLeq(x, g)
  }

  lemma GreaterOf(rest: set<string>, h: string, y: string) returns (g: string)
    requires IsGreatest(rest, h)
    ensures IsGreatest(rest + {y}, g)
  {
    LexTotal(h, y);
    LexTotal(y, y);
    g := if LexLeq(y, h) then h else y;
    forall x | x in rest + {y} ensures LexLeq(x, g) {
      if x != y && g == y {
        LexTransitive(x, h, y);
      }
    }
  }

  lemma {:induction false} GreatestExists(s: set<string>)
    requires s != {}
    ensures exists g :: IsGreatest(s, g)
  {
    var y :| y in s;
    var rest := s - {y};
    assert s == rest + {y};
    if rest == {} {
      LexTotal(y, y);
      assert IsGreatest(s, y);
    } else {
      GreatestExists(rest);
      var h :| IsGreatest(rest, h);
      var g := GreaterOf(rest, h, y);
    }
  }

  function Greatest(s: set<string>): (g: string)
    requires s != {}
    ensures g in s && forall x | x in s :: LexLeq(x, g)
  {
    GreatestExists(s);
    LexOrder();
    assert exists g :: g in s && forall x | x in s :: LexLeq(x, g) by {
      var g :| IsGreatest(s, g);
    }
    var g :| g in s && forall x | x in s :: LexLeq(x, g);
    g
  }

  /** `sorted` of the keys of a mapping. */
  function SortedUsers(users: set<string>): (r: seq<string>)
    ensures forall x :: x in r <==> x in users
  {
    if users == {} then []
    else var g := Greatest(users); SortedUsers(users - {g}) + [g]
  }

  lemma {:induction false} SortedUsersIsSorted(users: set<string>)
    ensures Sorted(SortedUsers(users), LexLeq) && NoDuplicates(SortedUsers(users))
  {
    if users != {} {
      SortedUsersIsSorted(users - {Greatest(users)});
    }
  }

  function EntryLine(user: string, digest: string): string { user + ":" + digest }

  function EntryLines(accounts: map<string, string>): seq<string>
    decreases accounts.Keys
  {
    if accounts == map[] then []
    else
      var g := Greatest(accounts.Keys);
      EntryLines(accounts - {g}) + [EntryLine(g, accounts[g])]
  }

  /** One line for each account, sorted by user, each ended by a line break. */
  function RenderHtpasswd(accounts: map<string, string>): string {
    if accounts == map[] then "" else Join(EntryLines(accounts)) + "\n"
  }

  lemma {:induction false} LinesAreSorted(accounts: map<string, string>)
    ensures |EntryLines(accounts)| == |SortedUsers(accounts.Keys)|
    ensures forall i | 0 <= i < |EntryLines(accounts)| ::
      var user := SortedUsers(accounts.Keys)[i];
      user in accounts && EntryLines(accounts)[i] == EntryLine(user, accounts[user])
    decreases accounts.Keys
  {
    if accounts != map[] {
      var g := Greatest(accounts.Keys);
      LinesAreSorted(accounts - {g});
      assert (accounts - {g}).Keys == accounts.Keys - {g};
    }
  }

  lemma FirstStays(s: string)
    requires s != [] && !IsSpace(s[0])
    ensures Strip(s) != [] && Strip(s)[0] == s[0]
  {
    assert LStrip(s) == s;
    RStripNonempty(s);
  }

  lemma {:induction false} RStripNonempty(s: string)
    requires s != [] && !IsSpace(s[0])
    ensures RStrip(s) != []
  {
    if IsSpace(s[|s| - 1]) {
      RStripNonempty(s[..|s| - 1]);
    }
  }

  lemma ParseLineClean(raw: string)
    requires '\n' !in raw && ParseLine(raw).Account?
    ensures CleanUser(ParseLine(raw).user) && Part(ParseLine(raw).digest)
  {
    var line := Strip(raw);
    var i := IndexOf(line, ':');
    var user, digest := Strip(line[..i]), Strip(line[i + 1..]);
    if '\n' in user { StripChars(line[..i], '\n'); StripChars(raw, '\n'); }
    if ':' in user { StripChars(line[..i], ':'); }
    if '\n' in digest { StripChars(line[i + 1..], '\n'); StripChars(raw, '\n'); }
    if i > 0 {
      FirstStays(line[..i]);
    }
  }

  lemma {:induction false} ParsedClean(lines: seq<string>)
    requires Unbroken(lines) && ParseLines(lines).Ok?
    ensures CleanAccounts(ParseLines(lines).value)
  {
    if lines != [] {
      ParsedClean(lines[..|lines| - 1]);
      var last := lines[|lines| - 1];
      if ParseLine(last).Account? {
        ParseLineClean(last);
      }
    }
  }

  lemma EntryLineStripped(user: string, digest: string)
    requires CleanUser(user) && Part(digest)
    ensures Strip(EntryLine(user, digest)) == EntryLine(user, digest)
  {
    var line := EntryLine(user, digest);
    assert line[0] == user[0];
    assert line[|line| - 1] == digest[|digest| - 1];
    StripIdentity(line);
  }

  lemma EntryLineCut(user: string, digest: string)
    requires CleanUser(user) && Part(digest)
    ensures CutLine(EntryLine(user, digest), |user|) == Account(user, digest)
  {
    var line := EntryLine(user, digest);
    assert line[..|user|] == user;
    assert line[|user| + 1..] == digest;
    StripIdentity(user);
    StripIdentity(digest);
  }

  lemma EntryLineColon(user: string, digest: string)
    requires CleanUser(user) && Part(digest)
    ensures ':' in EntryLine(user, digest) && IndexOf(EntryLine(user, digest), ':') == |user|
  {
    var line := EntryLine(user, digest);
    assert line[..|user|] == user && line[|user|] == ':';
    IndexOfUnique(line, ':', |user|);
  }

  lemma EntryLineUnbroken(user: string, digest: string)
    requires CleanUser(user) && Part(digest)
    ensures '\n' !in EntryLine(user, digest)
  {
  }

  lemma ParseEntryLine(user: string, digest: string)
    requires CleanUser(user) && Part(digest)
    ensures ParseLine(EntryLine(user, digest)) == Account(user, digest)
  {
    var line := EntryLine(user, digest);
    assert line != "" && line[0] == user[0];
    EntryLineStripped(user, digest);
    EntryLineCut(user, digest);
    EntryLineColon(user, digest);
  }

  lemma {:induction false} EntryLinesUnbroken(accounts: map<string, string>)
    requires CleanAccounts(accounts)
    ensures Unbroken(EntryLines(accounts))
    decreases accounts.Keys
  {
    if accounts != map[] {
      var g := Greatest(accounts.Keys);
      EntryLinesUnbroken(accounts - {g});
      EntryLineUnbroken(g, accounts[g]);
    }
  }

  lemma ParseOneEntry(lines: seq<string>, accounts: map<string, string>, user: string, digest: string)
    requires ParseLines(lines) == Ok(accounts) && user !in accounts
    requires CleanUser(user) && Part(digest)
    ensures ParseLines(lines + [EntryLine(user, digest)]) == Ok(accounts[user := digest])
  {
    ParseEntryLine(user, digest);
    ParseSnoc(lines, EntryLine(user, digest));
  }

  lemma CleanRest(accounts: map<string, string>, user: string)
    requires CleanAccounts(accounts) && user in accounts
    ensures CleanAccounts(accounts - {user}) && CleanUser(user) && Part(accounts[user])
    ensures (accounts - {user})[user := accounts[user]] == accounts
  {
  }

  lemma {:induction false} ParseEntryLines(accounts: map<string, string>)
    requires CleanAccounts(accounts)
    ensures ParseLines(EntryLines(accounts)) == Ok(accounts)
    decreases accounts.Keys
  {
    if accounts == map[] {
    } else {
      var g := Greatest(accounts.Keys);
      var rest := accounts - {g};
      CleanRest(accounts, g);
      ParseEntryLines(rest);
      ParseOneEntry(EntryLines(rest), rest, g, accounts[g]);
    }
  }

  lemma BlankEnd(lines: seq<string>)
    ensures ParseLines(lines + [""]) == ParseLines(lines)
  {
    assert (lines + [""])[..|lines|] == lines;
    assert ParseLine("") == Skip;
  }

  /** Whatever the mapping holds, a reader of the file gets it back. */
  lemma HtpasswdReadsBack(accounts: map<string, string>)
    requires CleanAccounts(accounts)
    ensures ParseHtpasswd(RenderHtpasswd(accounts)) == Ok(accounts)
  {
    if accounts == map[] {
      assert Split("") == [""];
      BlankEnd([]);
    } else {
      var lines := EntryLines(accounts);
      EntryLinesUnbroken(accounts);
      ParseEntryLines(accounts);
      JoinThenBreak(lines);
      SplitJoin(lines + [""]);
      BlankEnd(lines);
    }
  }

  /** Rewriting a file that parses changes neither its accounts nor, a second time, its text. */
  lemma RewriteKeepsAccounts(text: string)
    requires ParseHtpasswd(text).Ok?
    ensures ParseHtpasswd(RenderHtpasswd(ParseHtpasswd(text).value)) == ParseHtpasswd(text)
    ensures CleanAccounts(ParseHtpasswd(text).value)
  {
    SplitUnbroken(text);
    ParsedClean(Split(text));
    HtpasswdReadsBack(ParseHtpasswd(text).value);
  }

  predicate NameChar(c: char) { 'a' <= c <= 'z' || '0' <= c <= '9' || c == '-' }

  predicate ValidName(name: string) {
    && name != ""
    && (forall i | 0 <= i < |name| :: NameChar(name[i]))
    && name[0] != '-' && name[|name| - 1] != '-'
  }

  lemma ValidNameClean(name: string)
    requires ValidName(name)
    ensures CleanUser(name)
  {
    assert NameChar(name[0]) && NameChar(name[|name| - 1]);
  }

  function AddEntry(text: string, name: string, digest: string): Result<string, Error> {
    match ParseHtpasswd(text)
    case Err(e) => Err(e)
    case Ok(accounts) =>
      if !ValidName(name) then Err(BadName) else Ok(RenderHtpasswd(accounts[name := digest]))
  }

  function RemoveEntry(text: string, name: string): Result<string, Error> {
    match ParseHtpasswd(text)
    case Err(e) => Err(e)
    case Ok(accounts) =>
      if !ValidName(name) then Err(BadName)
      else if name !in accounts then Err(NoAccount)
      else Ok(RenderHtpasswd(accounts - {name}))
  }

  predicate GoodName(name: string) {
    && |name| >= 1 && name[0] != '-' && name[|name| - 1] != '-'
    && forall i | 0 <= i < |name| :: 'a' <= name[i] <= 'z' || '0' <= name[i] <= '9' || name[i] == '-'
  }

  /** The file first, then the name; and only a removal asks that the account exist. */
  lemma EditsAnswer(text: string, name: string, digest: string)
    ensures var accounts := ParseHtpasswd(text);
      && (accounts.Err? ==> AddEntry(text, name, digest) == Err(accounts.error) && RemoveEntry(text, name) == Err(accounts.error))
      && (accounts.Ok? ==>
            && (AddEntry(text, name, digest).Ok? <==> GoodName(name))
            && (!GoodName(name) ==> AddEntry(text, name, digest) == Err(BadName) && RemoveEntry(text, name) == Err(BadName))
            && (GoodName(name) && name !in accounts.value <==> RemoveEntry(text, name) == Err(NoAccount))
            && (RemoveEntry(text, name).Ok? <==> GoodName(name) && name in accounts.value))
  {
    assert ValidName(name) <==> GoodName(name) by {
      assert forall c :: NameChar(c) <==> 'a' <= c <= 'z' || '0' <= c <= '9' || c == '-';
    }
  }

  /** Read back, an upsert has set the one account and left every other as it was. */
  lemma AddChangesOne(text: string, name: string, digest: string)
    requires AddEntry(text, name, digest).Ok? && Part(digest)
    ensures ParseHtpasswd(AddEntry(text, name, digest).value) == Ok(ParseHtpasswd(text).value[name := digest])
  {
    RewriteKeepsAccounts(text);
    ValidNameClean(name);
    HtpasswdReadsBack(ParseHtpasswd(text).value[name := digest]);
  }

  lemma RemoveChangesOne(text: string, name: string)
    requires RemoveEntry(text, name).Ok?
    ensures name in ParseHtpasswd(text).value
    ensures ParseHtpasswd(RemoveEntry(text, name).value) == Ok(ParseHtpasswd(text).value - {name})
  {
    RewriteKeepsAccounts(text);
    HtpasswdReadsBack(ParseHtpasswd(text).value - {name});
  }

  /** Removing a freshly added account gives the rewritten file back, to the character. */
  lemma RemoveUndoesAdd(text: string, name: string, digest: string)
    requires AddEntry(text, name, digest).Ok? && Part(digest) && name !in ParseHtpasswd(text).value
    ensures RemoveEntry(AddEntry(text, name, digest).value, name) == Ok(RenderHtpasswd(ParseHtpasswd(text).value))
  {
    AddChangesOne(text, name, digest);
    var accounts := ParseHtpasswd(text).value;
    assert accounts[name := digest] - {name} == accounts;
  }
}
