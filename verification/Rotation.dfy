/** The rotation core of `add` and `revoke` (publisher/vexa_subscriber.py:694-799): two files, one hash. */
module Rotation {
  import opened Wrappers
  import opened Lines
  import opened Subscriber
  import opened EnvFile

  const PUBLISHER_ACCOUNT := "publisher"
  const PUBLISHER_ENV_KEY := "PUBLISHER_BCRYPT"
  const EDGE_READER_ACCOUNT := "edge-signature-reader"
  const EDGE_READER_ENV_KEY := "EDGE_READER_BASIC"

  function EnvChar(c: char): char {
    if 'a' <= c <= 'z' then (c as int - 32) as char else if c == '-' then '_' else c
  }

  function SubEnvKey(name: string): string { "SUB_" + Map(EnvChar, name) + "_BCRYPT" }

  /** The env key that an account's credential lives behind, if the file has it. */
  function CredentialKey(name: string): string {
    if name == PUBLISHER_ACCOUNT then PUBLISHER_ENV_KEY
    else if name == EDGE_READER_ACCOUNT then EDGE_READER_ENV_KEY
    else SubEnvKey(name)
  }

  /** As documented: `pilot` has `SUB_PILOT_BCRYPT`; hyphens become underscores. */
  lemma SubEnvKeyReads(name: string, i: nat)
    requires ValidName(name) && i < |name|
    ensures SubEnvKey(name)[..4] == "SUB_" && |SubEnvKey(name)| == |name| + 11
    ensures SubEnvKey(name)[|name| + 4..] == "_BCRYPT"
    ensures SubEnvKey(name)[i + 4] ==
      (if name[i] == '-' then '_' else if '0' <= name[i] <= '9' then name[i] else (name[i] as int - 32) as char)
  {
    assert NameChar(name[i]);
    assert Map(EnvChar, name)[i] == EnvChar(name[i]);
  }

  lemma SubEnvKeyReadsBack(name: string)
    ensures SubEnvKey(name)[4..4 + |name|] == Map(EnvChar, name) && |SubEnvKey(name)| == |name| + 11
    ensures SubEnvKey(name)[0] == 'S'
  {
  }

  lemma EnvCharsDiffer(a: string, b: string)
    requires ValidName(a) && ValidName(b) && Map(EnvChar, a) == Map(EnvChar, b)
    ensures a == b
  {
    forall i | 0 <= i < |a| ensures a[i] == b[i] {
      assert NameChar(a[i]) && NameChar(b[i]);
      assert Map(EnvChar, a)[i] == EnvChar(a[i]) && Map(EnvChar, b)[i] == EnvChar(b[i]);
    }
  }

  lemma SubEnvKeysDiffer(a: string, b: string)
    requires ValidName(a) && ValidName(b) && SubEnvKey(a) == SubEnvKey(b)
    ensures a == b
  {
    SubEnvKeyReadsBack(a);
    SubEnvKeyReadsBack(b);
    EnvCharsDiffer(a, b);
  }

  /** No two accounts share a key, so no rotation can reach another account's hash. */
  lemma KeysAreApart(a: string, b: string)
    requires ValidName(a) && ValidName(b) && CredentialKey(a) == CredentialKey(b)
    ensures a == b
  {
    SubEnvKeyReadsBack(a);
    SubEnvKeyReadsBack(b);
    assert PUBLISHER_ENV_KEY[0] == 'P' && EDGE_READER_ENV_KEY[0] == 'E';
    if CredentialKey(a) == SubEnvKey(a) && CredentialKey(b) == SubEnvKey(b) {
      SubEnvKeysDiffer(a, b);
    }
  }

  datatype Files = Files(htpasswd: string, env: string)

  /** Whether the credential also lives in the env file. */
  predicate InEnv(env: string, name: string) {
    name == PUBLISHER_ACCOUNT || name == EDGE_READER_ACCOUNT || EnvHasKey(env, SubEnvKey(name))
  }

  function Held(name: string, digest: string, basic: string): string {
    if name == EDGE_READER_ACCOUNT then basic else digest
  }

  function NextEnv(env: string, name: string, digest: string, basic: string): Result<string, Error> {
    if InEnv(env, name) then SetEnvValue(env, CredentialKey(name), ComposeEscape(Held(name, digest, basic)))
    else Ok(env)
  }

  /** What `add` writes: `digest` is the new password's hash, `basic` the edge reader's header value. */
  function Rotate(files: Files, name: string, digest: string, basic: string): Result<Files, Error> {
    if !ValidName(name) then Err(BadName)
    else if !EnvHasKey(files.env, PUBLISHER_ENV_KEY) then Err(NoKey)
    else match AddEntry(files.htpasswd, name, digest)
      case Err(e) => Err(e)
      case Ok(htpasswd) =>
        match NextEnv(files.env, name, digest, basic)
        case Err(e) => Err(e)
        case Ok(env) => Ok(Files(htpasswd, env))
  }

  function Revoke(files: Files, name: string, force: bool): Result<Files, Error> {
    if !ValidName(name) then Err(BadName)
    else if name in {PUBLISHER_ACCOUNT, EDGE_READER_ACCOUNT} && !force then Err(NeedsForce)
    else match RemoveEntry(files.htpasswd, name)
      case Err(e) => Err(e)
      case Ok(htpasswd) => Ok(files.(htpasswd := htpasswd))
  }

  /** The value a service started from the env file sees under `key`. */
  function Seen(env: string, key: string): Option<string> {
    var value := EnvValue(env, key);
    if value.Some? then Interpolate(value.value) else None
  }

  function Accounts(htpasswd: string): map<string, string> {
    var accounts := ParseHtpasswd(htpasswd);
    if accounts.Ok? then accounts.value else map[]
  }

  /** The edge reader's key holds a header; the publisher's and a station subscriber's hold a hash. */
  predicate HashInEnv(env: string, name: string) {
    name != EDGE_READER_ACCOUNT && (name == PUBLISHER_ACCOUNT || EnvHasKey(env, SubEnvKey(name)))
  }

  /** If the account exists and its hash is in the env file, both files hold the same hash. */
  predicate Agree(accounts: map<string, string>, env: string, name: string) {
    name in accounts && ValidName(name) && HashInEnv(env, name)
    ==> Seen(env, CredentialKey(name)) == Some(accounts[name])
  }

  predicate InStep(files: Files, name: string) { Agree(Accounts(files.htpasswd), files.env, name) }

  ghost predicate AllInStep(files: Files) {
    forall name :: InStep(files, name)
  }

  lemma RotateEnv(files: Files, name: string, digest: string, basic: string, key: string)
    requires Rotate(files, name, digest, basic).Ok? && '\n' !in digest && '\n' !in basic
    ensures var env := Rotate(files, name, digest, basic).value.env;
      && EnvKeys(env) == EnvKeys(files.env)
      && Seen(env, key) ==
         if key == CredentialKey(name) && InEnv(files.env, name) then Some(Held(name, digest, basic))
         else Seen(files.env, key)
  {
    var held := Held(name, digest, basic);
    EscapeReadsBack(held);
    EscapeKeepsLine(held);
    if InEnv(files.env, name) {
      SetReadsBack(files.env, CredentialKey(name), ComposeEscape(held), key);
    }
  }

  lemma RotateHtpasswd(files: Files, name: string, digest: string, basic: string)
    requires Rotate(files, name, digest, basic).Ok?
    ensures ValidName(name)
    ensures AddEntry(files.htpasswd, name, digest) == Ok(Rotate(files, name, digest, basic).value.htpasswd)
  {
  }

  /** The registry's accounts change at the one name. */
  lemma RotateAccounts(files: Files, name: string, digest: string, basic: string)
    requires Rotate(files, name, digest, basic).Ok? && Part(digest)
    ensures ValidName(name)
    ensures Accounts(Rotate(files, name, digest, basic).value.htpasswd) == Accounts(files.htpasswd)[name := digest]
  {
    RotateHtpasswd(files, name, digest, basic);
    AddChangesOne(files.htpasswd, name, digest);
  }

  /** A rotation that runs to its end leaves both files with the new hash for its own account, and moves no other. */
  lemma RotationInStep(files: Files, name: string, digest: string, basic: string, other: string)
    requires Rotate(files, name, digest, basic).Ok? && Part(digest) && '\n' !in basic
    ensures var after := Rotate(files, name, digest, basic).value;
      && InStep(after, name)
      && (name == EDGE_READER_ACCOUNT ==> Seen(after.env, EDGE_READER_ENV_KEY) == Some(basic))
      && (other != name ==> (InStep(files, other) <==> InStep(after, other)))
  {
    RotateAccounts(files, name, digest, basic);
    RotateEnv(files, name, digest, basic, CredentialKey(name));
    RotateEnv(files, name, digest, basic, CredentialKey(other));
    var after := Rotate(files, name, digest, basic).value;
    var was := Accounts(files.htpasswd);
    if ValidName(other) && CredentialKey(name) == CredentialKey(other) {
      KeysAreApart(name, other);
    }
    AgreementMoves(was, files.env, after.env, name, digest, other);
  }

  /** New hash under `name`'s key and account, everything else as it was. */
  lemma AgreementMoves(was: map<string, string>, before: string, after: string, name: string, digest: string, other: string)
    requires EnvKeys(after) == EnvKeys(before)
    requires HashInEnv(before, name) ==> Seen(after, CredentialKey(name)) == Some(digest)
    requires ValidName(other) && other != name ==> Seen(after, CredentialKey(other)) == Seen(before, CredentialKey(other))
    ensures Agree(was[name := digest], after, name)
    ensures other != name ==> (Agree(was, before, other) <==> Agree(was[name := digest], after, other))
  {
  }

  lemma SeenAfter(files: Files, name: string, digest: string, basic: string)
    requires Rotate(files, name, digest, basic).Ok? && '\n' !in digest && '\n' !in basic
    ensures var env := Rotate(files, name, digest, basic).value.env;
      if InEnv(files.env, name) then Seen(env, CredentialKey(name)) == Some(Held(name, digest, basic))
      else env == files.env
  {
    RotateEnv(files, name, digest, basic, CredentialKey(name));
  }

  /** What the two fixed accounts and a station subscriber's key show afterwards. */
  lemma RotationWrites(files: Files, name: string, digest: string, basic: string)
    requires Rotate(files, name, digest, basic).Ok? && '\n' !in digest && '\n' !in basic
    ensures var env := Rotate(files, name, digest, basic).value.env;
      if name == "publisher" then Seen(env, "PUBLISHER_BCRYPT") == Some(digest)
      else if name == "edge-signature-reader" then Seen(env, "EDGE_READER_BASIC") == Some(basic)
      else if EnvHasKey(files.env, SubEnvKey(name)) then Seen(env, SubEnvKey(name)) == Some(digest)
      else env == files.env
  {
    SeenAfter(files, name, digest, basic);
  }

  /** Reading the files never complains of a name or asks for force. */
  lemma ParseErrors(text: string)
    ensures ParseHtpasswd(text).Err? ==> ParseHtpasswd(text).error in {NoSeparator, EmptyPart, Duplicate}
  {
    LinesErrors(Split(text));
  }

  lemma {:induction false} LinesErrors(lines: seq<string>)
    ensures ParseLines(lines).Err? ==> ParseLines(lines).error in {NoSeparator, EmptyPart, Duplicate}
  {
    if lines != [] {
      LinesErrors(lines[..|lines| - 1]);
    }
  }

  lemma NotBadName(files: Files, name: string, digest: string, basic: string)
    requires ValidName(name)
    ensures Rotate(files, name, digest, basic) != Err(BadName)
  {
    ParseErrors(files.htpasswd);
  }

  lemma RotationAnswers(files: Files, name: string, digest: string, basic: string)
    ensures var r := Rotate(files, name, digest, basic);
      && (r == Err(BadName) <==> !GoodName(name))
      && (GoodName(name) && !EnvHasKey(files.env, "PUBLISHER_BCRYPT") ==> r == Err(NoKey))
      && (r.Ok? ==> GoodName(name) && EnvHasKey(files.env, "PUBLISHER_BCRYPT") && ParseHtpasswd(files.htpasswd).Ok?)
  {
    RotateParts(files, name, digest, basic);
    EditsAnswer(files.htpasswd, name, digest);
    if ValidName(name) {
      NotBadName(files, name, digest, basic);
    }
  }

  /** The two accounts everything depends on. */
  predicate Guarded(name: string) { name == "publisher" || name == "edge-signature-reader" }

  lemma GuardedAreGood(name: string)
    requires Guarded(name)
    ensures ValidName(name)
  {
  }

  lemma RevokeIs(files: Files, name: string, force: bool)
    ensures var (r, removed) := (Revoke(files, name, force), RemoveEntry(files.htpasswd, name));
      if Guarded(name) && !force then r == Err(NeedsForce)
      else if !ValidName(name) then r == Err(BadName)
      else if removed.Err? then r == Err(removed.error)
      else r == Ok(Files(removed.value, files.env))
  {
    if Guarded(name) {
      GuardedAreGood(name);
    }
  }

  lemma RemovalIsNeverGuarded(text: string, name: string)
    ensures RemoveEntry(text, name) != Err(NeedsForce)
  {
    ParseErrors(text);
  }

  lemma GoodIsValid(text: string, name: string)
    ensures RemoveEntry(text, name).Ok?
            <==> GoodName(name) && ParseHtpasswd(text).Ok? && name in ParseHtpasswd(text).value
    ensures ValidName(name) <==> GoodName(name)
  {
    EditsAnswer(text, name, "");
    NamesAgree(name);
  }

  lemma NamesAgree(name: string)
    ensures ValidName(name) <==> GoodName(name)
  {
    assert forall c :: NameChar(c) <==> 'a' <= c <= 'z' || '0' <= c <= '9' || c == '-';
  }

  /** The guarded accounts go only by force; any other goes exactly when the file
      parses and has it. */
  lemma RevokeAnswers(files: Files, name: string, force: bool)
    ensures Revoke(files, name, force) == Err(NeedsForce) <==> Guarded(name) && !force
    ensures Revoke(files, name, force).Ok?
            <==> GoodName(name) && (Guarded(name) ==> force)
                 && ParseHtpasswd(files.htpasswd).Ok? && name in ParseHtpasswd(files.htpasswd).value
  {
    RevokeIs(files, name, force);
    RemovalIsNeverGuarded(files.htpasswd, name);
    GoodIsValid(files.htpasswd, name);
  }

  lemma RevokeInStep(files: Files, name: string, force: bool, other: string)
    requires Revoke(files, name, force).Ok?
    ensures var after := Revoke(files, name, force).value;
      && Accounts(after.htpasswd) == Accounts(files.htpasswd) - {name}
      && after.env == files.env
      && (InStep(after, other) <==> other == name || InStep(files, other))
  {
    RevokeAccounts(files, name, force);
    AgreementDrops(Accounts(files.htpasswd), files.env, name, other);
  }

  lemma RevokeAccounts(files: Files, name: string, force: bool)
    requires Revoke(files, name, force).Ok?
    ensures var after := Revoke(files, name, force).value;
      Accounts(after.htpasswd) == Accounts(files.htpasswd) - {name} && after.env == files.env
  {
    RemoveChangesOne(files.htpasswd, name);
  }

  lemma AgreementDrops(was: map<string, string>, env: string, name: string, other: string)
    ensures Agree(was - {name}, env, other) <==> other == name || Agree(was, env, other)
  {
    var less := was - {name};
    assert other in less <==> other in was && other != name;
    assert other in less ==> less[other] == was[other];
  }

  lemma AgreementHalves(was: map<string, string>, env: string, name: string, digest: string, other: string)
    requires ValidName(name)
    ensures Agree(was[name := digest], env, name)
            <==> !HashInEnv(env, name) || Seen(env, CredentialKey(name)) == Some(digest)
    ensures other != name ==> (Agree(was[name := digest], env, other) <==> Agree(was, env, other))
  {
  }

  // ---------------------------------------------------------------- two files, two writes

  /** `reach` is how many of the verb's file writes went through before one raised, or
      more: each replaces one file atomically, and nothing holds the two together. */
  datatype Command = Add(name: string, digest: string, basic: string, reach: nat)
                   | Drop(name: string, force: bool, reach: nat)

  predicate WellFormed(c: Command) {
    c.Add? ==> Part(c.digest) && '\n' !in c.basic
  }

  /** After the first write of a rotation and before the second. */
  function Half(files: Files, after: Files): Files { files.(htpasswd := after.htpasswd) }

  function Written(files: Files, after: Files, reach: nat): Files {
    if reach == 0 then files else if reach == 1 then Half(files, after) else after
  }

  /** A command that is refused has written nothing; one whose host write raises has
      written what came before. */
  function Do(files: Files, c: Command): Files {
    match c
    case Add(name, digest, basic, reach) =>
      var r := Rotate(files, name, digest, basic);
      if r.Ok? then Written(files, r.value, reach) else files
    case Drop(name, force, reach) =>
      var r := Revoke(files, name, force);
      if r.Ok? && reach >= 1 then r.value else files
  }

  /** How much of a command is written: the registry first, then the env file. */
  lemma DoStops(files: Files, c: Command)
    ensures c.reach == 0 ==> Do(files, c) == files
    ensures c.Add? && Rotate(files, c.name, c.digest, c.basic).Ok? ==>
      var after := Rotate(files, c.name, c.digest, c.basic).value;
      && (c.reach >= 1 ==> Do(files, c).htpasswd == after.htpasswd)
      && (c.reach == 1 ==> Do(files, c).env == files.env)
      && (c.reach >= 2 ==> Do(files, c) == after)
    ensures c.Drop? && c.reach >= 1 && Revoke(files, c.name, c.force).Ok? ==> Do(files, c) == Revoke(files, c.name, c.force).value
    ensures (c.Add? && Rotate(files, c.name, c.digest, c.basic).Err?) || (c.Drop? && Revoke(files, c.name, c.force).Err?) ==>
      Do(files, c) == files
  {
  }

  function DoAll(files: Files, commands: seq<Command>): Files {
    if commands == [] then files else Do(DoAll(files, commands[..|commands| - 1]), commands[|commands| - 1])
  }

  /** The registry already checks the new hash and the edge still holds the old value:
      the account is in step exactly when its hash is not in the env file, or the env
      file happens to hold that very hash. Nobody else is touched. */
  lemma HalfInStepIff(files: Files, name: string, digest: string, basic: string, other: string)
    requires Rotate(files, name, digest, basic).Ok? && Part(digest)
    ensures var half := Half(files, Rotate(files, name, digest, basic).value);
      && half.env == files.env
      && Accounts(half.htpasswd) == Accounts(files.htpasswd)[name := digest]
      && (InStep(half, name) <==>
            !HashInEnv(files.env, name) || Seen(files.env, CredentialKey(name)) == Some(digest))
      && (other != name ==> (InStep(half, other) <==> InStep(files, other)))
  {
    RotateAccounts(files, name, digest, basic);
    AgreementHalves(Accounts(files.htpasswd), files.env, name, digest, other);
  }

  lemma SetAgain(text: string, key: string, one: string, two: string)
    ensures SetEnvValue(text, key, one).Ok? <==> SetEnvValue(text, key, two).Ok?
  {
    SetAnswers(text, key, one);
    SetAnswers(text, key, two);
  }

  lemma NextEnvAgain(env: string, name: string, digest: string, basic: string, again: string, basic2: string)
    ensures NextEnv(env, name, digest, basic).Ok? <==> NextEnv(env, name, again, basic2).Ok?
  {
    SetAgain(env, CredentialKey(name), ComposeEscape(Held(name, digest, basic)), ComposeEscape(Held(name, again, basic2)));
  }

  lemma RotateParts(files: Files, name: string, digest: string, basic: string)
    ensures Rotate(files, name, digest, basic).Ok? <==>
      && ValidName(name) && EnvHasKey(files.env, PUBLISHER_ENV_KEY)
      && ParseHtpasswd(files.htpasswd).Ok? && NextEnv(files.env, name, digest, basic).Ok?
  {
  }

  lemma HalfRotates(files: Files, name: string, digest: string, basic: string, again: string, basic2: string)
    requires Rotate(files, name, digest, basic).Ok? && Part(digest)
    ensures Rotate(Half(files, Rotate(files, name, digest, basic).value), name, again, basic2).Ok?
  {
    var half := Half(files, Rotate(files, name, digest, basic).value);
    RotateParts(files, name, digest, basic);
    RotateParts(half, name, again, basic2);
    NextEnvAgain(files.env, name, digest, basic, again, basic2);
    RotateHtpasswd(files, name, digest, basic);
    AddChangesOne(files.htpasswd, name, digest);
  }

  /** A rotation that was cut after its first write can be run again, with the hash of
      whatever password it now generates, and running it to its end repairs the account. */
  lemma ReRunRepairs(files: Files, half: Files, name: string, digest: string, basic: string, again: string, basic2: string)
    requires Rotate(files, name, digest, basic).Ok? && Part(digest)
    requires half == Half(files, Rotate(files, name, digest, basic).value)
    requires Part(again) && '\n' !in basic2
    ensures Rotate(half, name, again, basic2).Ok?
    ensures InStep(Rotate(half, name, again, basic2).value, name)
    ensures Accounts(Rotate(half, name, again, basic2).value.htpasswd) == Accounts(files.htpasswd)[name := again]
  {
    RotateAccounts(files, name, digest, basic);
    HalfRotates(files, name, digest, basic, again, basic2);
    RotationInStep(half, name, again, basic2, name);
    RotateAccounts(half, name, again, basic2);
    SetTwice(Accounts(files.htpasswd), name, digest, again);
  }

  lemma SetTwice(m: map<string, string>, key: string, one: string, two: string)
    ensures m[key := one][key := two] == m[key := two]
  {
  }

  // ---------------------------------------------------------------- over every run

  /** What the last command to reach `name`'s line left: in step, unless it was a
      rotation cut after its first write that the env file does not happen to match. */
  predicate Settled(files: Files, commands: seq<Command>, name: string) {
    commands == [] || (
      var before, last := commands[..|commands| - 1], commands[|commands| - 1];
      var was := DoAll(files, before);
      if last.name != name || last.reach == 0 || Do(was, last) == was then Settled(files, before, name)
      else if last.Add? && last.reach == 1 then
        !HashInEnv(was.env, name) || Seen(was.env, CredentialKey(name)) == Some(last.digest)
      else true)
  }

  lemma DoInStep(files: Files, c: Command, name: string)
    requires WellFormed(c)
    ensures InStep(Do(files, c), name) <==>
      if c.name != name || c.reach == 0 || Do(files, c) == files then InStep(files, name)
      else if c.Add? && c.reach == 1 then !HashInEnv(files.env, name) || Seen(files.env, CredentialKey(name)) == Some(c.digest)
      else true
  {
    if c.Add? {
      if c.reach > 0 && Rotate(files, c.name, c.digest, c.basic).Ok? {
        HalfInStepIff(files, c.name, c.digest, c.basic, name);
        RotationInStep(files, c.name, c.digest, c.basic, name);
      }
    } else if c.reach > 0 && Revoke(files, c.name, c.force).Ok? {
      RevokeInStep(files, c.name, c.force, name);
    }
  }

  /** Over every run of adds and revokes, refused and cut ones included, from files in
      step: an account is in step exactly when its last effective command settled it. */
  lemma {:induction false} RunInStepIff(files: Files, commands: seq<Command>, name: string)
    requires InStep(files, name)
    requires forall i | 0 <= i < |commands| :: WellFormed(commands[i])
    ensures InStep(DoAll(files, commands), name) <==> Settled(files, commands, name)
  {
    if commands != [] {
      var before := commands[..|commands| - 1];
      RunInStepIff(files, before, name);
      DoInStep(DoAll(files, before), commands[|commands| - 1], name);
    }
  }

  /** So, while no rotation is cut between its writes, the two files stay in step. */
  lemma {:induction false} RunStaysInStep(files: Files, commands: seq<Command>)
    requires AllInStep(files)
    requires forall i | 0 <= i < |commands| :: WellFormed(commands[i]) && (commands[i].Add? ==> commands[i].reach != 1)
    ensures AllInStep(DoAll(files, commands))
  {
    if commands != [] {
      var before := commands[..|commands| - 1];
      RunStaysInStep(files, before);
      forall name ensures InStep(DoAll(files, commands), name) {
        DoInStep(DoAll(files, before), commands[|commands| - 1], name);
      }
    }
  }

  method ComputeEnv(env: string, name: string, digest: string, basic: string) returns (r: Result<string, Error>)
    ensures r == NextEnv(env, name, digest, basic)
  {
    if name == PUBLISHER_ACCOUNT {
      r := WriteEnvValue(env, PUBLISHER_ENV_KEY, ComposeEscape(digest));
    } else if name == EDGE_READER_ACCOUNT {
      r := WriteEnvValue(env, EDGE_READER_ENV_KEY, ComposeEscape(basic));
    } else if EnvHasKey(env, SubEnvKey(name)) {
      r := WriteEnvValue(env, SubEnvKey(name), ComposeEscape(digest));
    } else {
      r := Ok(env);
    }
  }

  /** The host's two files. Each verb computes both new texts before it writes either,
      and writes them one after the other. */
  class Host {
    var htpasswd: string
    var env: string

    constructor (htpasswd: string, env: string)
      ensures this.htpasswd == htpasswd && this.env == env
    {
      this.htpasswd, this.env := htpasswd, env;
    }

    /** `failed` is None when the command ran to its end, Some(None) when a host write raised. */
    method Add(name: string, digest: string, basic: string, reach: nat) returns (failed: Option<Option<Error>>)
      modifies this
      ensures Files(htpasswd, env)
              == Do(Files(old(htpasswd), old(env)), Command.Add(name, digest, basic, reach))
      ensures var r := Rotate(Files(old(htpasswd), old(env)), name, digest, basic);
              if r.Err? then failed == Some(Some(r.error))
              else failed.None? <==> reach >= if r.value.env != old(env) then 2 else 1
    {
      if !ValidName(name) {
        return Some(Some(BadName));
      }
      if !EnvHasKey(env, PUBLISHER_ENV_KEY) {
        return Some(Some(NoKey));
      }
      var added := AddEntry(htpasswd, name, digest);
      if added.Err? {
        return Some(Some(added.error));
      }
      var next := ComputeEnv(env, name, digest, basic);
      if next.Err? {
        return Some(Some(next.error));
      }
      if reach == 0 {
        return Some(None);
      }
      htpasswd := added.value;
      if next.value != env {
        if reach == 1 {
          return Some(None);
        }
        env := next.value;
      }
      return None;
    }

    method Remove(name: string, force: bool, reach: nat) returns (failed: Option<Option<Error>>)
      modifies this
      ensures Files(htpasswd, env) == Do(Files(old(htpasswd), old(env)), Command.Drop(name, force, reach))
      ensures var r := Revoke(Files(old(htpasswd), old(env)), name, force);
              if r.Err? then failed == Some(Some(r.error)) else failed.None? <==> reach >= 1
    {
      if !ValidName(name) {
        return Some(Some(BadName));
      }
      if (name == PUBLISHER_ACCOUNT || name == EDGE_READER_ACCOUNT) && !force {
        return Some(Some(NeedsForce));
      }
      var removed := RemoveEntry(htpasswd, name);
      if removed.Err? {
        return Some(Some(removed.error));
      }
      if reach == 0 {
        return Some(None);
      }
      htpasswd := removed.value;
      return None;
    }
  }
}
