/** Redaction of a customer's values file (kit/validate/vexa_validate.py). */
module Redaction {
  import opened Wrappers

  /** `Num` is any scalar that is not text, with the text `str` gives it. */
  datatype Node = Obj(fields: map<string, Node>) | Arr(items: seq<Node>) | Str(text: string) | Num(text: string) | Null

  const REDACTED := "REDACTED"

  // ---------------------------------------------------------------- secret-looking keys

  /** Case as the pattern ignores it: besides the ASCII capitals, the long s and the
      kelvin sign. */
  function Lower(c: char): char {
    if 'A' <= c <= 'Z' then ((c as int) + 32) as char
    else if c as int == 0x17F then 's' else if c as int == 0x212A then 'k' else c
  }

  predicate StartsWith(s: string, word: string) {
    word == [] || (s != [] && Lower(s[0]) == word[0] && StartsWith(s[1..], word[1..]))
  }

  predicate Contains(s: string, word: string) {
    StartsWith(s, word) || (s != [] && Contains(s[1..], word))
  }

  predicate SecretKey(key: string) {
    Contains(key, "password") || Contains(key, "token") || Contains(key, "secret") || Contains(key, "key")
    || Contains(key, "apikey")
  }

  // ---------------------------------------------------------------- redaction

  /** The env-var idiom: the secret is named by a sibling, not by its own key. */
  predicate EnvNamed(fields: map<string, Node>) {
    "name" in fields && fields["name"].Str? && SecretKey(fields["name"].text)
  }

  /** Whether what is under this key is secret; once it is, everything below is. */
  predicate Below(fields: map<string, Node>, key: string, matched: bool) {
    matched || SecretKey(key) || (EnvNamed(fields) && key == "value")
  }

  /** A scalar that says something. */
  predicate Says(node: Node) {
    (node.Str? || node.Num?) && node.text != ""
  }

  function Redact(node: Node, matched: bool): Node
    decreases node
  {
    match node
    case Obj(fields) => Obj(map k | k in fields :: Redact(fields[k], Below(fields, k, matched)))
    case Arr(items) => Arr(seq(|items|, i requires 0 <= i < |items| => Redact(items[i], matched)))
    case _ => if matched && Says(node) then Str(REDACTED) else node
  }

  function Removed(node: Node, matched: bool): set<string>
    decreases node
  {
    match node
    case Obj(fields) => set k, s | k in fields && s in Removed(fields[k], Below(fields, k, matched)) :: s
    case Arr(items) => set i, s | 0 <= i < |items| && s in Removed(items[i], matched) :: s
    case _ => if matched && Says(node) then {node.text} else {}
  }

  class Removals {
    var texts: set<string>

    constructor ()
      ensures texts == {}
    {
      texts := {};
    }
  }

  method RedactInto(node: Node, matched: bool, removed: Removals) returns (out: Node)
    modifies removed
    ensures out == Redact(node, matched)
    ensures removed.texts == old(removed.texts) + Removed(node, matched)
    decreases node, 1
  {
    if node.Obj? {
      out := RedactFields(node.fields, matched, removed, node);
    } else if node.Arr? {
      out := RedactItems(node.items, matched, removed, node);
    } else if matched && Says(node) {
      removed.texts := removed.texts + {node.text};
      out := Str(REDACTED);
    } else {
      out := node;
    }
  }

  /** What the first `n` items lose. */
  ghost function RemovedFrom(items: seq<Node>, matched: bool, n: nat): set<string>
    requires n <= |items|
  {
    if n == 0 then {} else RemovedFrom(items, matched, n - 1) + Removed(items[n - 1], matched)
  }

  lemma {:induction false} RemovedFromHolds(items: seq<Node>, matched: bool, n: nat, text: string)
    requires n <= |items|
    ensures text in RemovedFrom(items, matched, n) <==> exists i :: 0 <= i < n && text in Removed(items[i], matched)
  {
    if n > 0 {
      RemovedFromHolds(items, matched, n - 1, text);
    }
  }

  lemma RemovedFromAll(items: seq<Node>, matched: bool)
    ensures RemovedFrom(items, matched, |items|) == Removed(Arr(items), matched)
  {
    forall text ensures text in RemovedFrom(items, matched, |items|) <==> text in Removed(Arr(items), matched) {
      RemovedFromHolds(items, matched, |items|, text);
    }
  }

  lemma FieldRemoved(fields: map<string, Node>, matched: bool, k: string)
    requires k in fields
    ensures Removed(fields[k], Below(fields, k, matched)) <= Removed(Obj(fields), matched)
  {
  }

  lemma FieldsRemoved(fields: map<string, Node>, matched: bool, all: set<string>)
    requires forall k | k in fields :: Removed(fields[k], Below(fields, k, matched)) <= all
    ensures Removed(Obj(fields), matched) <= all
  {
  }

  method RedactFields(fields: map<string, Node>, matched: bool, removed: Removals, ghost node: Node) returns (out: Node)
    requires node == Obj(fields)
    modifies removed
    ensures out == Redact(node, matched)
    ensures removed.texts == old(removed.texts) + Removed(node, matched)
    decreases node, 0
  {
    var done: map<string, Node> := map[];
    var keys := fields.Keys;
    ghost var start, gone := removed.texts, {};
    while keys != {}
      invariant keys <= fields.Keys && done.Keys == fields.Keys - keys
      invariant forall k | k in done :: done[k] == Redact(fields[k], Below(fields, k, matched))
      invariant removed.texts == start + gone
      invariant forall k | k in done :: Removed(fields[k], Below(fields, k, matched)) <= gone
      invariant gone <= Removed(node, matched)
      decreases keys
    {
      var k :| k in keys;
      var kid := RedactInto(fields[k], Below(fields, k, matched), removed);
      FieldRemoved(fields, matched, k);
      gone := gone + Removed(fields[k], Below(fields, k, matched));
      done, keys := done[k := kid], keys - {k};
    }
    FieldsRemoved(fields, matched, gone);
    out := Obj(done);
  }

  lemma RedactArr(xs: seq<Node>, matched: bool)
    ensures var r := Redact(Arr(xs), matched);
            r.Arr? && |r.items| == |xs| && forall i | 0 <= i < |xs| :: r.items[i] == Redact(xs[i], matched)
  {
  }

  method RedactItems(items: seq<Node>, matched: bool, removed: Removals, ghost node: Node) returns (out: Node)
    requires node == Arr(items)
    modifies removed
    ensures out == Redact(node, matched)
    ensures removed.texts == old(removed.texts) + Removed(node, matched)
    decreases node, 0
  {
    var done: seq<Node> := [];
    ghost var start := removed.texts;
    for i := 0 to |items|
      invariant |done| == i && forall j | 0 <= j < i :: done[j] == Redact(items[j], matched)
      invariant removed.texts == start + RemovedFrom(items, matched, i)
    {
      var kid := RedactInto(items[i], matched, removed);
      done := done + [kid];
    }
    RemovedFromAll(items, matched);
    RedactArr(items, matched);
    assert done == Redact(Arr(items), matched).items;
    out := Arr(done);
  }

  // ---------------------------------------------------------------- what an observer may see

  /** The two trees differ in nothing but the text of non-empty secret scalars. */
  predicate SameButSecrets(a: Node, b: Node, matched: bool)
    decreases a
  {
    match (a, b)
    case (Obj(f), Obj(g)) => f.Keys == g.Keys && forall k | k in f :: SameButSecrets(f[k], g[k], Below(f, k, matched))
    case (Arr(xs), Arr(ys)) => |xs| == |ys| && forall i | 0 <= i < |xs| :: SameButSecrets(xs[i], ys[i], matched)
    case _ => a == b || (matched && Says(a) && Says(b))
  }

  lemma NameIsNotSecret()
    ensures !SecretKey("name")
  {
  }

  lemma RedactObj(f: map<string, Node>, matched: bool, k: string)
    requires k in f
    ensures var r := Redact(Obj(f), matched);
            r.Obj? && r.fields.Keys == f.Keys && r.fields[k] == Redact(f[k], Below(f, k, matched))
  {
  }

  /** Redaction tells two trees apart exactly when something besides their secrets
      does: it hides every secret and nothing else. */
  lemma {:induction false} RedactionHidesExactlySecrets(a: Node, b: Node, matched: bool)
    ensures Redact(a, matched) == Redact(b, matched) <==> SameButSecrets(a, b, matched)
    decreases a
  {
    match (a, b)
    case (Obj(f), Obj(g)) =>
      if f.Keys == g.Keys {
        SameKinship(f, g, matched);
        forall k | k in f
          ensures Redact(f[k], Below(f, k, matched)) == Redact(g[k], Below(f, k, matched))
                  <==> SameButSecrets(f[k], g[k], Below(f, k, matched))
        {
          RedactionHidesExactlySecrets(f[k], g[k], Below(f, k, matched));
        }
        SameFieldsIff(f, g, matched);
      } else {
        assert Redact(a, matched).fields.Keys == f.Keys && Redact(b, matched).fields.Keys == g.Keys;
      }
    case (Arr(xs), Arr(ys)) =>
      RedactArr(xs, matched);
      RedactArr(ys, matched);
      if |xs| == |ys| {
        forall i | 0 <= i < |xs|
          ensures Redact(xs[i], matched) == Redact(ys[i], matched) <==> SameButSecrets(xs[i], ys[i], matched)
        {
          RedactionHidesExactlySecrets(xs[i], ys[i], matched);
        }
      }
    case _ =>
  }

  lemma SameFieldsIff(f: map<string, Node>, g: map<string, Node>, matched: bool)
    requires f.Keys == g.Keys
    requires Redact(Obj(f), matched) == Redact(Obj(g), matched) || SameButSecrets(Obj(f), Obj(g), matched)
             ==> EnvNamed(f) == EnvNamed(g) || matched
    requires forall k | k in f :: Redact(f[k], Below(f, k, matched)) == Redact(g[k], Below(f, k, matched))
                                  <==> SameButSecrets(f[k], g[k], Below(f, k, matched))
    ensures Redact(Obj(f), matched) == Redact(Obj(g), matched) <==> SameButSecrets(Obj(f), Obj(g), matched)
  {
    var r, q := Redact(Obj(f), matched), Redact(Obj(g), matched);
    if r == q {
      forall k | k in f ensures SameButSecrets(f[k], g[k], Below(f, k, matched)) {
        RedactObj(f, matched, k);
        RedactObj(g, matched, k);
      }
    }
    if SameButSecrets(Obj(f), Obj(g), matched) {
      forall k | k in f ensures r.fields[k] == q.fields[k] {
        RedactObj(f, matched, k);
        RedactObj(g, matched, k);
      }
      assert r.fields == q.fields;
    }
  }

  /** The sibling that names an environment variable is never itself hidden, so both
      relations settle which keys are secret. */
  lemma SameKinship(f: map<string, Node>, g: map<string, Node>, matched: bool)
    requires f.Keys == g.Keys
    ensures Redact(Obj(f), matched) == Redact(Obj(g), matched) || SameButSecrets(Obj(f), Obj(g), matched)
            ==> EnvNamed(f) == EnvNamed(g) || matched
  {
    NameIsNotSecret();
    if "name" in f && !matched {
      RedactObj(f, matched, "name");
      RedactObj(g, matched, "name");
      assert !Below(f, "name", matched) && !Below(g, "name", matched);
      assert SameButSecrets(Obj(f), Obj(g), matched) ==> SameButSecrets(f["name"], g["name"], false);
      assert f["name"].Str? && Redact(f["name"], false) == Redact(g["name"], false) ==> f["name"] == g["name"];
      assert g["name"].Str? && Redact(f["name"], false) == Redact(g["name"], false) ==> f["name"] == g["name"];
    }
  }

  /** Redacting again changes nothing. */
  lemma {:induction false} RedactIdempotent(node: Node, matched: bool)
    ensures Redact(Redact(node, matched), matched) == Redact(node, matched)
    decreases node
  {
    match node
    case Obj(f) =>
      var r := Redact(node, matched).fields;
      NameIsNotSecret();
      if "name" in f && !matched {
        RedactObj(f, matched, "name");
        assert !Below(f, "name", matched);
      }
      assert matched || EnvNamed(r) == EnvNamed(f);
      forall k | k in f ensures Redact(r[k], Below(r, k, matched)) == r[k] {
        RedactObj(f, matched, k);
        assert Below(r, k, matched) == Below(f, k, matched);
        RedactIdempotent(f[k], Below(f, k, matched));
      }
      assert Redact(Obj(r), matched).fields == r;
    case Arr(xs) =>
      RedactArr(xs, matched);
      var r := Redact(node, matched).items;
      RedactArr(r, matched);
      forall i | 0 <= i < |xs| ensures Redact(r[i], matched) == r[i] {
        RedactIdempotent(xs[i], matched);
      }
      assert Redact(Arr(r), matched).items == r;
    case _ =>
  }

  // ---------------------------------------------------------------- place by place

  datatype Part = Key(key: string) | Index(i: nat)

  datatype Place = Place(node: Node, matched: bool)

  /** What stands at a path, and whether the keys on the way made it secret. */
  function At(node: Node, matched: bool, path: seq<Part>): Option<Place>
    decreases |path|
  {
    if path == [] then Some(Place(node, matched))
    else match (node, path[0])
      case (Obj(fields), Key(k)) => if k in fields then At(fields[k], Below(fields, k, matched), path[1..]) else None
      case (Arr(items), Index(i)) => if i < |items| then At(items[i], matched, path[1..]) else None
      case _ => None
  }

  /** Redaction keeps the shape and acts place by place. */
  lemma {:induction false} RedactAt(node: Node, matched: bool, path: seq<Part>)
    ensures var (was, found) := (At(node, matched, path), At(Redact(node, matched), matched, path));
            match was
            case None => found == None
            case Some(place) => found.Some? && found.value.node == Redact(place.node, place.matched)
                                && (found.value.matched == place.matched)
    decreases |path|
  {
    if path != [] {
      match (node, path[0])
      case (Obj(f), Key(k)) =>
        if k in f {
          RedactObj(f, matched, k);
          NameIsNotSecret();
          if "name" in f && !matched {
            RedactObj(f, matched, "name");
            assert !Below(f, "name", matched);
          }
          var r := Redact(node, matched).fields;
          assert matched || EnvNamed(r) == EnvNamed(f);
          assert Below(r, k, matched) == Below(f, k, matched);
          RedactAt(f[k], Below(f, k, matched), path[1..]);
        }
      case (Arr(xs), Index(i)) =>
        RedactArr(xs, matched);
        if i < |xs| {
          RedactAt(xs[i], matched, path[1..]);
        }
      case _ =>
    }
  }

  /** The removed texts are exactly those of the secret scalars, wherever they stand. */
  ghost predicate SecretAt(node: Node, matched: bool, path: seq<Part>, text: string) {
    var place := At(node, matched, path);
    place.Some? && place.value.matched && Says(place.value.node) && place.value.node.text == text
  }

  lemma {:induction false} RemovedIsSecret(node: Node, matched: bool, text: string) returns (path: seq<Part>)
    requires text in Removed(node, matched)
    ensures SecretAt(node, matched, path, text)
    decreases node
  {
    match node
    case Obj(f) =>
      var k :| k in f && text in Removed(f[k], Below(f, k, matched));
      var rest := RemovedIsSecret(f[k], Below(f, k, matched), text);
      path := [Key(k)] + rest;
      assert path[1..] == rest;
    case Arr(xs) =>
      var i :| 0 <= i < |xs| && text in Removed(xs[i], matched);
      var rest := RemovedIsSecret(xs[i], matched, text);
      path := [Index(i)] + rest;
      assert path[1..] == rest;
    case _ => path := [];
  }

  lemma {:induction false} SecretIsRemoved(node: Node, matched: bool, path: seq<Part>, text: string)
    requires SecretAt(node, matched, path, text)
    ensures text in Removed(node, matched)
    ensures At(Redact(node, matched), matched, path).Some?
    ensures At(Redact(node, matched), matched, path).value.node == Str(REDACTED)
    decreases |path|
  {
    RedactAt(node, matched, path);
    if path != [] {
      match (node, path[0])
      case (Obj(f), Key(k)) => SecretIsRemoved(f[k], Below(f, k, matched), path[1..], text);
      case (Arr(xs), Index(i)) => SecretIsRemoved(xs[i], matched, path[1..], text);
    }
  }

  // ---------------------------------------------------------------- which scalars those are

  /** `word` in any letter case at this place of the text. */
  predicate SpeltAt(text: string, i: nat, word: string) {
    i + |word| <= |text| && forall k | 0 <= k < |word| :: SameLetter(text[i + k], word[k])
  }

  predicate SameLetter(c: char, w: char) {
    || c == w || ('a' <= w <= 'z' && c as int + 32 == w as int)
    || (w == 's' && c as int == 0x17F) || (w == 'k' && c as int == 0x212A)
  }

  ghost predicate Spells(text: string, word: string) { exists i: nat :: SpeltAt(text, i, word) }

  /** The four words; the fifth of the pattern holds the last of these. */
  ghost predicate SoundsSecret(text: string) {
    Spells(text, "password") || Spells(text, "token") || Spells(text, "secret") || Spells(text, "key")
  }

  lemma LowerIs(c: char, w: char)
    requires 'a' <= w <= 'z'
    ensures Lower(c) == w <==> SameLetter(c, w)
  {
  }

  ghost predicate Plain(word: string) { forall k | 0 <= k < |word| :: 'a' <= word[k] <= 'z' }

  lemma {:induction false} StartsIff(s: string, word: string)
    requires Plain(word)
    ensures StartsWith(s, word) <==> SpeltAt(s, 0, word)
  {
    if word != [] && s != [] {
      StartsIff(s[1..], word[1..]);
      LowerIs(s[0], word[0]);
      SpeltTail(s, word);
    }
  }

  lemma SpeltTail(s: string, word: string)
    requires Plain(word) && word != [] && s != []
    ensures SpeltAt(s, 0, word) <==> Lower(s[0]) == word[0] && SpeltAt(s[1..], 0, word[1..])
  {
    LowerIs(s[0], word[0]);
    if |word| <= |s| {
      assert forall k | 0 < k < |word| :: s[0 + k] == s[1..][0 + (k - 1)] && word[k] == word[1..][k - 1];
      assert forall k | 0 <= k < |word| - 1 :: s[1..][0 + k] == s[0 + (k + 1)] && word[1..][k] == word[k + 1];
    }
  }

  lemma SpeltShift(s: string, i: nat, word: string)
    requires s != []
    ensures SpeltAt(s, i + 1, word) <==> SpeltAt(s[1..], i, word)
  {
    if i + 1 + |word| <= |s| {
      forall k | 0 <= k < |word| ensures SameLetter(s[i + 1 + k], word[k]) <==> SameLetter(s[1..][i + k], word[k]) {
        assert s[1..][i + k] == s[i + 1 + k];
      }
    }
  }

  lemma {:induction false} ContainsIff(s: string, word: string)
    requires Plain(word)
    ensures Contains(s, word) <==> Spells(s, word)
  {
    StartsIff(s, word);
    if s != [] {
      ContainsIff(s[1..], word);
      if Spells(s, word) {
        var i: nat :| SpeltAt(s, i, word);
        if i > 0 {
          SpeltShift(s, i - 1, word);
        }
      }
      if Spells(s[1..], word) {
        var i: nat :| SpeltAt(s[1..], i, word);
        SpeltShift(s, i, word);
      }
    } else if Spells(s, word) {
      var i: nat :| SpeltAt(s, i, word);
    }
  }

  lemma ApikeyIsKey(s: string)
    requires Spells(s, "apikey")
    ensures Spells(s, "key")
  {
    var i: nat :| SpeltAt(s, i, "apikey");
    forall k | 0 <= k < 3 ensures SameLetter(s[i + 3 + k], "key"[k]) {
      assert SameLetter(s[i + (k + 3)], "apikey"[k + 3]);
      assert "apikey"[k + 3] == "key"[k];
    }
    assert SpeltAt(s, i + 3, "key");
  }

  lemma SecretKeyIff(key: string)
    ensures SecretKey(key) <==> SoundsSecret(key)
  {
    ContainsIff(key, "password");
    ContainsIff(key, "token");
    ContainsIff(key, "secret");
    ContainsIff(key, "key");
    ContainsIff(key, "apikey");
    if Spells(key, "apikey") {
      ApikeyIsKey(key);
    }
  }

  /** What stands at a path. */
  function Find(node: Node, path: seq<Part>): Option<Node>
    decreases |path|
  {
    if path == [] then Some(node)
    else match (node, path[0])
      case (Obj(fields), Key(k)) => if k in fields then Find(fields[k], path[1..]) else None
      case (Arr(items), Index(i)) => if i < |items| then Find(items[i], path[1..]) else None
      case _ => None
  }

  /** A key on the way sounds secret, or the way goes through `value` beside a `name`
      that does. */
  ghost predicate Named(node: Node, path: seq<Part>)
    decreases |path|
  {
    path != [] && match (node, path[0])
      case (Obj(fields), Key(k)) =>
        || SoundsSecret(k)
        || (k == "value" && "name" in fields && fields["name"].Str? && SoundsSecret(fields["name"].text))
        || (k in fields && Named(fields[k], path[1..]))
      case (Arr(items), Index(i)) => i < |items| && Named(items[i], path[1..])
      case _ => false
  }

  lemma BelowIff(fields: map<string, Node>, k: string, matched: bool)
    ensures Below(fields, k, matched)
            <==> || matched || SoundsSecret(k)
                 || (k == "value" && "name" in fields && fields["name"].Str? && SoundsSecret(fields["name"].text))
  {
    SecretKeyIff(k);
    if "name" in fields && fields["name"].Str? {
      SecretKeyIff(fields["name"].text);
    }
  }

  lemma {:induction false} AtIsFind(node: Node, matched: bool, path: seq<Part>)
    ensures At(node, matched, path).Some? <==> Find(node, path).Some?
    ensures At(node, matched, path).Some? ==>
      && At(node, matched, path).value.node == Find(node, path).value
      && (At(node, matched, path).value.matched <==> matched || Named(node, path))
    decreases |path|
  {
    if path != [] {
      match (node, path[0])
      case (Obj(f), Key(k)) =>
        if k in f {
          BelowIff(f, k, matched);
          AtIsFind(f[k], Below(f, k, matched), path[1..]);
        }
      case (Arr(xs), Index(i)) =>
        if i < |xs| {
          AtIsFind(xs[i], matched, path[1..]);
        }
      case _ =>
    }
  }

  predicate Scalar(node: Node) { node.Str? || node.Num? || node.Null? }

  /** A scalar of a report: replaced, when it says something and a key or a name on the
      way sounds secret; otherwise exactly as it was. */
  lemma RedactsExactly(node: Node, path: seq<Part>)
    requires Find(node, path).Some? && Scalar(Find(node, path).value)
    ensures var leaf := Find(node, path).value;
      Find(Redact(node, false), path)
      == Some(if !leaf.Null? && leaf.text != "" && Named(node, path) then Str("REDACTED") else leaf)
  {
    AtIsFind(node, false, path);
    AtIsFind(Redact(node, false), false, path);
    RedactAt(node, false, path);
  }

  /** And what is removed is exactly the texts of those. */
  lemma RemovesExactly(node: Node, text: string)
    ensures text in Removed(node, false)
            <==> exists path :: Named(node, path) && Find(node, path).Some? && Reads(Find(node, path).value, text)
  {
    if text in Removed(node, false) {
      var path := RemovedIsSecret(node, false, text);
      AtIsFind(node, false, path);
    }
    if path :| Named(node, path) && Find(node, path).Some? && Reads(Find(node, path).value, text) {
      AtIsFind(node, false, path);
      SecretIsRemoved(node, false, path, text);
    }
  }

  predicate Reads(node: Node, text: string) { (node.Str? || node.Num?) && node.text == text && text != "" }
}
