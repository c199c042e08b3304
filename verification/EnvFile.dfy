/** The channel's env file (publisher/vexa_subscriber.py): `KEY=value` lines that compose interpolates. */
module EnvFile {
  import opened Wrappers
  import opened Lines
  import Subscriber

  // ---------------------------------------------------------------- escaping

  /** Every `$` doubled. */
  function ComposeEscape(value: string): string {
    if value == [] then []
    else (if value[0] == '$' then "$$" else [value[0]]) + ComposeEscape(value[1..])
  }

  /** What compose makes of a value: `$$` is one `$`; a lone `$` asks for a variable, which is not literal text. */
  function Interpolate(value: string): Option<string> {
    if value == [] then Some([])
    else if value[0] != '$' then Prepend(value[0], Interpolate(value[1..]))
    else if |value| > 1 && value[1] == '$' then Prepend('$', Interpolate(value[2..]))
    else None
  }

  function Prepend(c: char, rest: Option<string>): Option<string> {
    if rest.Some? then Some([c] + rest.value) else None
  }

  lemma {:induction false} EscapeReadsBack(value: string)
    ensures Interpolate(ComposeEscape(value)) == Some(value)
  {
    if value != [] {
      EscapeReadsBack(value[1..]);
      var rest := ComposeEscape(value[1..]);
      assert value == [value[0]] + value[1..];
      if value[0] == '$' {
        assert ComposeEscape(value)[2..] == rest;
      } else {
        assert ComposeEscape(value)[1..] == rest;
      }
    }
  }

  lemma {:induction false} InterpolateShrinks(value: string)
    requires Interpolate(value).Some?
    ensures |Interpolate(value).value| <= |value|
    ensures |Interpolate(value).value| == |value| ==> Interpolate(value).value == value && '$' !in value
  {
    if value != [] {
      InterpolateShrinks(value[if value[0] == '$' then 2 else 1..]);
      assert value == [value[0]] + value[1..];
    }
  }

  /** An unescaped value survives exactly when it has no `$`: what once cut a hash short. */
  lemma {:induction false} UnescapedSurvivesIff(value: string)
    ensures Interpolate(value) == Some(value) <==> '$' !in value
  {
    if Interpolate(value) == Some(value) {
      InterpolateShrinks(value);
    }
    if value != [] && '$' !in value {
      UnescapedSurvivesIff(value[1..]);
      assert value == [value[0]] + value[1..];
    }
  }

  lemma {:induction false} EscapeKeepsLine(value: string)
    ensures '\n' in ComposeEscape(value) ==> '\n' in value
  {
    if value != [] {
      EscapeKeepsLine(value[1..]);
      assert value == [value[0]] + value[1..];
    }
  }

  // ---------------------------------------------------------------- lines and keys

  function KeyOf(line: string): string {
    Strip(if '=' in line then line[..Subscriber.IndexOf(line, '=')] else line)
  }

  function ValueOf(line: string): Option<string> {
    if '=' in line then Some(line[Subscriber.IndexOf(line, '=') + 1..]) else None
  }

  function KeyLine(key: string, value: string): string { key + "=" + value }

  lemma KeyOfClean(line: string)
    requires '\n' !in line
    ensures '=' !in KeyOf(line) && '\n' !in KeyOf(line) && Stripped(KeyOf(line))
  {
    var part := if '=' in line then line[..Subscriber.IndexOf(line, '=')] else line;
    if '=' in Strip(part) { StripChars(part, '='); }
    if '\n' in Strip(part) { StripChars(part, '\n'); }
  }

  /** The key is what stands before the first `=`, stripped, or the whole line when there
      is none; the value is everything after it. */
  lemma KeyOfReads(before: string, after: string)
    requires '=' !in before
    ensures KeyOf(before + "=" + after) == Strip(before) && ValueOf(before + "=" + after) == Some(after)
    ensures KeyOf(before) == Strip(before) && ValueOf(before) == None
  {
    KeyLineSplits(before, after);
    var line := KeyLine(before, after);
    assert line[..|before|] == before && line[|before| + 1..] == after;
  }

  lemma KeyLineSplits(key: string, value: string)
    requires '=' !in key
    ensures '=' in KeyLine(key, value) && Subscriber.IndexOf(KeyLine(key, value), '=') == |key|
  {
    var line := KeyLine(key, value);
    assert line[..|key|] == key && line[|key|] == '=';
    Subscriber.IndexOfUnique(line, '=', |key|);
  }

  lemma KeyLineReads(key: string, value: string)
    requires '=' !in key && Stripped(key)
    ensures KeyOf(KeyLine(key, value)) == key && ValueOf(KeyLine(key, value)) == Some(value)
  {
    var line := KeyLine(key, value);
    KeyLineSplits(key, value);
    assert line[..|key|] == key && line[|key| + 1..] == value;
    StripIdentity(key);
  }

  function Keys(lines: seq<string>): seq<string> { Map(KeyOf, lines) }

  /** Where `x` stands in `s`, in order. */
  function Positions<T(==)>(s: seq<T>, x: T): (r: seq<nat>)
    ensures forall k | 0 <= k < |r| :: r[k] < |s| && s[r[k]] == x
  {
    if s == [] then []
    else
      var n := |s| - 1;
      Positions(s[..n], x) + if s[n] == x then [n] else []
  }

  lemma {:induction false} PositionFound<T>(s: seq<T>, x: T, i: nat)
    requires i < |s| && s[i] == x
    ensures i in Positions(s, x)
  {
    if i < |s| - 1 {
      PositionFound(s[..|s| - 1], x, i);
    }
  }

  lemma {:induction false} PositionsIncrease<T>(s: seq<T>, x: T, a: nat, b: nat)
    requires a < b < |Positions(s, x)|
    ensures Positions(s, x)[a] < Positions(s, x)[b]
  {
    if b < |Positions(s[..|s| - 1], x)| {
      PositionsIncrease(s[..|s| - 1], x, a, b);
    }
  }

  /** `x` stands at `i`, and nowhere else. */
  ghost predicate OnlyAt<T>(s: seq<T>, x: T, i: int) {
    0 <= i < |s| && s[i] == x && forall j | 0 <= j < |s| && s[j] == x :: j == i
  }

  lemma OnePosition<T>(s: seq<T>, x: T, i: int)
    ensures Positions(s, x) == [i] <==> OnlyAt(s, x, i)
  {
    var hits := Positions(s, x);
    if hits == [i] {
      assert i == hits[0];
      forall j | 0 <= j < |s| && s[j] == x ensures j == i { PositionFound(s, x, j); }
    }
    if OnlyAt(s, x, i) {
      PositionFound(s, x, i);
      assert forall k | 0 <= k < |hits| :: hits[k] == i;
      if |hits| > 1 {
        PositionsIncrease(s, x, 0, 1);
      }
    }
  }

  lemma SinglePosition<T>(s: seq<T>, x: T) returns (i: nat)
    requires |Positions(s, x)| == 1
    ensures OnlyAt(s, x, i) && Positions(s, x) == [i]
  {
    i := Positions(s, x)[0];
    OnePosition(s, x, i);
  }

  ghost predicate Once<T>(s: seq<T>, x: T) { exists i :: OnlyAt(s, x, i) }

  lemma HowManyPositions<T>(s: seq<T>, x: T)
    ensures Positions(s, x) == [] <==> x !in s
    ensures |Positions(s, x)| == 1 <==> Once(s, x)
  {
    var hits := Positions(s, x);
    if x in s {
      var i :| 0 <= i < |s| && s[i] == x;
      PositionFound(s, x, i);
    }
    if |hits| == 1 {
      var i := SinglePosition(s, x);
    }
    if Once(s, x) {
      var i :| OnlyAt(s, x, i);
      OnePosition(s, x, i);
    }
  }

  lemma PositionsNext<T>(s: seq<T>, x: T, n: nat)
    requires n < |s|
    ensures Positions(s[..n + 1], x) == Positions(s[..n], x) + if s[n] == x then [n] else []
  {
    assert s[..n + 1][..n] == s[..n];
  }

  // ---------------------------------------------------------------- the file

  /** A final line break opens no line. */
  function DropOpen(all: seq<string>): seq<string> {
    if all != [] && all[|all| - 1] == "" then all[..|all| - 1] else all
  }

  /** `splitlines`. */
  function EnvLines(text: string): seq<string> { DropOpen(Split(text)) }

  function EnvKeys(text: string): seq<string> { Keys(EnvLines(text)) }

  predicate EnvHasKey(text: string, key: string) { key in EnvKeys(text) }

  function ReplaceLine(text: string, i: nat, line: string): string
    requires i < |EnvLines(text)|
  {
    Join(Split(text)[i := line])
  }

  function SetEnvValue(text: string, key: string, value: string): Result<string, Subscriber.Error> {
    var hits := Positions(EnvKeys(text), key);
    if hits == [] then Err(Subscriber.NoKey)
    else if |hits| > 1 then Err(Subscriber.DuplicateKey)
    else Ok(ReplaceLine(text, hits[0], KeyLine(key, value)))
  }

  /** The value of the only line that carries `key`. */
  function ValueIn<L, K(==), V>(keyOf: L -> K, valueOf: L -> Option<V>, lines: seq<L>, key: K): Option<V> {
    var hits := Positions(Map(keyOf, lines), key);
    if |hits| == 1 then valueOf(lines[hits[0]]) else None
  }

  /** What stands after the first `=` of the only line that carries `key`. */
  function EnvValue(text: string, key: string): Option<string> {
    ValueIn(KeyOf, ValueOf, EnvLines(text), key)
  }

  method WriteEnvValue(text: string, key: string, value: string) returns (r: Result<string, Subscriber.Error>)
    ensures r == SetEnvValue(text, key, value)
  {
    var lines, hits := Split(text), [];
    var keys := EnvKeys(text);
    for n := 0 to |keys|
      invariant hits == Positions(keys[..n], key)
    {
      PositionsNext(keys, key, n);
      if keys[n] == key {
        hits := hits + [n];
      }
    }
    assert keys[..|keys|] == keys;
    if hits == [] {
      return Err(Subscriber.NoKey);
    } else if |hits| > 1 {
      return Err(Subscriber.DuplicateKey);
    }
    lines := lines[hits[0] := KeyLine(key, value)];
    return Ok(Join(lines));
  }

  /** No line with the key, or more than one, is an error; otherwise the value is set. */
  lemma SetAnswers(text: string, key: string, value: string)
    ensures SetEnvValue(text, key, value).Ok? <==> Once(EnvKeys(text), key)
    ensures SetEnvValue(text, key, value) == Err(Subscriber.NoKey) <==> !EnvHasKey(text, key)
    ensures SetEnvValue(text, key, value) == Err(Subscriber.DuplicateKey)
            <==> EnvHasKey(text, key) && !Once(EnvKeys(text), key)
  {
    HowManyPositions(EnvKeys(text), key);
  }

  lemma DropOpenUpdate(all: seq<string>, i: nat, line: string)
    requires i < |DropOpen(all)| && line != ""
    ensures DropOpen(all[i := line]) == DropOpen(all)[i := line]
  {
  }

  lemma LinesOfUpdate(text: string, i: nat, line: string)
    requires i < |EnvLines(text)| && '\n' !in line && line != ""
    ensures Split(ReplaceLine(text, i, line)) == Split(text)[i := line]
    ensures EnvLines(ReplaceLine(text, i, line)) == EnvLines(text)[i := line]
  {
    var all := Split(text);
    SplitUnbroken(text);
    assert Unbroken(all[i := line]);
    SplitJoin(all[i := line]);
    DropOpenUpdate(all, i, line);
  }

  lemma MapMember<L, K>(f: L -> K, lines: seq<L>, x: K) returns (i: nat)
    requires x in Map(f, lines)
    ensures i < |lines| && f(lines[i]) == x
  {
    i :| 0 <= i < |lines| && Map(f, lines)[i] == x;
  }

  lemma LineUnbroken(text: string, i: nat)
    requires i < |EnvLines(text)|
    ensures '\n' !in EnvLines(text)[i]
  {
    SplitUnbroken(text);
    assert EnvLines(text)[i] == Split(text)[i];
  }

  lemma KeyIsClean(text: string, key: string)
    requires EnvHasKey(text, key)
    ensures '=' !in key && '\n' !in key && Stripped(key)
  {
    var i := MapMember(KeyOf, EnvLines(text), key);
    LineUnbroken(text, i);
    KeyOfClean(EnvLines(text)[i]);
  }

  lemma KeyLineUnbroken(key: string, value: string)
    requires '\n' !in key && '\n' !in value
    ensures '\n' !in KeyLine(key, value) && KeyLine(key, value) != ""
  {
  }

  /** Exactly one line changes: the one that carried the key. */
  lemma SetChangesOneLine(text: string, key: string, value: string) returns (i: nat)
    requires SetEnvValue(text, key, value).Ok? && '\n' !in value
    ensures OnlyAt(EnvKeys(text), key, i)
    ensures Split(SetEnvValue(text, key, value).value) == Split(text)[i := KeyLine(key, value)]
    ensures EnvLines(SetEnvValue(text, key, value).value) == EnvLines(text)[i := KeyLine(key, value)]
  {
    i := SinglePosition(EnvKeys(text), key);
    KeyIsClean(text, key);
    KeyLineUnbroken(key, value);
    LinesOfUpdate(text, i, KeyLine(key, value));
  }

  lemma ValueAfterUpdate<L, K, V>(keyOf: L -> K, valueOf: L -> Option<V>, lines: seq<L>, i: nat, line: L, other: K)
    requires i < |lines| && keyOf(lines[i]) == keyOf(line)
    requires OnlyAt(Map(keyOf, lines), keyOf(line), i)
    ensures Map(keyOf, lines[i := line]) == Map(keyOf, lines)
    ensures ValueIn(keyOf, valueOf, lines[i := line], other)
            == if other == keyOf(line) then valueOf(line) else ValueIn(keyOf, valueOf, lines, other)
  {
    var keys := Map(keyOf, lines);
    assert Map(keyOf, lines[i := line]) == keys;
    if other == keyOf(line) {
      OnePosition(keys, other, i);
    } else if |Positions(keys, other)| == 1 {
      var k := SinglePosition(keys, other);
      assert keys[k] == other;
    }
  }

  /** The key reads as the value set, every other key as it did, and the keys stay where they were. */
  lemma SetReadsBack(text: string, key: string, value: string, other: string)
    requires SetEnvValue(text, key, value).Ok? && '\n' !in value
    ensures EnvValue(SetEnvValue(text, key, value).value, other)
            == if other == key then Some(value) else EnvValue(text, other)
    ensures EnvKeys(SetEnvValue(text, key, value).value) == EnvKeys(text)
  {
    var i := SetChangesOneLine(text, key, value);
    KeyIsClean(text, key);
    KeyLineReads(key, value);
    ValueAfterUpdate(KeyOf, ValueOf, EnvLines(text), i, KeyLine(key, value), other);
  }
}
