/** Reading a station's row-fills log (publisher/vexa_values_proven.py:52-161). */
module Fills {
  import opened Wrappers
  import opened Lines
  import opened Ordering

  // ---------------------------------------------------------------- stamps

  /** `d` is a digit, anything else itself. */
  const SECONDS := "dddd-dd-ddTdd:dd:ddZ"
  const MINUTES := "dddd-dd-ddTdd:ddZ"

  predicate Fits(mask: string, s: string) {
    |s| == |mask| && forall i | 0 <= i < |s| :: if mask[i] == 'd' then IsDigit(s[i]) else s[i] == mask[i]
  }

  predicate Unknown(c: char) { c == 'x' || c == 'X' }

  function Zeroed(token: string): (r: string)
    ensures |r| == |token|
  {
    seq(|token|, i requires 0 <= i < |token| => if Unknown(token[i]) then '0' else token[i])
  }

  /** `x` becomes `0`, missing seconds become `:00`; anything else is no stamp. */
  function ParseStamp(token: string): Option<string> {
    var candidate := Zeroed(token);
    var full := if Fits(MINUTES, candidate) then candidate[..16] + ":00Z" else candidate;
    if Fits(SECONDS, full) then Some(full) else None
  }

  /** `instant` could be the time that the token wrote down in part: an `x` is a digit nobody recorded. */
  predicate Completes(token: string, instant: string) {
    && Fits(SECONDS, instant)
    && (|token| == 20 || (|token| == 17 && token[16] == 'Z'))
    && forall i | 0 <= i < (if |token| == 20 then 20 else 16) ::
         if token[i] == 'x' || token[i] == 'X' then IsDigit(instant[i]) else token[i] == instant[i]
  }

  lemma {:induction false} PointwiseLeq(a: string, b: string)
    requires |a| == |b| && forall i | 0 <= i < |a| :: a[i] <= b[i]
    ensures LexLeq(a, b)
  {
    if a != [] && a[0] == b[0] {
      PointwiseLeq(a[1..], b[1..]);
    }
  }

  lemma CompletionFits(token: string, instant: string)
    requires Completes(token, instant)
    ensures ParseStamp(token).Some?
  {
    var candidate := Zeroed(token);
    if |token| == 17 {
      forall i | 0 <= i < 17
        ensures if MINUTES[i] == 'd' then IsDigit(candidate[i]) else candidate[i] == MINUTES[i]
      {
        assert i < 16 ==> MINUTES[i] == SECONDS[i];
      }
      assert Fits(MINUTES, candidate);
      StampFits(candidate);
    } else {
      forall i | 0 <= i < 20
        ensures if SECONDS[i] == 'd' then IsDigit(candidate[i]) else candidate[i] == SECONDS[i]
      {
      }
    }
  }

  lemma StampFits(candidate: string)
    requires Fits(MINUTES, candidate)
    ensures Fits(SECONDS, candidate[..16] + ":00Z")
  {
    var full := candidate[..16] + ":00Z";
    forall i | 0 <= i < 20
      ensures if SECONDS[i] == 'd' then IsDigit(full[i]) else full[i] == SECONDS[i]
    {
      if i < 16 {
        assert full[i] == candidate[i] && MINUTES[i] == SECONDS[i];
      }
    }
  }

  /** The stamp is itself a completion, and no completion is earlier. */
  lemma StampIsEarliest(token: string, instant: string)
    requires ParseStamp(token).Some?
    ensures Completes(token, ParseStamp(token).value)
    ensures Completes(token, instant) ==> LexLeq(ParseStamp(token).value, instant)
  {
    var stamp := ParseStamp(token).value;
    var candidate := Zeroed(token);
    if Fits(MINUTES, candidate) {
      assert candidate[16] == 'Z';
      forall i | 0 <= i < 16 ensures stamp[i] == candidate[i] {}
    }
    if Completes(token, instant) {
      forall i | 0 <= i < 20 ensures stamp[i] <= instant[i] {
        assert IsDigit(stamp[i]) || stamp[i] == SECONDS[i];
      }
      PointwiseLeq(stamp, instant);
    }
  }

  /** A token is refused exactly when no instant completes it. */
  lemma StampIff(token: string)
    ensures ParseStamp(token).Some? <==> exists instant :: Completes(token, instant)
  {
    if ParseStamp(token).Some? {
      StampIsEarliest(token, "");
    }
    forall instant | Completes(token, instant) ensures ParseStamp(token).Some? {
      CompletionFits(token, instant);
    }
  }

  // ---------------------------------------------------------------- lines

  datatype Fill = Fill(ts: string, row: string, verdict: string)

  function TakeToken(s: string): (r: string)
    ensures r <= s
  {
    if s == [] || IsSpace(s[0]) then [] else [s[0]] + TakeToken(s[1..])
  }

  function AfterToken(s: string): string { LStrip(s[|TakeToken(s)|..]) }

  /** The first three words of a stripped line. */
  function ReadFill(line: string): Option<Fill> {
    var second := AfterToken(line);
    var third := AfterToken(second);
    if line == "" || second == "" || third == "" then None
    else Some(Fill(TakeToken(line), TakeToken(second), TakeToken(third)))
  }

  predicate Word(s: string) { s != "" && forall i | 0 <= i < |s| :: !IsSpace(s[i]) }

  predicate Gap(s: string) { s != "" && forall i | 0 <= i < |s| :: IsSpace(s[i]) }

  /** The log's pattern: a word, a gap, a word, a gap, a word, and nothing more or a gap and the finding. */
  ghost predicate Matches(line: string, f: Fill) {
    exists gap: string, gap2: string, rest: string :: MatchesWith(line, f, gap, gap2, rest)
  }

  ghost predicate MatchesWith(line: string, f: Fill, gap: string, gap2: string, rest: string) {
    && Word(f.ts) && Gap(gap) && Word(f.row) && Gap(gap2) && Word(f.verdict)
    && (rest == "" || IsSpace(rest[0]))
    && line == f.ts + (gap + (f.row + (gap2 + (f.verdict + rest))))
  }

  lemma {:induction false} TakeTokenOf(word: string, rest: string)
    requires forall i | 0 <= i < |word| :: !IsSpace(word[i])
    requires rest == "" || IsSpace(rest[0])
    ensures TakeToken(word + rest) == word
  {
    if word != [] {
      assert (word + rest)[1..] == word[1..] + rest;
      TakeTokenOf(word[1..], rest);
      assert word == [word[0]] + word[1..];
    } else {
      assert word + rest == rest;
    }
  }

  lemma {:induction false} LStripOf(gap: string, rest: string)
    requires forall i | 0 <= i < |gap| :: IsSpace(gap[i])
    requires rest == "" || !IsSpace(rest[0])
    ensures LStrip(gap + rest) == rest
  {
    if gap != [] {
      assert (gap + rest)[1..] == gap[1..] + rest;
      LStripOf(gap[1..], rest);
    } else {
      assert gap + rest == rest;
    }
  }

  lemma AfterTokenOf(word: string, gap: string, rest: string)
    requires Word(word) && Gap(gap) && rest != "" && !IsSpace(rest[0])
    ensures TakeToken(word + (gap + rest)) == word && AfterToken(word + (gap + rest)) == rest
  {
    TakeTokenOf(word, gap + rest);
    assert (word + (gap + rest))[|word|..] == gap + rest;
    LStripOf(gap, rest);
  }

  lemma {:induction false} TakeTokenIsWord(s: string)
    requires s != "" && !IsSpace(s[0])
    ensures Word(TakeToken(s))
    ensures |TakeToken(s)| < |s| ==> IsSpace(s[|TakeToken(s)|])
  {
    if |s| > 1 && !IsSpace(s[1]) {
      TakeTokenIsWord(s[1..]);
    }
  }

  lemma {:induction false} LStripDropsSpace(s: string, i: nat)
    requires i < |s| - |LStrip(s)|
    ensures IsSpace(s[i])
  {
    if i > 0 {
      LStripDropsSpace(s[1..], i - 1);
    }
  }

  lemma LStripGap(s: string) returns (gap: string)
    requires s != "" && IsSpace(s[0])
    ensures Gap(gap) && s == gap + LStrip(s)
  {
    gap := s[..|s| - |LStrip(s)|];
    forall i | 0 <= i < |gap| ensures IsSpace(gap[i]) { LStripDropsSpace(s, i); }
  }

  lemma SplitLast(s: string) returns (rest: string)
    requires s != "" && !IsSpace(s[0])
    ensures Word(TakeToken(s)) && s == TakeToken(s) + rest && (rest == "" || IsSpace(rest[0]))
  {
    TakeTokenIsWord(s);
    rest := s[|TakeToken(s)|..];
  }

  lemma SplitToken(s: string) returns (gap: string)
    requires s != "" && !IsSpace(s[0]) && AfterToken(s) != ""
    ensures Word(TakeToken(s)) && Gap(gap) && s == TakeToken(s) + (gap + AfterToken(s))
  {
    var rest := SplitLast(s);
    assert s[|TakeToken(s)|..] == rest;
    gap := LStripGap(rest);
  }

  lemma AfterTokenStarts(s: string)
    requires AfterToken(s) != ""
    ensures !IsSpace(AfterToken(s)[0])
  {
  }

  lemma ReadMatches(line: string, f: Fill)
    requires Stripped(line) && ReadFill(line) == Some(f)
    ensures Matches(line, f)
  {
    var second := AfterToken(line);
    var third := AfterToken(second);
    AfterTokenStarts(line);
    AfterTokenStarts(second);
    var gap := SplitToken(line);
    var gap2 := SplitToken(second);
    var rest := SplitLast(third);
    assert MatchesWith(line, f, gap, gap2, rest);
  }

  lemma MatchReads(line: string, f: Fill)
    requires Matches(line, f)
    ensures ReadFill(line) == Some(f)
  {
    var gap: string, gap2: string, rest: string :| MatchesWith(line, f, gap, gap2, rest);
    var third := f.verdict + rest;
    var second := f.row + (gap2 + third);
    assert third[0] == f.verdict[0] && second[0] == f.row[0];
    AfterTokenOf(f.ts, gap, second);
    AfterTokenOf(f.row, gap2, third);
    TakeTokenOf(f.verdict, rest);
  }

  /** A stripped line is read as exactly the fill its pattern allows, and as none when it has no such pattern. */
  lemma ReadFillIff(line: string, f: Fill)
    requires Stripped(line)
    ensures ReadFill(line) == Some(f) <==> Matches(line, f)
  {
    if Matches(line, f) {
      MatchReads(line, f);
    } else if ReadFill(line) == Some(f) {
      ReadMatches(line, f);
    }
  }
}
