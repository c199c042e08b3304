/** Text as lines: `split("\n")`, `"\n".join`, and the strips. Only `\n` breaks a line. */
module Lines {

  function Split(s: string): (r: seq<string>)
    ensures r != []
  {
    if s == [] then [""]
    else
      var rest := Split(s[1..]);
      if s[0] == '\n' then [""] + rest else [[s[0]] + rest[0]] + rest[1..]
  }

  function Join(lines: seq<string>): string {
    if lines == [] then ""
    else if |lines| == 1 then lines[0]
    else lines[0] + "\n" + Join(lines[1..])
  }

  ghost predicate Unbroken(lines: seq<string>) {
    forall i | 0 <= i < |lines| :: '\n' !in lines[i]
  }

  lemma {:induction false} SplitUnbroken(s: string)
    ensures Unbroken(Split(s))
  {
    if s != [] {
      SplitUnbroken(s[1..]);
    }
  }

  lemma {:induction false} JoinSplit(s: string)
    ensures Join(Split(s)) == s
  {
    if s != [] {
      var rest := Split(s[1..]);
      JoinSplit(s[1..]);
      if s[0] == '\n' {
        assert Split(s)[1..] == rest;
        assert s == "\n" + s[1..];
      } else {
        assert Split(s)[1..] == rest[1..];
        assert s == [s[0]] + s[1..];
      }
    }
  }

  lemma {:induction false} SplitOne(line: string)
    requires '\n' !in line
    ensures Split(line) == [line]
  {
    if line != [] {
      SplitOne(line[1..]);
      assert line == [line[0]] + line[1..];
    }
  }

  lemma {:induction false} SplitCons(line: string, rest: string)
    requires '\n' !in line
    ensures Split(line + "\n" + rest) == [line] + Split(rest)
  {
    var s := line + "\n" + rest;
    if line == [] {
      assert s[1..] == rest;
    } else {
      SplitCons(line[1..], rest);
      assert s[1..] == line[1..] + "\n" + rest;
      assert line == [line[0]] + line[1..];
    }
  }

  lemma {:induction false} SplitJoin(lines: seq<string>)
    requires lines != [] && Unbroken(lines)
    ensures Split(Join(lines)) == lines
  {
    if |lines| == 1 {
      SplitOne(lines[0]);
    } else {
      SplitJoin(lines[1..]);
      SplitCons(lines[0], Join(lines[1..]));
    }
  }

  /** A text that ends in a line break splits into its lines and an empty one. */
  lemma {:induction false} JoinThenBreak(lines: seq<string>)
    requires lines != []
    ensures Join(lines) + "\n" == Join(lines + [""])
  {
    if |lines| > 1 {
      JoinThenBreak(lines[1..]);
      assert (lines + [""])[1..] == lines[1..] + [""];
      assert lines[0] + "\n" + Join(lines[1..]) + "\n" == lines[0] + "\n" + (Join(lines[1..]) + "\n");
    } else {
      assert (lines + [""])[1..] == [""];
      assert lines[0] + "\n" + "" == lines[0] + "\n";
    }
  }

  // ---------------------------------------------------------------- white space

  /** `str.isspace`, which is also what `strip` drops and the pattern `\s` matches. */
  predicate IsSpace(c: char) {
    var n := c as int;
    || 9 <= n <= 13 || 28 <= n <= 32 || n == 133 || n == 160 || n == 5760 || 8192 <= n <= 8202
    || n == 8232 || n == 8233 || n == 8239 || n == 8287 || n == 12288
  }

  predicate IsDigit(c: char) { '0' <= c <= '9' }

  function RStrip(s: string): (r: string)
    ensures r <= s && (r != [] ==> !IsSpace(r[|r| - 1]))
  {
    if s != [] && IsSpace(s[|s| - 1]) then RStrip(s[..|s| - 1]) else s
  }

  function LStrip(s: string): (r: string)
    ensures r != [] ==> !IsSpace(r[0])
    ensures |r| <= |s| && r == s[|s| - |r|..]
  {
    if s != [] && IsSpace(s[0]) then LStrip(s[1..]) else s
  }

  function Strip(s: string): string { RStrip(LStrip(s)) }

  predicate Stripped(s: string) {
    s == [] || (!IsSpace(s[0]) && !IsSpace(s[|s| - 1]))
  }

  lemma StripIsStripped(s: string)
    ensures Stripped(Strip(s))
  {
  }

  lemma StripIdentity(s: string)
    requires Stripped(s)
    ensures Strip(s) == s
  {
  }

  lemma {:induction false} StripChars(s: string, c: char)
    requires c in Strip(s)
    ensures c in s
  {
    var l := LStrip(s);
    var i :| 0 <= i < |Strip(s)| && Strip(s)[i] == c;
    assert l[i] == c;
    assert s[|s| - |l| + i] == c;
  }

  predicate White(s: string) { forall i | 0 <= i < |s| :: IsSpace(s[i]) }

  lemma {:induction false} LStripWhite(a: string, rest: string)
    requires White(a) && (rest == "" || !IsSpace(rest[0]))
    ensures LStrip(a + rest) == rest
  {
    if a == "" {
      assert a + rest == rest;
    } else {
      assert (a + rest)[1..] == a[1..] + rest;
      LStripWhite(a[1..], rest);
    }
  }

  lemma {:induction false} RStripWhite(r: string, b: string)
    requires White(b) && (r == "" || !IsSpace(r[|r| - 1]))
    ensures RStrip(r + b) == r
  {
    if b == "" {
      assert r + b == r;
    } else {
      assert (r + b)[..|r + b| - 1] == r + b[..|b| - 1];
      RStripWhite(r, b[..|b| - 1]);
    }
  }

  /** What is stripped is the white space around it, and nothing else. */
  lemma StripOf(a: string, r: string, b: string)
    requires White(a) && White(b) && Stripped(r)
    ensures Strip(a + r + b) == r
  {
    if r == "" {
      assert a + r + b == (a + b) + "";
      assert White(a + b);
      LStripWhite(a + b, "");
    } else {
      assert a + r + b == a + (r + b);
      LStripWhite(a, r + b);
      RStripWhite(r, b);
    }
  }

  lemma {:induction false} StripKeepsInk(text: string, i: nat)
    requires i < |text| && !IsSpace(text[i])
    ensures Strip(text) != ""
  {
    LStripKeeps(text, i);
    var l := LStrip(text);
    RStripKeeps(l, |l| - (|text| - i));
  }

  lemma {:induction false} LStripKeeps(text: string, i: nat)
    requires i < |text| && !IsSpace(text[i])
    ensures |LStrip(text)| >= |text| - i
  {
    if IsSpace(text[0]) {
      LStripKeeps(text[1..], i - 1);
    }
  }

  lemma {:induction false} RStripKeeps(text: string, i: nat)
    requires i < |text| && !IsSpace(text[i])
    ensures |RStrip(text)| > i
  {
    if IsSpace(text[|text| - 1]) {
      RStripKeeps(text[..|text| - 1], i);
    }
  }
}
