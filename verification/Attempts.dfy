/** The attempt numbers of the claim edge (edge/claim/vexa_claim.py): a number is
    taken under a lock and its line is appended outside it, by any number of
    threads, any of which may fail to write it, in a process that may die and
    restart at any moment. */
module Attempts {
  import opened Wrappers

  /** One line of the log: `Unnumbered` is an object with no integer `seq`. */
  datatype Line<+E> = Blank | Junk | Unnumbered | Row(event: E, number: int)

  // ---------------------------------------------------------------- the file

  function NumberOf<E>(line: Line<E>): int {
    if line.Row? then line.number else 0
  }

  function Highest<E>(lines: seq<Line<E>>): (h: nat)
    ensures forall i | 0 <= i < |lines| && lines[i].Row? :: lines[i].number <= h
    ensures h != 0 ==> exists i :: 0 <= i < |lines| && lines[i].Row? && lines[i].number == h
  {
    if lines == [] then 0
    else
      var last, before := lines[|lines| - 1], Highest(lines[..|lines| - 1]);
      if last.Row? && last.number > before then last.number else before
  }

  /** The number handed out next; the first call after a start reads the log. */
  function NextSeq<E>(counter: Option<nat>, lines: seq<Line<E>>): nat {
    (if counter.Some? then counter.value else Highest(lines)) + 1
  }

  class AttemptLog<E> {
    var lines: seq<Line<E>>
    var counter: Option<nat>

    constructor (lines: seq<Line<E>>)
      ensures this.lines == lines && counter == None
    {
      this.lines, counter := lines, None;
    }

    method LastSeq() returns (highest: nat)
      ensures highest == Highest(lines)
    {
      highest := 0;
      for i := 0 to |lines|
        invariant highest == Highest(lines[..i])
      {
        assert lines[..i + 1][..i] == lines[..i];
        if lines[i].Row? && lines[i].number > highest {
          highest := lines[i].number;
        }
      }
      assert lines[..|lines|] == lines;
    }

    method Next() returns (number: nat)
      modifies this`counter
      ensures number == NextSeq(old(counter), lines) && counter == Some(number)
    {
      if counter.Some? {
        number := counter.value;
      } else {
        number := LastSeq();
      }
      number := number + 1;
      counter := Some(number);
    }

    method Append(event: E)
      modifies this
      ensures var number := NextSeq(old(counter), old(lines));
              counter == Some(number) && lines == old(lines) + [Row(event, number)]
    {
      var number := Next();
      lines := lines + [Row(event, number)];
    }
  }

  // ---------------------------------------------------------------- many threads

  type Thread = nat

  /** `inflight` holds the numbers taken and not yet written; `lost` is history:
      the numbers below the top that a crash or a failed write kept from ever being
      written. */
  datatype Machine<E> = Machine(lines: seq<Line<E>>, counter: Option<nat>,
                                inflight: map<Thread, Line<E>>, lost: set<nat>)

  /** `Fail`: the append raises, and the request ends with its number taken. */
  datatype Step<E> = Allocate(thread: Thread, event: E) | Write(thread: Thread) | Fail(thread: Thread) | Crash

  function Start<E>(): Machine<E> {
    Machine([], None, map[], {})
  }

  function Top<E>(m: Machine<E>): nat {
    if m.counter.Some? then m.counter.value else Highest(m.lines)
  }

  ghost function Apply<E>(m: Machine<E>, step: Step<E>): Machine<E> {
    match step
    case Allocate(thread, event) =>
      if thread in m.inflight then m
      else
        var number := NextSeq(m.counter, m.lines);
        m.(counter := Some(number), inflight := m.inflight[thread := Row(event, number)])
    case Write(thread) =>
      if thread !in m.inflight then m
      else m.(lines := m.lines + [m.inflight[thread]], inflight := m.inflight - {thread})
    case Fail(thread) =>
      if thread !in m.inflight then m
      else
        var number := NumberOf(m.inflight[thread]);
        m.(inflight := m.inflight - {thread}, lost := if number < 0 then m.lost else m.lost + {number})
    case Crash =>
      var top := Highest(m.lines);
      m.(counter := None, inflight := map[],
         lost := set n | 1 <= n <= top && (n in m.lost || InFlight(m, n)))
  }

  ghost function Run<E>(m: Machine<E>, steps: seq<Step<E>>): Machine<E>
    decreases |steps|
  {
    if steps == [] then m else Run(Apply(m, steps[0]), steps[1..])
  }

  ghost predicate Written<E>(m: Machine<E>, n: int) {
    exists i :: 0 <= i < |m.lines| && m.lines[i].Row? && m.lines[i].number == n
  }

  ghost predicate InFlight<E>(m: Machine<E>, n: int) {
    exists t :: t in m.inflight && m.inflight[t].Row? && m.inflight[t].number == n
  }

  ghost predicate DistinctLines<E>(m: Machine<E>) {
    forall i, j | 0 <= i < j < |m.lines| && m.lines[i].Row? && m.lines[j].Row? :: m.lines[i].number != m.lines[j].number
  }

  ghost predicate DistinctThreads<E>(m: Machine<E>) {
    forall t, u | t in m.inflight && u in m.inflight && t != u ::
      NumberOf(m.inflight[t]) != NumberOf(m.inflight[u])
  }

  /** Every number up to the top is written once, or in flight in one thread, or
      lost to a crash or a failed write; the three never overlap, and nothing is above the top. */
  ghost predicate Partition<E>(m: Machine<E>) {
    && DistinctLines(m) && DistinctThreads(m)
    && (forall i | 0 <= i < |m.lines| :: m.lines[i].Row? && 1 <= m.lines[i].number <= Top(m))
    && (forall t | t in m.inflight :: m.inflight[t].Row? && 1 <= m.inflight[t].number <= Top(m))
    && (forall n | n in m.lost :: 1 <= n <= Top(m))
    && (forall n: int :: 1 <= n <= Top(m) ==> Written(m, n) || InFlight(m, n) || n in m.lost)
    && (forall n: int :: Written(m, n) ==> !InFlight(m, n) && n !in m.lost)
    && (forall n: int :: InFlight(m, n) ==> n !in m.lost)
    && (m.counter.None? ==> m.inflight == map[])
  }

  lemma AllocateKeeps<E>(m: Machine<E>, thread: Thread, event: E)
    requires Partition(m) && thread !in m.inflight
    ensures var v := Apply(m, Allocate(thread, event));
            && Partition(v)
            && !Written(m, Top(v)) && !InFlight(m, Top(v)) && Top(v) == Top(m) + 1
  {
    var v := Apply(m, Allocate(thread, event));
    forall n: int ensures InFlight(v, n) <==> InFlight(m, n) || n == Top(v) {
      if InFlight(m, n) {
        var t :| t in m.inflight && m.inflight[t].Row? && m.inflight[t].number == n;
        assert v.inflight[t] == m.inflight[t];
      }
      assert v.inflight[thread].number == Top(v);
    }
    forall n: int ensures Written(v, n) <==> Written(m, n) {}
  }

  lemma WriteKeeps<E>(m: Machine<E>, thread: Thread)
    requires Partition(m) && thread in m.inflight
    ensures Partition(Apply(m, Write(thread)))
  {
    var v, line := Apply(m, Write(thread)), m.inflight[thread];
    assert InFlight(m, line.number);
    assert !Written(m, line.number);
    forall n: int ensures Written(v, n) <==> Written(m, n) || n == line.number {
      if Written(m, n) {
        var i :| 0 <= i < |m.lines| && m.lines[i].Row? && m.lines[i].number == n;
        assert v.lines[i] == m.lines[i];
      }
      assert v.lines[|m.lines|] == line;
    }
    forall n: int ensures InFlight(v, n) <==> InFlight(m, n) && n != line.number {
      if InFlight(m, n) && n != line.number {
        var t :| t in m.inflight && m.inflight[t].Row? && m.inflight[t].number == n;
        assert t in v.inflight;
      }
    }
    forall i, j | 0 <= i < j < |v.lines| ensures v.lines[i].number != v.lines[j].number {
      if j == |m.lines| {
        assert Written(m, v.lines[i].number);
      }
    }
    assert m.counter.Some?;
  }

  lemma FailKeeps<E>(m: Machine<E>, thread: Thread)
    requires Partition(m) && thread in m.inflight
    ensures Partition(Apply(m, Fail(thread)))
  {
    var v, line := Apply(m, Fail(thread)), m.inflight[thread];
    assert InFlight(m, line.number);
    forall n: int ensures Written(v, n) <==> Written(m, n) {}
    forall n: int ensures InFlight(v, n) <==> InFlight(m, n) && n != line.number {
      if InFlight(m, n) && n != line.number {
        var t :| t in m.inflight && m.inflight[t].Row? && m.inflight[t].number == n;
        assert t in v.inflight;
      }
    }
  }

  lemma CrashKeeps<E>(m: Machine<E>)
    requires Partition(m)
    ensures Partition(Apply(m, Crash))
  {
    var v := Apply(m, Crash);
    forall n: int ensures Written(v, n) <==> Written(m, n) {}
    forall n: int ensures !InFlight(v, n) {}
    forall n: int | 1 <= n <= Top(v) ensures Written(v, n) || n in v.lost {
      if Highest(m.lines) > 0 {
        var i :| 0 <= i < |m.lines| && m.lines[i].Row? && m.lines[i].number == Highest(m.lines);
        assert Highest(m.lines) <= Top(m);
      }
    }
  }

  lemma {:induction false} RunKeeps<E>(m: Machine<E>, steps: seq<Step<E>>)
    requires Partition(m)
    ensures Partition(Run(m, steps))
    decreases |steps|
  {
    if steps != [] {
      match steps[0] {
        case Allocate(thread, event) => if thread !in m.inflight { AllocateKeeps(m, thread, event); }
        case Write(thread) => if thread in m.inflight { WriteKeeps(m, thread); }
        case Fail(thread) => if thread in m.inflight { FailKeeps(m, thread); }
        case Crash => CrashKeeps(m);
      }
      RunKeeps(Apply(m, steps[0]), steps[1..]);
    }
  }

  /** Whatever the threads interleave and wherever the process dies: no two lines
      share a number, and every number handed out is new to the log and to every
      other thread. */
  lemma NumbersAreUnique<E>(steps: seq<Step<E>>, thread: Thread, event: E)
    ensures var m := Run(Start<E>(), steps);
            && DistinctLines(m) && DistinctThreads(m)
            && (forall n: int :: Written(m, n) ==> !InFlight(m, n))
            && (thread !in m.inflight ==>
                  var number := NextSeq(m.counter, m.lines);
                  !Written(m, number) && !InFlight(m, number))
  {
    var m := Run(Start<E>(), steps);
    RunKeeps(Start<E>(), steps);
    if thread !in m.inflight {
      AllocateKeeps(m, thread, event);
    }
  }

  // ---------------------------------------------------------------- gaps

  /** No crash, and no write that failed. */
  predicate Smooth<E>(steps: seq<Step<E>>) {
    forall i | 0 <= i < |steps| :: !steps[i].Crash? && !steps[i].Fail?
  }

  lemma {:induction false} SmoothLosesNothing<E>(m: Machine<E>, steps: seq<Step<E>>)
    requires Smooth(steps)
    ensures Run(m, steps).lost == m.lost
    decreases |steps|
  {
    if steps != [] {
      SmoothLosesNothing(Apply(m, steps[0]), steps[1..]);
    }
  }

  /** A number up to the top is missing from the log exactly when it is still in
      flight, or its write failed, or a crash caught it in flight: with no crash, no
      failed write and nothing in flight, the log holds every number from one to the
      top. */
  lemma GapIff<E>(steps: seq<Step<E>>, n: int)
    requires 1 <= n <= Top(Run(Start<E>(), steps))
    ensures var m := Run(Start<E>(), steps); !Written(m, n) <==> InFlight(m, n) || n in m.lost
    ensures Smooth(steps) && Run(Start<E>(), steps).inflight == map[]
            ==> Written(Run(Start<E>(), steps), n)
  {
    RunKeeps(Start<E>(), steps);
    if Smooth(steps) {
      SmoothLosesNothing(Start<E>(), steps);
    }
  }

  /** A gap with no crash at all: one write failed and the service went on. */
  lemma FailedWriteLeavesGap<E>(event: E)
    ensures Run(Start<E>(), [Allocate(0, event), Fail(0), Allocate(0, event), Write(0)])
            == Machine([Row(event, 2)], Some(2), map[], {1})
  {
    var steps := [Allocate(0, event), Fail(0), Allocate(0, event), Write(0)];
    var m1 := Apply(Start<E>(), Allocate(0, event));
    var m2 := Apply(m1, Fail(0));
    assert m2 == Machine([], Some(1), map[], {1});
    var m3 := Apply(m2, Allocate(0, event));
    assert m3.inflight == map[0 := Row(event, 2)];
    var m4 := Apply(m3, Write(0));
    assert m4.inflight == map[] && m4.lines == [Row(event, 2)];
    RunThree(Start<E>(), steps);
    assert Run(m3, steps[3..]) == Run(m4, steps[3..][1..]);
  }

  function GapSteps<E>(event: E): seq<Step<E>> {
    [Allocate(0, event), Allocate(1, event), Write(1), Crash, Allocate(0, event), Write(0)]
  }

  /** A gap need not be a line that left the file: here number 1 was never in it. */
  lemma GapNeverWritten<E>(event: E)
    ensures Run(Start<E>(), GapSteps(event)) == Machine([Row(event, 2), Row(event, 3)], Some(3), map[], {1})
  {
    var steps := GapSteps(event);
    RunSix(Start<E>(), steps);
    CrashLosesOne(event);
    RestartGoesOn(event);
  }

  lemma RestartGoesOn<E>(event: E)
    ensures Apply(Apply(Machine([Row(event, 2)], None, map[], {1}), Allocate(0, event)), Write(0))
            == Machine([Row(event, 2), Row(event, 3)], Some(3), map[], {1})
  {
    var m4 := Machine([Row(event, 2)], None, map[], {1});
    assert m4.lines[..0] == [] && Highest(m4.lines) == 2;
    var m5 := Apply(m4, Allocate(0, event));
    assert m5.inflight == map[0 := Row(event, 3)];
    var m6 := Apply(m5, Write(0));
    assert m6.lines == [Row(event, 2), Row(event, 3)] && m6.inflight == map[];
  }

  lemma CrashLosesOne<E>(event: E)
    ensures Apply(Apply(Apply(Apply(Start(), Allocate(0, event)), Allocate(1, event)), Write(1)), Crash)
            == Machine([Row(event, 2)], None, map[], {1})
  {
    var m2 := Apply(Apply(Start(), Allocate(0, event)), Allocate(1, event));
    assert m2.inflight == map[0 := Row(event, 1), 1 := Row(event, 2)];
    var m3 := Apply(m2, Write(1));
    assert m3.lines == [Row(event, 2)] && m3.inflight == map[0 := Row(event, 1)];
    assert m3.lines[..0] == [] && Highest(m3.lines) == 2;
    assert InFlight(m3, 1) by {
      assert m3.inflight[0].number == 1;
    }
  }

  lemma {:induction false} RunConcat<E>(m: Machine<E>, a: seq<Step<E>>, b: seq<Step<E>>)
    ensures Run(m, a + b) == Run(Run(m, a), b)
    decreases |a|
  {
    if a == [] {
      assert a + b == b;
    } else {
      assert (a + b)[0] == a[0] && (a + b)[1..] == a[1..] + b;
      RunConcat(Apply(m, a[0]), a[1..], b);
    }
  }

  lemma RunSix<E>(m: Machine<E>, s: seq<Step<E>>)
    requires |s| == 6
    ensures Run(m, s) == Apply(Apply(Apply(Apply(Apply(Apply(m, s[0]), s[1]), s[2]), s[3]), s[4]), s[5])
  {
    RunThree(m, s);
    RunThree(Run(m, s[..3]), s[3..]);
    assert s[3..][3..] == [];
  }

  lemma RunThree<E>(m: Machine<E>, s: seq<Step<E>>)
    requires |s| >= 3
    ensures Run(m, s[..3]) == Apply(Apply(Apply(m, s[0]), s[1]), s[2])
    ensures Run(m, s) == Run(Run(m, s[..3]), s[3..])
  {
    var m1 := Apply(m, s[0]);
    var m2 := Apply(m1, s[1]);
    var m3 := Apply(m2, s[2]);
    assert Run(m, s) == Run(m1, s[1..]);
    assert s[1..][1..] == s[2..] && s[1..][0] == s[1];
    assert Run(m1, s[1..]) == Run(m2, s[2..]);
    assert s[2..][1..] == s[3..] && s[2..][0] == s[2];
    assert Run(m2, s[2..]) == Run(m3, s[3..]);
    var t := s[..3];
    assert Run(m, t) == Run(m1, t[1..]);
    assert t[1..][1..] == t[2..] && t[1..][0] == s[1];
    assert Run(m1, t[1..]) == Run(m2, t[2..]);
    assert t[2..][1..] == [] && t[2..][0] == s[2];
    assert Run(m2, t[2..]) == m3;
  }
}
