// Systems of one wave running at once on shared component columns, one
// atomic step at a time, in whatever order the goroutines are scheduled.
module Concurrency {
  import opened Sequences
  import opened SchedulerTypes

  /** The contents of one component column, encoded as integers. */
  type Column = seq<int>

  /** One column for each component. */
  type Columns = c: seq<Column> | |c| == COMPONENT_COUNT witness seq(COMPONENT_COUNT, _ => [])

  /** A structural command: the archetypes it affects, and what it does. */
  datatype Command = Command(affected: seq<Mask>, payload: int)

  /**
   * What belongs to one running system: its variables, the commands it has staged, and whether it failed
   * or returned.
   */
  datatype Local = Local(memory: seq<int>, commands: seq<Command>, failed: bool, halted: bool)

  const START := Local([], [], false, false)

  /** One atomic step of a system; it may read and write columns and change what is its own. */
  type Program = (Local, Columns) -> (Local, Columns)

  predicate AgreeOn(mask: Mask, a: Columns, b: Columns) {
    forall c: Component :: c in mask ==> a[c] == b[c]
  }

  /** Two runs of the same step that start alike on the footprint end alike on it. */
  ghost predicate SameStep(footprint: Mask, program: Program, l: Local, a: Columns, b: Columns) {
    program(l, a).0 == program(l, b).0 && AgreeOn(footprint, program(l, a).1, program(l, b).1)
  }

  ghost predicate WritesOnly(writeMask: Mask, program: Program, l: Local, a: Columns) {
    forall c: Component :: c !in writeMask ==> program(l, a).1[c] == a[c]
  }

  /** The system keeps to its declaration: it depends on nothing outside its footprint and writes only what it says. */
  ghost predicate Obeys(access: AccessSpec, program: Program) {
    && (forall l, a, b {:trigger SameStep(access.Footprint(), program, l, a, b)} ::
          AgreeOn(access.Footprint(), a, b) ==> SameStep(access.Footprint(), program, l, a, b))
    && (forall l, a {:trigger WritesOnly(access.writeMask, program, l, a)} ::
        WritesOnly(access.writeMask, program, l, a))
  }

  /** A step of a system that has returned changes nothing. */
  function StepOf(program: Program, l: Local, columns: Columns): (Local, Columns) {
    if l.halted then (l, columns) else program(l, columns)
  }

  /** A system on its own for `steps` steps. */
  ghost function Solo(program: Program, columns: Columns, steps: nat): (Local, Columns) {
    if steps == 0 then (START, columns)
    else var s := Solo(program, columns, steps - 1); StepOf(program, s.0, s.1)
  }

  /** The systems of a wave at once: `schedule` says whose step is next. */
  ghost function Interleave(programs: seq<Program>, columns: Columns, schedule: seq<nat>): (r: (seq<Local>, Columns))
    ensures |r.0| == |programs|
  {
    if schedule == [] then (seq(|programs|, _ => START), columns)
    else
      var n := |schedule| - 1;
      var s := Interleave(programs, columns, schedule[..n]);
      var t := schedule[n];
      if t >= |programs| then s
      else var next := StepOf(programs[t], s.0[t], s.1); (s.0[t := next.0], next.1)
  }

  ghost function Turns(schedule: seq<nat>, t: nat): nat {
    if schedule == [] then 0
    else Turns(schedule[..|schedule| - 1], t) + (if schedule[|schedule| - 1] == t then 1 else 0)
  }

  /** At the start no system has done anything. */
  lemma StartExactly(programs: seq<Program>, columns: Columns, i: nat)
    requires i < |programs|
    ensures var (locals, now) := Interleave(programs, columns, []);
      && now == columns && locals[i].memory == [] && locals[i].commands == []
      && !locals[i].failed && !locals[i].halted
  {
  }

  /** A turn is one step of one system on the columns as they are, unless it has returned; nobody else moves. */
  lemma TurnExactly(programs: seq<Program>, columns: Columns, schedule: seq<nat>, t: nat)
    ensures var (locals, now) := Interleave(programs, columns, schedule);
      var (locals', now') := Interleave(programs, columns, schedule + [t]);
      && (t < |programs| && !locals[t].halted ==> (locals'[t], now') == programs[t](locals[t], now))
      && (t < |programs| && !locals[t].halted ==>
            forall i :: 0 <= i < |programs| && i != t ==> locals'[i] == locals[i])
      && (t >= |programs| || locals[t].halted ==> locals' == locals && now' == now)
  {
    InitOfAppend(schedule, [t]);
    AppendNothing(schedule);
  }

  ghost predicate AllHalted(locals: seq<Local>) {
    forall i :: 0 <= i < |locals| ==> locals[i].halted
  }

  /** Nobody writes what another one may look at. */
  ghost predicate Apart(accesses: seq<AccessSpec>) {
    forall i, j :: 0 <= i < |accesses| && 0 <= j < |accesses| && i != j ==>
        accesses[i].writeMask !! accesses[j].Footprint()
  }

  ghost predicate AllObey(accesses: seq<AccessSpec>, programs: seq<Program>) {
    |accesses| == |programs| && forall i :: 0 <= i < |programs| ==> Obeys(accesses[i], programs[i])
  }

  /** The i-th system sees and does exactly what it would alone. */
  ghost predicate AsAlone(access: AccessSpec, program: Program, start: Columns, l: Local, now: Columns, steps: nat) {
    var alone := Solo(program, start, steps);
    l == alone.0 && AgreeOn(access.Footprint(), now, alone.1)
  }

  ghost predicate UnwrittenKept(accesses: seq<AccessSpec>, start: Columns, now: Columns) {
    forall c: Component :: (forall i :: 0 <= i < |accesses| ==> c !in accesses[i].writeMask) ==> now[c] == start[c]
  }

  lemma OwnStep(access: AccessSpec, program: Program, start: Columns, l: Local, now: Columns, steps: nat)
    requires Obeys(access, program) && AsAlone(access, program, start, l, now, steps)
    ensures AsAlone(access, program, start, StepOf(program, l, now).0, StepOf(program, l, now).1, steps + 1)
  {
    var alone := Solo(program, start, steps);
    if !l.halted {
      assert SameStep(access.Footprint(), program, l, now, alone.1);
    }
  }

  lemma OthersStep(mine: AccessSpec, program: Program, start: Columns, l: Local, now: Columns, steps: nat,
                   other: AccessSpec, step: Program, l': Local)
    requires Obeys(other, step) && other.writeMask !! mine.Footprint()
    requires AsAlone(mine, program, start, l, now, steps)
    ensures AsAlone(mine, program, start, l, StepOf(step, l', now).1, steps)
  {
    assert WritesOnly(other.writeMask, step, l', now);
  }

  /** The heart of non-interference: at every moment of every schedule, each system is where it would be alone. */
  lemma {:induction false} InterleavedAsAlone(accesses: seq<AccessSpec>, programs: seq<Program>, start: Columns,
                                              schedule: seq<nat>)
    requires AllObey(accesses, programs) && Apart(accesses)
    ensures var s := Interleave(programs, start, schedule);
            && (forall i :: 0 <= i < |programs| ==>
                AsAlone(accesses[i], programs[i], start, s.0[i], s.1, Turns(schedule, i)))
            && UnwrittenKept(accesses, start, s.1)
  {
    if schedule != [] {
      var n := |schedule| - 1;
      var s := Interleave(programs, start, schedule[..n]);
      var t := schedule[n];
      InterleavedAsAlone(accesses, programs, start, schedule[..n]);
      if t < |programs| {
        var next := Interleave(programs, start, schedule);
        forall i | 0 <= i < |programs|
            ensures AsAlone(accesses[i], programs[i], start, next.0[i], next.1, Turns(schedule, i)) {
          assert AsAlone(accesses[i], programs[i], start, s.0[i], s.1, Turns(schedule[..n], i));
          if i == t {
            OwnStep(accesses[i], programs[i], start, s.0[i], s.1, Turns(schedule[..n], i));
          } else {
            OthersStep(accesses[i], programs[i], start, s.0[i], s.1, Turns(schedule[..n], i), accesses[t], programs[t],
                       s.0[t]);
          }
        }
        assert WritesOnly(accesses[t].writeMask, programs[t], s.0[t], s.1);
      }
    }
  }

  /** Once a system has returned, further turns change nothing. */
  lemma {:induction false} SoloStays(program: Program, start: Columns, m: nat, n: nat)
    requires m <= n && Solo(program, start, m).0.halted
    ensures Solo(program, start, n) == Solo(program, start, m)
    decreases n
  {
    if m < n {
      SoloStays(program, start, m, n - 1);
    }
  }

  lemma SoloFinal(program: Program, start: Columns, m: nat, n: nat)
    requires Solo(program, start, m).0.halted && Solo(program, start, n).0.halted
    ensures Solo(program, start, m) == Solo(program, start, n)
  {
    if m <= n {
      SoloStays(program, start, m, n);
    } else {
      SoloStays(program, start, n, m);
    }
  }

  /** A finished wave: every system has returned, where it would alone, and nothing else is written. */
  ghost predicate Finished(accesses: seq<AccessSpec>, programs: seq<Program>, start: Columns, locals: seq<Local>,
                           now: Columns)
    requires |accesses| == |programs|
  {
    && |locals| == |programs|
    && (forall i {:trigger locals[i]} :: 0 <= i < |programs| ==>
        EndsAlone(accesses[i], programs[i], start, locals[i], now))
    && UnwrittenKept(accesses, start, now)
  }

  ghost predicate EndsAlone(access: AccessSpec, program: Program, start: Columns, l: Local, now: Columns) {
    l.halted && exists steps :: WrittenAsAlone(access, program, start, l, now, steps)
  }

  ghost predicate WrittenAsAlone(access: AccessSpec, program: Program, start: Columns, l: Local, now: Columns,
                                 steps: nat) {
    var alone := Solo(program, start, steps);
    l == alone.0 && AgreeOn(access.writeMask, now, alone.1)
  }

  lemma InterleavedFinishes(accesses: seq<AccessSpec>, programs: seq<Program>, start: Columns, schedule: seq<nat>)
    requires AllObey(accesses, programs) && Apart(accesses)
    requires AllHalted(Interleave(programs, start, schedule).0)
    ensures var s := Interleave(programs, start, schedule); Finished(accesses, programs, start, s.0, s.1)
  {
    var s := Interleave(programs, start, schedule);
    InterleavedAsAlone(accesses, programs, start, schedule);
    forall i | 0 <= i < |programs| ensures EndsAlone(accesses[i], programs[i], start, s.0[i], s.1) {
      assert AsAlone(accesses[i], programs[i], start, s.0[i], s.1, Turns(schedule, i));
      assert WrittenAsAlone(accesses[i], programs[i], start, s.0[i], s.1, Turns(schedule, i));
    }
  }

  lemma SameEnd(access: AccessSpec, program: Program, start: Columns, la: Local, a: Columns, lb: Local, b: Columns)
    requires EndsAlone(access, program, start, la, a) && EndsAlone(access, program, start, lb, b)
    ensures la == lb && AgreeOn(access.writeMask, a, b)
  {
    var m :| WrittenAsAlone(access, program, start, la, a, m);
    var n :| WrittenAsAlone(access, program, start, lb, b, n);
    SoloFinal(program, start, m, n);
  }

  /** There is only one way for a wave to finish. */
  lemma FinishedIsUnique(accesses: seq<AccessSpec>, programs: seq<Program>, start: Columns,
                         la: seq<Local>, a: Columns, lb: seq<Local>, b: Columns)
    requires |accesses| == |programs|
    requires Finished(accesses, programs, start, la, a) && Finished(accesses, programs, start, lb, b)
    ensures la == lb && a == b
  {
    forall i | 0 <= i < |programs| ensures la[i] == lb[i] && AgreeOn(accesses[i].writeMask, a, b) {
      SameEnd(accesses[i], programs[i], start, la[i], a, lb[i], b);
    }
    forall c: Component ensures a[c] == b[c] {
      if i :| 0 <= i < |accesses| && c in accesses[i].writeMask {
        assert AgreeOn(accesses[i].writeMask, a, b);
      }
    }
    forall c | 0 <= c < |a| ensures a[c] == b[c] {
      var component: Component := c;
      assert a[component] == b[component];
    }
  }

  /** Any two schedules that let every system return give the same columns and the same commands. */
  lemma SchedulesAgree(accesses: seq<AccessSpec>, programs: seq<Program>, start: Columns, s1: seq<nat>, s2: seq<nat>)
    requires AllObey(accesses, programs) && Apart(accesses)
    requires AllHalted(Interleave(programs, start, s1).0) && AllHalted(Interleave(programs, start, s2).0)
    ensures Interleave(programs, start, s1) == Interleave(programs, start, s2)
  {
    InterleavedFinishes(accesses, programs, start, s1);
    InterleavedFinishes(accesses, programs, start, s2);
    var a, b := Interleave(programs, start, s1), Interleave(programs, start, s2);
    FinishedIsUnique(accesses, programs, start, a.0, a.1, b.0, b.1);
  }

  /** Starting alike on the footprint, a system alone does the same thing. */
  lemma {:induction false} SoloFromAlike(access: AccessSpec, program: Program, a: Columns, b: Columns, steps: nat)
    requires Obeys(access, program) && AgreeOn(access.Footprint(), a, b)
    ensures Solo(program, a, steps).0 == Solo(program, b, steps).0
    ensures AgreeOn(access.Footprint(), Solo(program, a, steps).1, Solo(program, b, steps).1)
  {
    if steps > 0 {
      SoloFromAlike(access, program, a, b, steps - 1);
      var sa, sb := Solo(program, a, steps - 1), Solo(program, b, steps - 1);
      assert SameStep(access.Footprint(), program, sa.0, sa.1, sb.1);
    }
  }

  /** A finished prefix of the wave followed by the next system on its own is a longer finished prefix. */
  lemma FinishedThenOne(accesses: seq<AccessSpec>, programs: seq<Program>, start: Columns, locals: seq<Local>,
                        mid: Columns,
                        access: AccessSpec, program: Program, l: Local, now: Columns)
    requires AllObey(accesses + [access], programs + [program]) && Apart(accesses + [access])
    requires |accesses| == |programs| && Finished(accesses, programs, start, locals, mid)
    requires Finished([access], [program], mid, [l], now)
    ensures Finished(accesses + [access], programs + [program], start, locals + [l], now)
  {
    var accesses', programs', locals' := accesses + [access], programs + [program], locals + [l];
    var n := |programs|;
    assert Obeys(accesses'[n], programs'[n]);
    assert EndsAlone([access][0], [program][0], mid, [l][0], now);
    assert EndsAlone(access, program, mid, l, now);
    var steps :| WrittenAsAlone(access, program, mid, l, now, steps);
    forall i | 0 <= i < n
        ensures accesses[i].writeMask !! access.Footprint() && access.writeMask !! accesses[i].Footprint() {
      assert accesses'[i] == accesses[i] && accesses'[n] == access;
    }
    assert AgreeOn(access.Footprint(), start, mid);
    SoloFromAlike(access, program, start, mid, steps);
    assert WrittenAsAlone(access, program, start, l, now, steps);
    assert forall c: Component :: c !in access.writeMask ==> now[c] == mid[c];
    forall i | 0 <= i < n + 1 ensures EndsAlone(accesses'[i], programs'[i], start, locals'[i], now) {
      if i < n {
        assert EndsAlone(accesses[i], programs[i], start, locals[i], mid);
        var k :| WrittenAsAlone(accesses[i], programs[i], start, locals[i], mid, k);
        assert accesses[i].writeMask !! access.writeMask;
        assert WrittenAsAlone(accesses[i], programs[i], start, locals[i], now, k);
      }
    }
    UnwrittenLonger(accesses, start, mid, access, now);
  }

  lemma UnwrittenLonger(accesses: seq<AccessSpec>, start: Columns, mid: Columns, access: AccessSpec, now: Columns)
    requires UnwrittenKept(accesses, start, mid)
    requires forall c: Component :: c !in access.writeMask ==> now[c] == mid[c]
    ensures UnwrittenKept(accesses + [access], start, now)
  {
    var longer := accesses + [access];
    forall c: Component | forall i :: 0 <= i < |longer| ==> c !in longer[i].writeMask ensures now[c] == start[c] {
      assert c !in longer[|accesses|].writeMask;
      forall i | 0 <= i < |accesses| ensures c !in accesses[i].writeMask {
        assert longer[i] == accesses[i];
      }
    }
  }
}
