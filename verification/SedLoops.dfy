/** Scripts that read within a cycle, begin it again, or branch, on whole streams. */
module SedLoops {
  import opened Options
  import R = SedRanges
  import S = SedSubsts
  import opened SedMachines
  import opened SedReplaces
  import opened SedPrograms
  import opened SedScripts

  // ----- Reading within a cycle ---------------------------------------------------------------

  lemma AtLineStays(env: Env, rs: seq<Rec>, k: nat, m: State, n: State)
    requires AtLine(env, rs, k, m) && n == m.(ranges := n.ranges, out := n.out, pendingNl := n.pendingNl)
    ensures AtLine(env, rs, k, n)
  {}

  lemma NothingQueued(env: Env, m: State)
    requires m.queue == []
    ensures FlushAppends(env, m) == m
  {}

  /** `n` prints the line and goes to the next, or ends the run. */
  lemma NextGoesOn(env: Env, rs: seq<Rec>, k: nat, m: State, outs: seq<Rec>)
    requires Sound(env) && !env.quiet && AtLine(env, rs, k, m) && Wrote(env, m, outs)
    ensures var c := SedMachines.Step(env, Next, true, m); var shown := outs + [Rec(m.ps, m.psDelim)];
      if k < |rs| then c.Go? && AtLine(env, rs, k + 1, c.m) && Wrote(env, c.m, shown)
      else c.Stop? && c.o.StreamEnd? && Wrote(env, c.o.m, shown) && c.o.m.quit == None && c.o.m.queue == []
  {
    hide OutRecord, NextRecord, FlushAppends, AtLine, Wrote;
    var m1 := OutRecord(env, m, m.ps, m.psDelim);
    AtLineIs(env, rs, k, m);
    RecordWritten(env, m, outs, m.ps, m.psDelim);
    OutRecordIs(env, m, m.ps, m.psDelim);
    AtLineStays(env, rs, k, m, m1);
    NothingQueued(env, m1);
    AtLineRefills(env, rs, k, m1);
    if k < |rs| { WroteStays(env, m1, NextRecord(env, m1).value, outs + [Rec(m.ps, m.psDelim)]); }
  }

  lemma AtLineRefills(env: Env, rs: seq<Rec>, k: nat, m: State)
    requires AtLine(env, rs, k, m)
    ensures var n := NextRecord(env, m);
      if k < |rs| then
        n.Some? && AtLine(env, rs, k + 1, n.value) && n.value.out == m.out && n.value.pendingNl == m.pendingNl
        && n.value.hs == m.hs && n.value.hsDelim == m.hsDelim && !n.value.tflag
      else n.None?
  {
    hide NextRecord;
    Refills(env, rs, k, m);
    FlagDown(env, m);
  }

  /** `N` puts a delimiter and the next line behind the line. */
  lemma NextAppends(env: Env, rs: seq<Rec>, k: nat, m: State, outs: seq<Rec>)
    requires Sound(env) && AtLine(env, rs, k, m) && Wrote(env, m, outs) && k < |rs|
    ensures var c := SedMachines.Step(env, NextAppend, true, m);
      && c.Go? && c.m.ps == m.ps + [env.delim] + rs[k].text && !c.m.tflag && Wrote(env, c.m, outs)
      && AtLine(env, rs, k + 1, c.m.(ps := rs[k].text))
  {
    hide NextRecord, FlushAppends, Wrote;
    NothingQueued(env, m);
    AtLineRefills(env, rs, k, m);
    var n := NextRecord(env, m).value;
    WroteStays(env, m, n.(ps := m.ps + [env.delim] + n.ps), outs);
    assert n.(ps := m.ps + [env.delim] + n.ps).(ps := rs[k].text) == n;
  }

  // ----- `n;d` --------------------------------------------------------------------------------

  const ODD := One(ALWAYS, Next, One(ALWAYS, Delete, End))

  function OddPlan(rs: seq<Rec>): Plan { EachLine(|rs|, Copies(rs)).(step := 2) }

  /** One round: line `k` is printed, and the line behind it is not. */
  lemma OddRound(env: Env, rs: seq<Rec>, k: nat, m: State, outs: seq<Rec>)
    requires Sound(env) && !env.quiet && AtLine(env, rs, k, m) && Wrote(env, m, outs)
    ensures LegalScript(ODD)
    ensures var next := SedMachines.After(env, SedMachines.Run(env, ODD, 0, m));
      && Wrote(env, next.m, outs + [Rec(m.ps, m.psDelim)])
      && if k + 2 <= |rs| then next.Top? && AtLine(env, rs, k + 2, next.m) && !next.m.tflag
         else next.Over? && next.m.quit == None
  {
    hide SedMachines.Run, SedMachines.Step, AtLine, Wrote, Shown, NextCycle, FlushAppends;
    var outs1 := outs + [Rec(m.ps, m.psDelim)];
    AtLineIs(env, rs, k, m);
    var m1 := RunAlways(env, ODD, 0, m);
    AtLineStays(env, rs, k, m, m1);
    WroteStays(env, m, m1, outs);
    NextGoesOn(env, rs, k, m1, outs);
    var c := SedMachines.Step(env, Next, true, m1);
    if k < |rs| {
      var m2 := RunAlways(env, ODD.rest, 1, c.m);
      Steps(env, m2);
      AtLineIs(env, rs, k + 1, c.m);
      WroteStays(env, c.m, m2, outs1);
      ShownPlain(env, m2, false);
      assert outs1 + [] == outs1;
      CycleOver(env, rs, k + 1, c.m, m2, false, outs1);
    } else {
      NothingQueued(env, c.o.m);
    }
  }

  lemma OddKeeps(env: Env, rs: seq<Rec>, k: nat, m: State, outs: seq<Rec>)
    requires Sound(env) && !env.quiet
    ensures LegalScript(ODD) && Keeps(env, ODD, rs, OddPlan(rs), k, m, outs)
  {
    hide SedMachines.Run, SedMachines.After, AtLine, Wrote;
    if AtLine(env, rs, k, m) && Wrote(env, m, outs) {
      AtLineIs(env, rs, k, m);
      OddRound(env, rs, k, m, outs);
    }
  }

  lemma {:induction false} FromOdd(p: Plan, k: nat, rs: seq<Rec>)
    requires p.step == 2 && p.stop == |rs| && p.emit == Copies(rs) && 0 < k <= |rs| + 2
    ensures var outs := From(p, k);
      |outs| == (|rs| + 2 - k) / 2 && forall i :: 0 <= i < |outs| ==> outs[i] == rs[k - 1 + 2 * i]
    decreases |rs| + 2 - k
  {
    if k <= |rs| {
      FromOdd(p, k + 2, rs);
      assert From(p, k) == [rs[k - 1]] + From(p, k + 2);
    }
  }

  /** `n;d` keeps exactly the lines 1, 3, 5 and so on. */
  lemma OddLinesStay(env: Env, rs: seq<Rec>, fuel: nat) returns (outs: seq<Rec>)
    requires Sound(env) && !env.quiet && rs != [] && fuel >= |rs|
    ensures LegalScript(ODD) && var r := RunStream(env, Tree(ODD), fuel, rs);
      r.Done? && Wrote(env, r.m, outs) && r.m.quit == None
    ensures |outs| == (|rs| + 1) / 2 && forall i :: 0 <= i < |outs| ==> outs[i] == rs[2 * i]
  {
    hide Keeps, RunStream, Wrote, From;
    var p := OddPlan(rs);
    forall k, m, outs1 ensures Keeps(env, ODD, rs, p, k, m, outs1) { OddKeeps(env, rs, k, m, outs1); }
    RunsThrough(env, ODD, rs, p, fuel);
    outs := From(p, 1);
    FromOdd(p, 1, rs);
  }

  // ----- `N` ----------------------------------------------------------------------------------

  const PAIRS := One(ALWAYS, NextAppend, End)

  /** Two lines as one; a last line alone is printed, but for POSIX mode. */
  function PairAt(env: Env, rs: seq<Rec>): nat -> seq<Rec> {
    (k: nat) =>
      if 0 < k < |rs| then [Rec(rs[k - 1].text + [env.delim] + rs[k].text, rs[k].delim)]
      else if env.posix then [] else [Nth(rs, k)]
  }

  function PairsPlan(env: Env, rs: seq<Rec>): Plan { EachLine(|rs|, PairAt(env, rs)).(step := 2) }

  /** `N` without input ends the run. */
  lemma NextAppendEnds(env: Env, rs: seq<Rec>, m: State)
    requires Sound(env) && AtLine(env, rs, |rs|, m)
    ensures SedMachines.Step(env, NextAppend, true, m) == Stop(Final(m, !env.posix))
  {
    hide NextRecord, FlushAppends;
    NothingQueued(env, m);
    AtLineRefills(env, rs, |rs|, m);
  }

  lemma PairsKeeps(env: Env, rs: seq<Rec>, k: nat, m: State, outs: seq<Rec>)
    requires Sound(env) && !env.quiet
    ensures LegalScript(PAIRS) && Keeps(env, PAIRS, rs, PairsPlan(env, rs), k, m, outs)
  {
    hide SedMachines.Run, SedMachines.Step, AtLine, Wrote, Shown, NextCycle, CycleEnd;
    if AtLine(env, rs, k, m) && Wrote(env, m, outs) {
      AtLineIs(env, rs, k, m);
      var m1 := RunOne(env, PAIRS, 0, m);
      AtLineStays(env, rs, k, m, m1);
      WroteStays(env, m, m1, outs);
      if k < |rs| {
        NextAppends(env, rs, k, m1, outs);
        var s := SedMachines.Step(env, NextAppend, true, m1).m;
        AtLineIs(env, rs, k + 1, s.(ps := rs[k].text));
        RunEnd(env, 1, s);
        ShownPlain(env, s, true);
        CycleOver(env, rs, k + 1, s.(ps := rs[k].text), s, true, outs);
      } else {
        NextAppendEnds(env, rs, m1);
        ShownPlain(env, m1, !env.posix);
        CycleEndWrote(env, m1, !env.posix, outs);
      }
    }
  }

  /** What stands for the pair that begins at line `k`. */
  predicate IsPair(env: Env, rs: seq<Rec>, k: nat, r: Rec) {
    if 0 < k < |rs| then r == Rec(rs[k - 1].text + [env.delim] + rs[k].text, rs[k].delim)
    else k == |rs| && k > 0 && r == rs[k - 1]
  }

  lemma PairAtIs(env: Env, rs: seq<Rec>, k: nat)
    requires 0 < k <= |rs|
    ensures var outs := PairAt(env, rs)(k);
      if k == |rs| && env.posix then outs == [] else |outs| == 1 && IsPair(env, rs, k, outs[0])
  {}

  lemma {:induction false} FromPairAt(env: Env, p: Plan, k: nat, rs: seq<Rec>)
    requires p.step == 2 && p.stop == |rs| && p.emit == PairAt(env, rs) && 0 < k <= |rs| + 2
    ensures var outs := From(p, k);
      && |outs| == (if k > |rs| then 0 else (|rs| + (if env.posix then 1 else 2) - k) / 2)
      && forall i :: 0 <= i < |outs| ==> IsPair(env, rs, k + 2 * i, outs[i])
    decreases |rs| + 2 - k
  {
    hide PairAt, IsPair;
    if k <= |rs| {
      PairAtIs(env, rs, k);
      FromPairAt(env, p, k + 2, rs);
      var head, tail := p.emit(k), From(p, k + 2);
      assert From(p, k) == head + tail;
      forall i | 0 <= i < |head + tail| ensures IsPair(env, rs, k + 2 * i, (head + tail)[i]) {
        if head != [] && i > 0 { assert (head + tail)[i] == tail[i - 1] && k + 2 * i == k + 2 + 2 * (i - 1); }
      }
    }
  }

  /** `N` joins lines 1 and 2, 3 and 4, and so on; an odd last line is printed as it is, and in POSIX mode not at
      all. */
  lemma PairsJoin(env: Env, rs: seq<Rec>, fuel: nat) returns (outs: seq<Rec>)
    requires Sound(env) && !env.quiet && rs != [] && fuel >= |rs|
    ensures LegalScript(PAIRS) && var r := RunStream(env, Tree(PAIRS), fuel, rs);
      r.Done? && Wrote(env, r.m, outs) && r.m.quit == None
    ensures |outs| == if env.posix then |rs| / 2 else (|rs| + 1) / 2
    ensures forall i :: 0 <= i < |outs| ==> IsPair(env, rs, 1 + 2 * i, outs[i])
  {
    hide Keeps, RunStream, Wrote, From;
    var p := PairsPlan(env, rs);
    forall k, m, outs1 ensures Keeps(env, PAIRS, rs, p, k, m, outs1) { PairsKeeps(env, rs, k, m, outs1); }
    RunsThrough(env, PAIRS, rs, p, fuel);
    outs := From(p, 1);
    FromPairAt(env, p, 1, rs);
  }

  // ----- `$!N;P;D` ----------------------------------------------------------------------------

  const PAIRWISE := One(NOT_LAST, NextAppend, PAIR_PRINT)
  const PAIR_PRINT := One(ALWAYS, PrintFirst, One(ALWAYS, DeleteFirst, End))

  /** The lines of `rs` with all their delimiters. */
  function Whole(rs: seq<Rec>): (outs: seq<Rec>)
  { seq(|rs|, i requires 0 <= i < |rs| => Rec(rs[i].text, true)) }

  lemma {:induction false} FirstLineOf(s: string, rest: string, d: char)
    requires d !in s && (rest == "" || rest[0] == d)
    ensures FirstLine(s + rest, d) == |s|
  {
    if s == [] {
      assert s + rest == rest;
    } else {
      assert (s + rest)[1..] == s[1..] + rest;
      FirstLineOf(s[1..], rest, d);
    }
  }

  /** `P` and `D` on a line that has the next one behind it, or on the last. */
  lemma PrintsAndDeletes(env: Env, m: State, s: string, rest: string, outs: seq<Rec>)
    requires Sound(env) && env.delim !in s && m.ps == s + rest && (rest == "" || rest[0] == env.delim)
    requires Wrote(env, m, outs)
    ensures LegalScript(PAIR_PRINT)
    ensures var o := SedMachines.Run(env, PAIR_PRINT, 1, m);
      Wrote(env, o.m, outs + [Rec(s, true)])
    ensures var o := SedMachines.Run(env, PAIR_PRINT, 1, m);
      var n := m.(ranges := o.m.ranges, out := o.m.out, pendingNl := o.m.pendingNl);
      o == if rest == "" then EndCycle(n, false) else Restart(n.(ps := rest[1..]))
  {
    hide SedMachines.Run, SedMachines.Step, Wrote, OutRecord;
    FirstLineOf(s, rest, env.delim);
    assert (s + rest)[..|s|] == s && (rest != "" ==> (s + rest)[|s| + 1..] == rest[1..]);
    var m1 := RunOne(env, PAIR_PRINT, 1, m);
    WroteStays(env, m, m1, outs);
    RecordWritten(env, m1, outs, s, true);
    OutRecordIs(env, m1, s, true);
    PrintFirstIs(env, m1);
    var w := OutRecord(env, m1, s, true);
    var m2 := RunOne(env, PAIR_PRINT.rest, 2, w);
    DeleteFirstIs(env, m2);
    WroteStays(env, w, SedMachines.Run(env, PAIR_PRINT, 1, m).m, outs + [Rec(s, true)]);
  }

  lemma PrintFirstIs(env: Env, m: State)
    requires Sound(env)
    ensures SedMachines.Step(env, PrintFirst, true, m)
         == Go(OutRecord(env, m, m.ps[..FirstLine(m.ps, env.delim)], true))
  { hide OutRecord; }

  lemma DeleteFirstIs(env: Env, m: State)
    requires Sound(env)
    ensures var n := FirstLine(m.ps, env.delim);
      SedMachines.Step(env, DeleteFirst, true, m)
      == Stop(if n == |m.ps| then EndCycle(m, false) else Restart(m.(ps := m.ps[n + 1..])))
  {}

  /** Before the last line, the line is printed and the cycle begins again with the next. */
  lemma PairwiseGoesOn(env: Env, rs: seq<Rec>, k: nat, m: State, outs: seq<Rec>)
    requires Sound(env) && env.lookahead && AtLine(env, rs, k, m) && Wrote(env, m, outs)
    requires k < |rs| && env.delim !in m.ps
    ensures LegalScript(PAIRWISE)
    ensures var o := SedMachines.Run(env, PAIRWISE, 0, m);
      o.Restart? && AtLine(env, rs, k + 1, o.m) && !o.m.tflag && Wrote(env, o.m, outs + [Rec(m.ps, true)])
  {
    hide SedMachines.Run, SedMachines.Step, AtLine, Wrote;
    AtLineIs(env, rs, k, m);
    var m1 := RunOne(env, PAIRWISE, 0, m);
    WroteStays(env, m, m1, outs);
    AtLineStays(env, rs, k, m, m1);
    NextAppends(env, rs, k, m1, outs);
    var c := SedMachines.Step(env, NextAppend, true, m1);
    assert m.ps + [env.delim] + rs[k].text == m.ps + ([env.delim] + rs[k].text);
    PrintsAndDeletes(env, c.m, m.ps, [env.delim] + rs[k].text, outs);
    AtLineStays(env, rs, k + 1, c.m.(ps := rs[k].text), SedMachines.Run(env, PAIR_PRINT, 1, c.m).m);
  }

  /** The last line is printed alone. */
  lemma PairwiseEnds(env: Env, rs: seq<Rec>, m: State, outs: seq<Rec>)
    requires Sound(env) && env.lookahead && AtLine(env, rs, |rs|, m) && Wrote(env, m, outs) && env.delim !in m.ps
    ensures LegalScript(PAIRWISE)
    ensures var o := SedMachines.Run(env, PAIRWISE, 0, m);
      && o == EndCycle(m.(ranges := o.m.ranges, out := o.m.out, pendingNl := o.m.pendingNl), false)
      && Wrote(env, o.m, outs + [Rec(m.ps, true)])
  {
    hide SedMachines.Run, SedMachines.Step, AtLine, Wrote;
    AtLineIs(env, rs, |rs|, m);
    var m1 := RunOne(env, PAIRWISE, 0, m);
    WroteStays(env, m, m1, outs);
    assert m.ps == m.ps + "";
    PrintsAndDeletes(env, m1, m.ps, "", outs);
  }

  lemma PairwiseKeeps(env: Env, rs: seq<Rec>, k: nat, m: State, outs: seq<Rec>)
    requires Sound(env) && !env.quiet && env.lookahead && forall r :: r in rs ==> env.delim !in r.text
    ensures LegalScript(PAIRWISE) && Keeps(env, PAIRWISE, rs, EachLine(|rs|, Copies(Whole(rs))), k, m, outs)
  {
    hide SedMachines.Run, AtLine, Wrote, Shown, NextCycle;
    var p := EachLine(|rs|, Copies(Whole(rs)));
    if AtLine(env, rs, k, m) && Wrote(env, m, outs) {
      AtLineIs(env, rs, k, m);
      assert rs[k - 1] in rs && p.emit(k) == [Rec(m.ps, true)];
      if k < |rs| {
        PairwiseGoesOn(env, rs, k, m, outs);
      } else {
        PairwiseEnds(env, rs, m, outs);
        var s := SedMachines.Run(env, PAIRWISE, 0, m).m;
        ShownPlain(env, s, false);
        CycleKeeps(env, PAIRWISE, rs, p, k, m, outs, s, false, outs + [Rec(m.ps, true)]);
      }
    }
  }

  /** `$!N;P;D` copies its input, two lines at a time in the pattern space; the last line gets a delimiter. */
  lemma PairwiseCopies(env: Env, rs: seq<Rec>, fuel: nat)
    requires Sound(env) && !env.quiet && env.lookahead && rs != [] && fuel >= |rs|
    requires forall r :: r in rs ==> env.delim !in r.text
    ensures LegalScript(PAIRWISE) && var r := RunStream(env, Tree(PAIRWISE), fuel, rs);
      r.Done? && r.m.out == Lines(rs, env.delim) && !r.m.pendingNl && r.m.quit == None
  {
    hide Keeps, RunStream, Lines, Wrote, From, Printed;
    var p := EachLine(|rs|, Copies(Whole(rs)));
    forall k, m, outs ensures Keeps(env, PAIRWISE, rs, p, k, m, outs) { PairwiseKeeps(env, rs, k, m, outs); }
    RunsThrough(env, PAIRWISE, rs, p, fuel);
    FromCopies(p, 1, Whole(rs));
    assert Whole(rs)[0..|rs|] == Whole(rs);
    WholeWritten(env, rs, RunStream(env, Tree(PAIRWISE), fuel, rs).m);
  }

  lemma WholeWritten(env: Env, rs: seq<Rec>, m: State)
    requires rs != [] && Wrote(env, m, Whole(rs))
    ensures m.out == Lines(rs, env.delim) && !m.pendingNl
  {
    hide Lines, Printed;
    PrintedAll(Whole(rs), env.delim);
    LinesOfWhole(rs, env.delim);
  }

  lemma {:induction false} LinesOfWhole(rs: seq<Rec>, d: char)
    ensures Lines(Whole(rs), d) == Lines(rs, d)
  {
    if rs != [] {
      LinesOfWhole(rs[..|rs| - 1], d);
      assert Whole(rs)[..|rs| - 1] == Whole(rs[..|rs| - 1]);
    }
  }

  // ----- `s/re/&/;t;d` and `s/re/&/;T;d` ------------------------------------------------------

  function Ampersand(re: R.Re, swap: bool): Op { Subst(re, [S.RMatch], S.Flags(false, 1), swap, false) }

  function Grep(re: R.Re, swap: bool, unless: bool): Script {
    One(ALWAYS, Ampersand(re, swap),
        One(ALWAYS, if unless then BranchUnless("") else BranchIf(""), One(ALWAYS, Delete, End)))
  }

  /** The expression matches somewhere in the line. */
  predicate Hit(env: Env, re: R.Re, swap: bool, text: string) { env.find(re)(S.Subject(text, swap), 0).Some? }

  lemma AmpersandFlags(env: Env, re: R.Re, swap: bool, m: State)
    requires Sound(env)
    ensures SedMachines.Step(env, Ampersand(re, swap), true, m)
         == Go(if Hit(env, re, swap, m.ps) then m.(tflag := true) else m)
  {
    hide S.Accepted, S.Substituted;
    S.AcceptedStep(env.find(re), S.Subject(m.ps, swap), 0, -1);
    S.AmpersandChangesNothing(env.find(re), m.ps, S.Flags(false, 1), swap);
  }

  lemma BranchesToEnd(env: Env, m: State)
    requires Sound(env)
    ensures SedMachines.Step(env, BranchIf(""), true, m)
         == if m.tflag then Stop(EndCycle(m.(tflag := false), true)) else Go(m)
    ensures SedMachines.Step(env, BranchUnless(""), true, m)
         == if m.tflag then Go(m.(tflag := false)) else Stop(EndCycle(m, true))
  {}

  lemma GrepCycle(env: Env, re: R.Re, swap: bool, unless: bool, m: State)
    requires Sound(env) && !m.tflag
    ensures LegalScript(Grep(re, swap, unless))
    ensures var o := SedMachines.Run(env, Grep(re, swap, unless), 0, m);
      o == EndCycle(m.(ranges := o.m.ranges), Hit(env, re, swap, m.ps) != unless)
  {
    hide SedMachines.Run, SedMachines.Step, Hit;
    var t := Grep(re, swap, unless);
    var hit := Hit(env, re, swap, m.ps);
    var m1 := RunOne(env, t, 0, m);
    AmpersandFlags(env, re, swap, m1);
    var m2 := RunOne(env, t.rest, 1, m1.(tflag := hit));
    BranchesToEnd(env, m2);
    if hit == unless {
      var m3 := RunOne(env, t.rest.rest, 2, m2.(tflag := false));
      Steps(env, m3);
    }
  }

  function Kept(env: Env, re: R.Re, swap: bool, unless: bool, r: Rec): seq<Rec> {
    if Hit(env, re, swap, r.text) != unless then [r] else []
  }

  /** The lines that have a match, or with `unless` those that have none. */
  function Filtered(env: Env, re: R.Re, swap: bool, unless: bool, rs: seq<Rec>): seq<Rec> {
    if rs == [] then [] else Kept(env, re, swap, unless, rs[0]) + Filtered(env, re, swap, unless, rs[1..])
  }

  function GrepPlan(env: Env, re: R.Re, swap: bool, unless: bool, rs: seq<Rec>): Plan {
    EachLine(|rs|, (k: nat) => Kept(env, re, swap, unless, Nth(rs, k)))
  }

  lemma GrepKeeps(env: Env, re: R.Re, swap: bool, unless: bool, rs: seq<Rec>, k: nat, m: State, outs: seq<Rec>)
    requires Sound(env) && !env.quiet
    ensures LegalScript(Grep(re, swap, unless))
    ensures Keeps(env, Grep(re, swap, unless), rs, GrepPlan(env, re, swap, unless, rs), k, m, outs)
  {
    hide SedMachines.Run, AtLine, Wrote, SedMachines.After, Shown, Hit;
    if AtLine(env, rs, k, m) && !m.tflag && Wrote(env, m, outs) {
      AtLineIs(env, rs, k, m);
      GrepCycle(env, re, swap, unless, m);
      var o := SedMachines.Run(env, Grep(re, swap, unless), 0, m);
      WroteStays(env, m, o.m, outs);
      ShownPlain(env, o.m, o.show);
      CycleKeeps(env, Grep(re, swap, unless), rs, GrepPlan(env, re, swap, unless, rs), k, m, outs, o.m, o.show, outs);
    }
  }

  lemma {:induction false} FromFiltered(env: Env, re: R.Re, swap: bool, unless: bool, rs: seq<Rec>, k: nat)
    requires 0 < k <= |rs| + 1
    ensures From(GrepPlan(env, re, swap, unless, rs), k) == Filtered(env, re, swap, unless, rs[k - 1..])
    decreases |rs| - k
  {
    hide Hit;
    if k <= |rs| {
      FromFiltered(env, re, swap, unless, rs, k + 1);
      assert rs[k - 1..][1..] == rs[k..];
    }
  }

  /** `s/re/&/;t;d` prints exactly the lines with a match, and with `T` exactly those without. */
  lemma GrepFilters(env: Env, re: R.Re, swap: bool, unless: bool, rs: seq<Rec>, fuel: nat)
    requires Sound(env) && !env.quiet && rs != [] && fuel >= |rs|
    ensures LegalScript(Grep(re, swap, unless))
    ensures var r := RunStream(env, Tree(Grep(re, swap, unless)), fuel, rs);
      r.Done? && Wrote(env, r.m, Filtered(env, re, swap, unless, rs)) && r.m.quit == None
  {
    hide Keeps, RunStream, Hit, Wrote, From;
    var p := GrepPlan(env, re, swap, unless, rs);
    var t := Grep(re, swap, unless);
    forall k, m, outs ensures Keeps(env, t, rs, p, k, m, outs) { GrepKeeps(env, re, swap, unless, rs, k, m, outs); }
    RunsThrough(env, t, rs, p, fuel);
    FromFiltered(env, re, swap, unless, rs, 1);
    assert rs[0..] == rs;
  }

  // ----- `s/re/&/p` ---------------------------------------------------------------------------

  function PrintMatches(re: R.Re, swap: bool): Script {
    One(ALWAYS, Subst(re, [S.RMatch], S.Flags(false, 1), swap, true), End)
  }

  function Shouted(env: Env, re: R.Re, swap: bool, r: Rec): seq<Rec> {
    if Hit(env, re, swap, r.text) then [Rec(r.text, true)] else []
  }

  /** The lines that have a match, each with its delimiter. */
  function Matching(env: Env, re: R.Re, swap: bool, rs: seq<Rec>): seq<Rec> {
    if rs == [] then [] else Shouted(env, re, swap, rs[0]) + Matching(env, re, swap, rs[1..])
  }

  function MatchingPlan(env: Env, re: R.Re, swap: bool, rs: seq<Rec>): Plan {
    EachLine(|rs|, (k: nat) => Shouted(env, re, swap, Nth(rs, k)))
  }

  lemma PrintFlag(env: Env, re: R.Re, swap: bool, m: State)
    requires Sound(env)
    ensures LegalScript(PrintMatches(re, swap))
    ensures SedMachines.Step(env, PrintMatches(re, swap).op, true, m)
         == Go(if Hit(env, re, swap, m.ps) then OutRecord(env, m.(tflag := true), m.ps, true) else m)
  {
    hide S.Accepted, S.Substituted, OutRecord;
    S.AcceptedStep(env.find(re), S.Subject(m.ps, swap), 0, -1);
    S.AmpersandChangesNothing(env.find(re), m.ps, S.Flags(false, 1), swap);
  }

  lemma PrintMatchesKeeps(env: Env, re: R.Re, swap: bool, rs: seq<Rec>, k: nat, m: State, outs: seq<Rec>)
    requires Sound(env) && env.quiet
    ensures LegalScript(PrintMatches(re, swap))
    ensures Keeps(env, PrintMatches(re, swap), rs, MatchingPlan(env, re, swap, rs), k, m, outs)
  {
    hide SedMachines.Run, SedMachines.Step, AtLine, Wrote, SedMachines.After, Shown, Hit, OutRecord;
    if AtLine(env, rs, k, m) && Wrote(env, m, outs) {
      AtLineIs(env, rs, k, m);
      var m1 := RunAlways(env, PrintMatches(re, swap), 0, m);
      PrintFlag(env, re, swap, m1);
      var s := SedMachines.Step(env, PrintMatches(re, swap).op, true, m1).m;
      WroteStays(env, m, m1.(tflag := true), outs);
      WroteStays(env, m, m1, outs);
      RecordWritten(env, m1.(tflag := true), outs, m.ps, true);
      OutRecordIs(env, m1.(tflag := true), m.ps, true);
      RunEnd(env, 1, s);
      ShownPlain(env, s, true);
      var mid := if Hit(env, re, swap, m.ps) then outs + [Rec(m.ps, true)] else outs;
      CycleKeeps(env, PrintMatches(re, swap), rs, MatchingPlan(env, re, swap, rs), k, m, outs, s, true, mid);
    }
  }

  lemma {:induction false} FromMatching(env: Env, re: R.Re, swap: bool, rs: seq<Rec>, k: nat)
    requires 0 < k <= |rs| + 1
    ensures From(MatchingPlan(env, re, swap, rs), k) == Matching(env, re, swap, rs[k - 1..])
    decreases |rs| - k
  {
    hide Hit;
    if k <= |rs| {
      FromMatching(env, re, swap, rs, k + 1);
      assert rs[k - 1..][1..] == rs[k..];
    }
  }

  /** `s/re/&/p` under `-n` prints exactly the lines with a match. */
  lemma PrintMatchesPrints(env: Env, re: R.Re, swap: bool, rs: seq<Rec>, fuel: nat)
    requires Sound(env) && env.quiet && rs != [] && fuel >= |rs|
    ensures LegalScript(PrintMatches(re, swap))
    ensures var r := RunStream(env, Tree(PrintMatches(re, swap)), fuel, rs);
      r.Done? && Wrote(env, r.m, Matching(env, re, swap, rs)) && r.m.quit == None
  {
    hide Keeps, RunStream, Hit, Wrote, From;
    var p, t := MatchingPlan(env, re, swap, rs), PrintMatches(re, swap);
    forall k, m, outs ensures Keeps(env, t, rs, p, k, m, outs) { PrintMatchesKeeps(env, re, swap, rs, k, m, outs); }
    RunsThrough(env, t, rs, p, fuel);
    FromMatching(env, re, swap, rs, 1);
    assert rs[0..] == rs;
  }

  // ----- `:a;s/c//;ta` and `:a;s/c//;Tb;ba;:b` ------------------------------------------------

  function Without(s: string, c: char): string {
    if s == [] then [] else (if s[0] == c then [] else [s[0]]) + Without(s[1..], c)
  }

  function Count(s: string, c: char): nat {
    if s == [] then 0 else (if s[0] == c then 1 else 0) + Count(s[1..], c)
  }

  /** Taking out the first `c` leaves one less, and the same text without `c`. */
  lemma {:induction false} FirstTaken(s: string, c: char, i: nat)
    requires i <= |s| && (i < |s| ==> s[i] == c) && forall j :: 0 <= j < i ==> s[j] != c
    ensures if i == |s| then Count(s, c) == 0 && Without(s, c) == s
      else var t := s[..i] + s[i + 1..]; Count(s, c) == 1 + Count(t, c) && Without(s, c) == Without(t, c)
    decreases i
  {
    if i > 0 {
      FirstTaken(s[1..], c, i - 1);
      if i < |s| { assert (s[..i] + s[i + 1..])[1..] == s[1..][..i - 1] + s[1..][i..]; }
    } else if s != [] {
      assert s[..0] + s[1..] == s[1..];
    }
  }

  function Remove(re: R.Re): Op { Subst(re, [], S.Flags(false, 1), false, false) }

  lemma RemoveTakesFirst(env: Env, re: R.Re, c: char, m: State)
    requires Sound(env) && FindsByte(env.find(re), c)
    ensures var i := IndexOf(m.ps, c, 0);
      SedMachines.Step(env, Remove(re), true, m)
      == Go(if i == |m.ps| then m else m.(ps := m.ps[..i] + m.ps[i + 1..], tflag := true))
  {
    FirstRemoved(env.find(re), m.ps, c);
    hide S.Accepted, S.Substituted, FindsByte;
  }

  lemma FirstRemoved(find: S.Finder, s: string, c: char)
    requires S.Sound(find) && FindsByte(find, c)
    ensures var i := IndexOf(s, c, 0); var ms := S.Accepted(find, s, 0, -1);
      if i == |s| then ms == []
      else ms != [] && S.Substituted(find, s, [], S.Flags(false, 1), false) == s[..i] + s[i + 1..]
  {
    hide S.Accepted, S.Substituted, S.Splice;
    var f, i := S.Flags(false, 1), IndexOf(s, c, 0);
    S.AcceptedStep(find, s, 0, -1);
    S.SubstitutedIs(find, s, [], f, false);
    if i < |s| { OneSpliced(s, S.Selected(S.Accepted(find, s, 0, -1), f), i); }
  }

  lemma OneSpliced(s: string, ms: seq<S.Match>, i: nat)
    requires i < |s| && ms == [ByteMatch(i)] && S.InOrder(ms, s, -1) && S.EndsBy(ms, |s|)
    ensures S.Splice(s, ms, |s|, []) == s[..i] + s[i + 1..]
  {
    assert ms[..0] == [] && S.Splice(s, [], i, []) == s[..i];
    assert s[i + 1..|s|] == s[i + 1..];
  }

  function LoopBody(re: R.Re, unless: bool): Script {
    One(ALWAYS, Remove(re),
        if unless then One(ALWAYS, BranchUnless("b"), One(ALWAYS, Branch("a"), One(ALWAYS, Label("b"), End)))
        else One(ALWAYS, BranchIf("a"), End))
  }

  function Loop(re: R.Re, unless: bool): Script { One(ALWAYS, Label("a"), LoopBody(re, unless)) }

  /** The steps of the driver that a line takes. */
  function Work(s: string, c: char, unless: bool): nat { Count(s, c) + if unless then 2 else 1 }

  lemma LoopShape(re: R.Re, unless: bool)
    ensures LegalScript(Loop(re, unless)) && LegalScript(LoopBody(re, unless)) && LegalProgram(Tree(Loop(re, unless)))
    ensures HasLabel(Loop(re, unless), "a") && (unless ==> HasLabel(Loop(re, unless), "b"))
    ensures LoopBody(re, unless) ==
      One(ALWAYS, Remove(re),
          if unless then One(ALWAYS, BranchUnless("b"), One(ALWAYS, Branch("a"), One(ALWAYS, Label("b"), End)))
          else One(ALWAYS, BranchIf("a"), End))
  {
    if unless {
      assert HasLabel(One(ALWAYS, Label("b"), End), "b");
      assert HasLabel(One(ALWAYS, Branch("a"), One(ALWAYS, Label("b"), End)), "b");
      assert HasLabel(LoopBody(re, unless).rest, "b");
    }
  }

  lemma LoopEnters(env: Env, re: R.Re, unless: bool, m: State) returns (m1: State)
    requires Sound(env)
    ensures LegalScript(Loop(re, unless)) && LegalScript(LoopBody(re, unless)) && HasLabel(Loop(re, unless), "a")
    ensures m1 == m.(ranges := m1.ranges)
    ensures SedMachines.Run(env, Loop(re, unless), 0, m) == SedMachines.Run(env, LoopBody(re, unless), 1, m1)
    ensures Resume(env, Loop(re, unless), 0, "a", m) == SedMachines.Run(env, LoopBody(re, unless), 1, m)
  {
    hide SedMachines.Run;
    LoopShape(re, unless);
    m1 := RunOne(env, Loop(re, unless), 0, m);
  }

  lemma LoopLeaves(env: Env, re: R.Re, m: State)
    requires Sound(env)
    ensures LegalScript(Loop(re, true)) && HasLabel(Loop(re, true), "b")
    ensures Resume(env, Loop(re, true), 0, "b", m) == Fell(m)
  {
    LoopShape(re, true);
    hide SedMachines.Run;
    var t3 := One(ALWAYS, Label("b"), End);
    var t2 := One(ALWAYS, Branch("a"), t3);
    var t1 := One(ALWAYS, BranchUnless("b"), t2);
    RunEnd(env, 5, m);
    assert Resume(env, t3, 4, "b", m) == Fell(m);
    assert Resume(env, t2, 3, "b", m) == Fell(m);
    assert Resume(env, t1, 2, "b", m) == Fell(m);
    assert Resume(env, LoopBody(re, true), 1, "b", m) == Fell(m);
  }

  lemma Branches(env: Env, m: State)
    requires Sound(env)
    ensures SedMachines.Step(env, BranchIf("a"), true, m)
         == if m.tflag then Stop(Jumped("a", m.(tflag := false))) else Go(m)
    ensures SedMachines.Step(env, BranchUnless("b"), true, m)
         == if m.tflag then Go(m.(tflag := false)) else Stop(Jumped("b", m))
    ensures SedMachines.Step(env, Branch("a"), true, m) == Stop(Jumped("a", m))
  {}

  /** One round: a `c` is taken out and the loop goes on, or there is none and it is left. */
  lemma LoopRound(env: Env, re: R.Re, c: char, unless: bool, m: State)
    requires Sound(env) && FindsByte(env.find(re), c) && !m.tflag
    ensures LegalScript(LoopBody(re, unless))
    ensures var o := SedMachines.Run(env, LoopBody(re, unless), 1, m); var i := IndexOf(m.ps, c, 0);
      o == if i < |m.ps| then Jumped("a", m.(ps := m.ps[..i] + m.ps[i + 1..], ranges := o.m.ranges))
           else if unless then Jumped("b", m.(ranges := o.m.ranges)) else Fell(m.(ranges := o.m.ranges))
  {
    hide *;
    LoopShape(re, unless);
    var t := LoopBody(re, unless);
    var m1 := LoopRemoves(env, re, c, t, m);
    if unless { LoopsUnless(env, t.rest, m1); } else { LoopsIf(env, t.rest, m1); }
  }

  lemma LoopRemoves(env: Env, re: R.Re, c: char, t: Script, m: State) returns (m1: State)
    requires Sound(env) && FindsByte(env.find(re), c) && !m.tflag
    requires t.One? && t.a == ALWAYS && t.op == Remove(re) && LegalScript(t)
    ensures LegalScript(t.rest) && SedMachines.Run(env, t, 1, m) == SedMachines.Run(env, t.rest, 2, m1)
    ensures var i := IndexOf(m.ps, c, 0);
      m1 == if i == |m.ps| then m.(ranges := m1.ranges)
            else m.(ps := m.ps[..i] + m.ps[i + 1..], tflag := true, ranges := m1.ranges)
  {
    hide *;
    var m0 := RunAlways(env, t, 1, m);
    RemoveTakesFirst(env, re, c, m0);
    var i := IndexOf(m.ps, c, 0);
    m1 := if i == |m.ps| then m0 else m0.(ps := m.ps[..i] + m.ps[i + 1..], tflag := true);
  }

  lemma LoopsIf(env: Env, t: Script, m: State)
    requires Sound(env) && t == One(ALWAYS, BranchIf("a"), End)
    ensures LegalScript(t)
    ensures var o := SedMachines.Run(env, t, 2, m);
      o == if m.tflag then Jumped("a", m.(tflag := false, ranges := o.m.ranges)) else Fell(m.(ranges := o.m.ranges))
  {
    hide SedMachines.Run, SedMachines.Step;
    var m1 := RunAlways(env, t, 2, m);
    Branches(env, m1);
    RunEnd(env, 3, m1);
  }

  lemma LoopsUnless(env: Env, t: Script, m: State)
    requires Sound(env) && t == One(ALWAYS, BranchUnless("b"), One(ALWAYS, Branch("a"), One(ALWAYS, Label("b"), End)))
    ensures LegalScript(t)
    ensures var o := SedMachines.Run(env, t, 2, m);
      o == Jumped(if m.tflag then "a" else "b", m.(tflag := false, ranges := o.m.ranges))
  {
    hide SedMachines.Run, SedMachines.Step;
    var m1 := RunAlways(env, t, 2, m);
    Branches(env, m1);
    var m2 := RunAlways(env, t.rest, 3, m1.(tflag := false));
    Branches(env, m2);
  }

  /** A line goes round the loop until no `c` is left, and then its cycle ends. */
  lemma {:induction false} LineCleaned(env: Env, re: R.Re, c: char, unless: bool, m: State, fuel: nat)
    returns (m1: State)
    requires Sound(env) && FindsByte(env.find(re), c) && !m.tflag
    ensures m1 == m.(ps := Without(m.ps, c), ranges := m1.ranges)
    ensures LegalScript(Loop(re, unless)) && var p := Tree(Loop(re, unless));
      Drive(env, p, fuel + Work(m.ps, c, unless), SedMachines.Task.At("a", m))
      == Drive(env, p, fuel, NextCycle(env, m1, true))
    decreases |m.ps|
  {
    hide SedMachines.Run, Resume, Drive, NextCycle, FindsByte, Count, Without, LegalScript, HasLabel, Sound;
    LoopShape(re, unless);
    var p := Tree(Loop(re, unless));
    var _ := LoopEnters(env, re, unless, m);
    LoopRound(env, re, c, unless, m);
    var n := fuel + Work(m.ps, c, unless);
    DriveStep(env, p, n, SedMachines.Task.At("a", m));
    var i := IndexOf(m.ps, c, 0);
    FirstTaken(m.ps, c, i);
    var o := SedMachines.Run(env, LoopBody(re, unless), 1, m);
    if i < |m.ps| {
      m1 := LineCleaned(env, re, c, unless, o.m, fuel);
    } else {
      m1 := o.m;
      if unless {
        LoopLeaves(env, re, o.m);
        DriveStep(env, p, n - 1, SedMachines.Task.At("b", o.m));
      }
    }
  }

  /** The lines from line `k` on, without `c`. */
  function Cleaned(rs: seq<Rec>, c: char): seq<Rec> {
    seq(|rs|, i requires 0 <= i < |rs| => Rec(Without(rs[i].text, c), rs[i].delim))
  }

  function AllWork(rs: seq<Rec>, c: char, unless: bool): nat {
    if rs == [] then 0 else Work(rs[0].text, c, unless) + AllWork(rs[1..], c, unless)
  }

  lemma CleanedSplits(rs: seq<Rec>, c: char, k: nat, outs: seq<Rec>)
    requires 0 < k <= |rs|
    ensures |Cleaned(rs, c)| == |rs|
    ensures var out := Rec(Without(rs[k - 1].text, c), rs[k - 1].delim);
      outs + Cleaned(rs, c)[k - 1..] == if k == |rs| then outs + [out] else outs + [out] + Cleaned(rs, c)[k..]
  {
    hide Without;
    assert Cleaned(rs, c)[k - 1..] == [Cleaned(rs, c)[k - 1]] + Cleaned(rs, c)[k..];
  }

  lemma WorkSplits(rs: seq<Rec>, c: char, unless: bool, k: nat)
    requires 0 < k <= |rs|
    ensures AllWork(rs[k - 1..], c, unless) == Work(rs[k - 1].text, c, unless) + AllWork(rs[k..], c, unless)
    ensures Work(rs[k - 1].text, c, unless) > 0
  {
    hide Count;
    assert rs[k - 1..][1..] == rs[k..];
  }

  /** From the top, a line is at the loop at once. */
  lemma TopIsLoop(env: Env, re: R.Re, unless: bool, m: State, fuel: nat) returns (m1: State)
    requires Sound(env) && fuel > 0
    ensures m1 == m.(ranges := m1.ranges)
    ensures LegalScript(Loop(re, unless))
    ensures var p := Tree(Loop(re, unless));
      Drive(env, p, fuel, Top(m)) == Drive(env, p, fuel, SedMachines.Task.At("a", m1))
  {
    hide SedMachines.Run, Resume, Drive, SedMachines.After;
    var p := Tree(Loop(re, unless));
    m1 := LoopEnters(env, re, unless, m);
    DriveStep(env, p, fuel, Top(m));
    DriveStep(env, p, fuel, SedMachines.Task.At("a", m1));
    var _ := LoopEnters(env, re, unless, m1);
  }

  /** The cycle of one line, to the end of its run or to the next line. */
  lemma CycleCleaned(env: Env, re: R.Re, c: char, unless: bool, rs: seq<Rec>, k: nat, m: State, outs: seq<Rec>,
                     fuel: nat)
    returns (next: Task)
    requires Sound(env) && FindsByte(env.find(re), c) && !env.quiet
    requires AtLine(env, rs, k, m) && !m.tflag && Wrote(env, m, outs) && k <= |rs|
    ensures LegalScript(Loop(re, unless)) && 0 < k && var p := Tree(Loop(re, unless));
      Drive(env, p, fuel + Work(rs[k - 1].text, c, unless), Top(m)) == Drive(env, p, fuel, next)
    ensures Wrote(env, next.m, outs + [Rec(Without(rs[k - 1].text, c), rs[k - 1].delim)])
    ensures if k < |rs| then next.Top? && AtLine(env, rs, k + 1, next.m) && !next.m.tflag
            else next.Over? && next.m.quit == None
  {
    hide *;
    AtLineIs(env, rs, k, m);
    WorkSplits(rs, c, unless, k);
    var m1 := TopIsLoop(env, re, unless, m, fuel + Work(m.ps, c, unless));
    var s := LineCleaned(env, re, c, unless, m1, fuel);
    WroteStays(env, m, s, outs);
    CycleOver(env, rs, k, m, s, true, outs);
    ShownPlain(env, s, true);
    next := NextCycle(env, s, true);
  }

  lemma {:induction false} LinesCleaned(env: Env, re: R.Re, c: char, unless: bool, rs: seq<Rec>, k: nat, m: State,
                                        outs: seq<Rec>, fuel: nat)
    requires Sound(env) && FindsByte(env.find(re), c) && !env.quiet && 0 < k <= |rs|
    requires AtLine(env, rs, k, m) && !m.tflag && Wrote(env, m, outs) && fuel >= AllWork(rs[k - 1..], c, unless)
    ensures LegalScript(Loop(re, unless)) && |Cleaned(rs, c)| == |rs| && k > 0
    ensures var r := Drive(env, Tree(Loop(re, unless)), fuel, Top(m));
      r.Done? && Wrote(env, r.m, outs + Cleaned(rs, c)[k - 1..]) && r.m.quit == None
    decreases |rs| - k
  {
    hide *;
    LoopShape(re, unless);
    var left := fuel - Work(rs[k - 1].text, c, unless);
    WorkSplits(rs, c, unless, k);
    CleanedSplits(rs, c, k, outs);
    var next := CycleCleaned(env, re, c, unless, rs, k, m, outs, left);
    if k < |rs| {
      var out := Rec(Without(rs[k - 1].text, c), rs[k - 1].delim);
      LinesCleaned(env, re, c, unless, rs, k + 1, next.m, outs + [out], left);
    } else {
      DriveStep(env, Tree(Loop(re, unless)), left, next);
    }
  }

  /** `:a;s/c//;ta` and `:a;s/c//;Tb;ba;:b` take every `c` out of every line. */
  lemma LoopCleans(env: Env, re: R.Re, c: char, unless: bool, rs: seq<Rec>, fuel: nat)
    requires Sound(env) && FindsByte(env.find(re), c) && !env.quiet && rs != [] && fuel >= AllWork(rs, c, unless)
    ensures LegalScript(Loop(re, unless)) && var r := RunStream(env, Tree(Loop(re, unless)), fuel, rs);
      r.Done? && Wrote(env, r.m, Cleaned(rs, c)) && r.m.quit == None
  {
    hide *;
    LoopShape(re, unless);
    CleanedSplits(rs, c, 1, []);
    assert rs[0..] == rs && Cleaned(rs, c)[0..] == Cleaned(rs, c);
    assert [] + Cleaned(rs, c) == Cleaned(rs, c);
    var m := Starts(env, Tree(Loop(re, unless)), rs, fuel);
    LinesCleaned(env, re, c, unless, rs, 1, m, [], fuel);
  }

  /** A run begins at line 1, with nothing written. */
  lemma Starts(env: Env, p: Program, rs: seq<Rec>, fuel: nat) returns (m: State)
    requires Sound(env) && LegalProgram(p) && rs != []
    ensures AtLine(env, rs, 1, m) && !m.tflag && Wrote(env, m, [])
    ensures RunStream(env, p, fuel, rs) == Drive(env, p, fuel, Top(m))
  {
    hide Drive, AtLine, LegalProgram;
    BootsAtLine(env, rs);
    m := Boot(env, rs).m;
  }

  /** Nothing but `c` is taken out. */
  lemma {:induction false} WithoutIs(s: string, c: char)
    ensures c !in Without(s, c) && |Without(s, c)| + Count(s, c) == |s|
    ensures forall x :: x != c ==> multiset(Without(s, c))[x] == multiset(s)[x]
    ensures c !in s ==> Without(s, c) == s
  {
    if s != [] {
      WithoutIs(s[1..], c);
      assert s == [s[0]] + s[1..];
    }
  }
}
