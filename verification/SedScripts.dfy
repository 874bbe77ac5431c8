/** What well-known one-line scripts do to whole streams.

    Each theorem names the lines that come out, over every stream, in terms of the lines that go in; together
    they say what the commands mean, which the equality of lists and blocks does not. */
module SedScripts {
  import opened Options
  import A = Arith
  import R = SedRanges
  import opened SedMachines
  import opened SedPrograms

  // ----- What has been written ----------------------------------------------------------------

  /** Records one after another; only the last may lack its delimiter. */
  function Printed(outs: seq<Rec>, d: char): string {
    if outs == [] then "" else
    var last := outs[|outs| - 1];
    Lines(outs[..|outs| - 1], d) + last.text + if last.delim then [d] else ""
  }

  /** The output is `outs`, and a missing delimiter is still to be supplied. */
  predicate Wrote(env: Env, m: State, outs: seq<Rec>) {
    m.out == Printed(outs, env.delim) && m.pendingNl == (outs != [] && !outs[|outs| - 1].delim)
  }

  lemma PrintedAll(outs: seq<Rec>, d: char)
    ensures Printed(outs, d) + (if outs != [] && !outs[|outs| - 1].delim then [d] else "") == Lines(outs, d)
  {}

  lemma RecordWritten(env: Env, m: State, outs: seq<Rec>, text: string, delim: bool)
    requires Wrote(env, m, outs)
    ensures Wrote(env, OutRecord(env, m, text, delim), outs + [Rec(text, delim)])
  {
    hide Lines;
    PrintedAll(outs, env.delim);
    assert (outs + [Rec(text, delim)])[..|outs|] == outs;
  }

  /** The queue of `a` as records. */
  function Queued(q: seq<string>): (r: seq<Rec>)
    ensures |r| == |q| && forall i :: 0 <= i < |q| ==> r[i] == Rec(q[i], true)
  { if q == [] then [] else [Rec(q[0], true)] + Queued(q[1..]) }

  lemma {:induction false} QueueWritten(env: Env, m: State, q: seq<string>, outs: seq<Rec>)
    requires Wrote(env, m, outs)
    ensures var n := FlushFrom(env, m, q);
      Wrote(env, n, outs + Queued(q)) && n == m.(out := n.out, pendingNl := n.pendingNl)
    decreases |q|
  {
    hide Wrote;
    if q == [] {
      assert outs + Queued(q) == outs;
    } else {
      var r := Rec(q[0], true);
      RecordWritten(env, m, outs, q[0], true);
      QueueWritten(env, OutRecord(env, m, q[0], true), q[1..], outs + [r]);
      assert outs + Queued(q) == outs + [r] + Queued(q[1..]);
    }
  }

  // ----- Cycles and runs ----------------------------------------------------------------------

  /** What the end of a cycle writes. */
  function Shown(env: Env, m: State, show: bool): seq<Rec> {
    (if show && !env.quiet then [Rec(m.ps, m.psDelim)] else []) + Queued(m.queue)
  }

  lemma ShownPlain(env: Env, m: State, show: bool)
    requires m.queue == []
    ensures Shown(env, m, show) == if show && !env.quiet then [Rec(m.ps, m.psDelim)] else []
  {}

  lemma CycleEndWrote(env: Env, m: State, show: bool, outs: seq<Rec>)
    requires Wrote(env, m, outs)
    ensures var n := CycleEnd(env, m, show);
      Wrote(env, n, outs + Shown(env, m, show)) && n == m.(out := n.out, pendingNl := n.pendingNl, queue := [])
  {
    hide Wrote, FlushFrom;
    var m1 := if show && !env.quiet then OutRecord(env, m, m.ps, m.psDelim) else m;
    var outs1 := if show && !env.quiet then outs + [Rec(m.ps, m.psDelim)] else outs;
    RecordWritten(env, m, outs, m.ps, m.psDelim);
    QueueWritten(env, m1, m.queue, outs1);
    SameWrote(env, FlushFrom(env, m1, m.queue), outs1 + Queued(m.queue));
    assert outs + Shown(env, m, show) == outs1 + Queued(m.queue);
  }

  lemma SameWrote(env: Env, m: State, outs: seq<Rec>)
    ensures Wrote(env, m.(queue := []), outs) == Wrote(env, m, outs)
  {}

  /** The cycle of line `k` is over, with `m` left behind. */
  lemma CycleOver(env: Env, rs: seq<Rec>, k: nat, m0: State, m: State, show: bool, outs: seq<Rec>)
    requires AtLine(env, rs, k, m0) && Wrote(env, m, outs)
    requires m.linenum == k && m.peek == m0.peek && m.input == m0.input
    ensures var t := NextCycle(env, m, show);
      && t.m.hs == m.hs && t.m.hsDelim == m.hsDelim && Wrote(env, t.m, outs + Shown(env, m, show))
      && if k < |rs| && m.quit == None then t.Top? && AtLine(env, rs, k + 1, t.m) && !t.m.tflag
         else t.Over? && t.m.quit == m.quit
  {
    hide CycleEnd, NextRecord, Wrote, Shown;
    CycleEndWrote(env, m, show, outs);
    var n := CycleEnd(env, m, show);
    FlagDown(env, n);
    if m.quit == None {
      Refills(env, rs, k, n);
      if k < |rs| { WroteStays(env, n, NextRecord(env, n).value, outs + Shown(env, m, show)); }
    }
  }

  lemma WroteStays(env: Env, m: State, n: State, outs: seq<Rec>)
    requires Wrote(env, m, outs) && n.out == m.out && n.pendingNl == m.pendingNl
    ensures Wrote(env, n, outs)
  {}

  lemma FlagDown(env: Env, m: State)
    ensures NextRecord(env, m).Some? ==> !NextRecord(env, m).value.tflag
  {}

  /** A script that goes from line `k` to line `k + step` and has written `emit(k)` in between, until it
      stops behind line `stop` at the latest; `held` is what the hold space has at line `k`. */
  datatype Plan = Plan(step: nat, stop: nat, emit: nat -> seq<Rec>, held: (nat, string, bool) -> bool,
                       quit: Option<nat>)

  /** One round of the script from line `k`. */
  ghost predicate Keeps(env: Env, t: Script, rs: seq<Rec>, p: Plan, k: nat, m: State, outs: seq<Rec>)
    requires Sound(env) && LegalScript(t)
  {
    AtLine(env, rs, k, m) && !m.tflag && p.held(k, m.hs, m.hsDelim) && k <= p.stop && Wrote(env, m, outs) ==>
      var next := SedMachines.After(env, SedMachines.Run(env, t, 0, m));
      && Wrote(env, next.m, outs + p.emit(k))
      && if k + p.step <= p.stop then
           next.Top? && AtLine(env, rs, k + p.step, next.m) && !next.m.tflag
           && p.held(k + p.step, next.m.hs, next.m.hsDelim)
         else next.Over? && next.m.quit == p.quit
  }

  /** What the rounds from line `k` on write. */
  function From(p: Plan, k: nat): seq<Rec>
    decreases p.stop - k
  { if k > p.stop || p.step == 0 then [] else p.emit(k) + From(p, k + p.step) }

  lemma {:induction false} RoundsFrom(env: Env, t: Script, rs: seq<Rec>, p: Plan, k: nat, m: State, outs: seq<Rec>,
                                      fuel: nat)
    requires Sound(env) && LegalScript(t) && forall k1, m1, outs1 :: Keeps(env, t, rs, p, k1, m1, outs1)
    requires AtLine(env, rs, k, m) && !m.tflag && p.held(k, m.hs, m.hsDelim) && Wrote(env, m, outs)
    requires p.step > 0 && k <= p.stop && fuel > p.stop - k
    ensures var r := Drive(env, Tree(t), fuel, Top(m));
      r.Done? && Wrote(env, r.m, outs + From(p, k)) && r.m.quit == p.quit
    decreases p.stop - k
  {
    hide Wrote, AtLine, SedMachines.Run, SedMachines.After, Drive, Sound, LegalScript;
    var next := SedMachines.After(env, SedMachines.Run(env, t, 0, m));
    assert Keeps(env, t, rs, p, k, m, outs);
    DriveStep(env, Tree(t), fuel, Top(m));
    DriveStep(env, Tree(t), fuel - 1, next);
    if k + p.step <= p.stop {
      RoundsFrom(env, t, rs, p, k + p.step, next.m, outs + p.emit(k), fuel - 1);
      assert outs + p.emit(k) + From(p, k + p.step) == outs + From(p, k);
    } else {
      assert p.emit(k) + [] == p.emit(k);
    }
  }

  /** The whole run writes what the rounds write, one after another. */
  lemma RunsThrough(env: Env, t: Script, rs: seq<Rec>, p: Plan, fuel: nat)
    requires Sound(env) && LegalScript(t) && rs != [] && forall k, m, outs :: Keeps(env, t, rs, p, k, m, outs)
    requires p.held(1, "", true)
    requires p.step > 0 && 1 <= p.stop && fuel >= p.stop
    ensures var r := RunStream(env, Tree(t), fuel, rs);
      r.Done? && Wrote(env, r.m, From(p, 1)) && r.m.quit == p.quit
  {
    hide AtLine, SedMachines.Run, SedMachines.After, Drive, Keeps, From;
    BootsAtLine(env, rs);
    var m := Boot(env, rs).m;
    assert Wrote(env, m, []);
    assert [] + From(p, 1) == From(p, 1);
    RoundsFrom(env, t, rs, p, 1, m, [], fuel);
  }

  // ----- One command --------------------------------------------------------------------------

  const LAST := R.Address(R.Last, R.Nowhere, false, false, false)

  function LineIs(k: nat): R.Address { R.Address(R.Line(k), R.Nowhere, false, false, false) }

  /** No address, `$`, `N`, and these with `!`. */
  predicate Simple(a: R.Address) {
    !a.hasA2 && (a.a1.Nowhere? || a.a1.Line? || a.a1.Last?) && (a.a1.Nowhere? ==> !a.negate)
  }

  /** Does such an address select the line that the machine is at? */
  predicate Selects(a: R.Address, m: State) {
    a.a1.Nowhere? || a.negate != (if a.a1.Line? then m.linenum == a.a1.n else m.lastLine)
  }

  /** A command is run if its address selects the line. */
  lemma RunOne(env: Env, t: Script, i: nat, m: State) returns (m1: State)
    requires Sound(env) && LegalScript(t) && t.One? && Simple(t.a)
    ensures m1 == m.(ranges := m1.ranges)
    ensures SedMachines.Run(env, t, i, m) ==
      if !Selects(t.a, m) then SedMachines.Run(env, t.rest, i + 1, m1) else
      var s := SedMachines.Step(env, t.op, true, m1);
      if s.Stop? then s.o else SedMachines.Run(env, t.rest, i + 1, s.m)
  {
    hide SedMachines.Run, SedMachines.Step, R.Opens;
    m1 := Check(env, t.a, i, m).0;
    RunStep(env, t, i, m);
  }

  lemma RunAlways(env: Env, t: Script, i: nat, m: State) returns (m1: State)
    requires Sound(env) && LegalScript(t) && t.One? && t.a == ALWAYS
    ensures Legal(t.op) && LegalScript(t.rest) && m1 == m.(ranges := m1.ranges)
    ensures var s := SedMachines.Step(env, t.op, true, m1);
      SedMachines.Run(env, t, i, m) == if s.Stop? then s.o else SedMachines.Run(env, t.rest, i + 1, s.m)
  {
    hide SedMachines.Run, SedMachines.Step;
    m1 := RunOne(env, t, i, m);
  }

  /** A block is run or skipped as a whole. */
  lemma RunBlock(env: Env, t: Script, i: nat, m: State) returns (m1: State)
    requires Sound(env) && LegalScript(t) && t.Block? && Simple(t.a)
    ensures m1 == m.(ranges := m1.ranges)
    ensures SedMachines.Run(env, t, i, m) ==
      if !Selects(t.a, m) then SedMachines.Run(env, t.rest, i + 2 + Size(t.body), m1) else
      var o := SedMachines.Run(env, t.body, i + 1, m1);
      if o.Fell? then SedMachines.Run(env, t.rest, i + 2 + Size(t.body), o.m) else o
  {
    hide SedMachines.Run, R.Opens;
    m1 := Check(env, t.a, i, m).0;
    RunStep(env, t, i, m);
  }

  /** The commands that move text between the spaces, or end the cycle. */
  lemma Steps(env: Env, m: State)
    requires Sound(env)
    ensures SedMachines.Step(env, Exchange, true, m)
         == Go(m.(ps := m.hs, psDelim := m.hsDelim, hs := m.ps, hsDelim := m.psDelim))
    ensures SedMachines.Step(env, Get, true, m) == Go(m.(ps := m.hs, psDelim := m.hsDelim))
    ensures SedMachines.Step(env, Hold, true, m) == Go(m.(hs := m.ps, hsDelim := m.psDelim))
    ensures SedMachines.Step(env, HoldAppend, true, m)
         == Go(m.(hs := m.hs + [env.delim] + m.ps, hsDelim := m.psDelim))
    ensures SedMachines.Step(env, Delete, true, m) == Stop(EndCycle(m, false))
  {}

  lemma RunEnd(env: Env, i: nat, m: State)
    requires Sound(env)
    ensures SedMachines.Run(env, End, i, m) == Fell(m)
  {}

  /** A cycle that reaches its end with `s` left behind, and with `mid` written by then. */
  lemma CycleKeeps(env: Env, t: Script, rs: seq<Rec>, p: Plan, k: nat, m: State, outs: seq<Rec>, s: State, show: bool,
                   mid: seq<Rec>)
    requires Sound(env) && LegalScript(t) && AtLine(env, rs, k, m) && Wrote(env, s, mid) && p.step == 1
    requires var o := SedMachines.Run(env, t, 0, m); o == EndCycle(s, show) || (show && o == Fell(s))
    requires s.linenum == k && s.peek == m.peek && s.input == m.input
    requires mid + Shown(env, s, show) == outs + p.emit(k)
    requires if k < p.stop then k < |rs| && s.quit == None && p.held(k + 1, s.hs, s.hsDelim)
             else s.quit == p.quit && (k == |rs| || s.quit.Some?)
    ensures Keeps(env, t, rs, p, k, m, outs)
  {
    hide SedMachines.Run, AtLine, Wrote, NextCycle, Shown, LegalScript;
    CycleOver(env, rs, k, m, s, show, mid);
  }

  /** The record of line `k`. */
  function Nth(rs: seq<Rec>, k: nat): Rec { if 0 < k <= |rs| then rs[k - 1] else Rec("", true) }

  /** Something written for every line, and nothing held. */
  function EachLine(n: nat, emit: nat -> seq<Rec>): Plan {
    Plan(1, n, emit, (k: nat, hs: string, delim: bool) => true, None)
  }

  // ----- `x;x` --------------------------------------------------------------------------------

  const SWAP_TWICE := One(ALWAYS, Exchange, One(ALWAYS, Exchange, End))

  function Copies(rs: seq<Rec>): nat -> seq<Rec> { (k: nat) => [Nth(rs, k)] }

  lemma {:induction false} FromCopies(p: Plan, k: nat, rs: seq<Rec>)
    requires p.step == 1 && p.stop <= |rs| && p.emit == Copies(rs) && 0 < k <= p.stop + 1
    ensures From(p, k) == rs[k - 1..p.stop]
    decreases p.stop - k
  {
    if k <= p.stop {
      FromCopies(p, k + 1, rs);
      assert rs[k - 1..p.stop] == [rs[k - 1]] + rs[k..p.stop];
    }
  }

  lemma SwapTwiceCycle(env: Env, m: State)
    requires Sound(env)
    ensures LegalScript(SWAP_TWICE)
    ensures var o := SedMachines.Run(env, SWAP_TWICE, 0, m); o == Fell(m.(ranges := o.m.ranges))
  {
    hide SedMachines.Run, SedMachines.Step;
    var m1 := RunOne(env, SWAP_TWICE, 0, m);
    Steps(env, m1);
    var m2 := RunOne(env, SWAP_TWICE.rest, 1, m1.(ps := m.hs, psDelim := m.hsDelim, hs := m.ps, hsDelim := m.psDelim));
    Steps(env, m2);
    RunEnd(env, 2, m2.(ps := m.ps, psDelim := m.psDelim, hs := m.hs, hsDelim := m.hsDelim));
  }

  lemma SwapTwiceKeeps(env: Env, rs: seq<Rec>, k: nat, m: State, outs: seq<Rec>)
    requires Sound(env) && !env.quiet
    ensures LegalScript(SWAP_TWICE) && Keeps(env, SWAP_TWICE, rs, EachLine(|rs|, Copies(rs)), k, m, outs)
  {
    hide SedMachines.Run, AtLine, Wrote, SedMachines.After, Shown;
    SwapTwiceCycle(env, m);
    if AtLine(env, rs, k, m) && Wrote(env, m, outs) {
      AtLineIs(env, rs, k, m);
      var s := SedMachines.Run(env, SWAP_TWICE, 0, m).m;
      WroteStays(env, m, s, outs);
      ShownPlain(env, s, true);
      CycleKeeps(env, SWAP_TWICE, rs, EachLine(|rs|, Copies(rs)), k, m, outs, s, true, outs);
    }
  }

  /** `x;x` copies its input. */
  lemma SwapTwiceCopies(env: Env, rs: seq<Rec>, fuel: nat)
    requires Sound(env) && !env.quiet && rs != [] && fuel >= |rs|
    ensures LegalScript(SWAP_TWICE) && var r := RunStream(env, Tree(SWAP_TWICE), fuel, rs);
      r.Done? && Wrote(env, r.m, rs) && r.m.quit == None
  {
    hide Keeps, RunStream, Wrote, From;
    var p := EachLine(|rs|, Copies(rs));
    forall k, m, outs ensures Keeps(env, SWAP_TWICE, rs, p, k, m, outs) { SwapTwiceKeeps(env, rs, k, m, outs); }
    RunsThrough(env, SWAP_TWICE, rs, p, fuel);
    FromCopies(p, 1, rs);
    assert rs[0..|rs|] == rs;
  }

  // ----- `q` and `Q` --------------------------------------------------------------------------

  function QuitAt(n: nat, code: nat): Script { One(LineIs(n), Quit(code), End) }
  function QuitSilentlyAt(n: nat, code: nat): Script { One(LineIs(n), QuitSilently(code), End) }

  /** The line behind which the run stops: line `n`, if there is one. */
  function StopAt(rs: seq<Rec>, n: nat): nat { if 0 < n <= |rs| then n else |rs| }
  function CodeAt(rs: seq<Rec>, n: nat, code: nat): Option<nat> { if 0 < n <= |rs| then Some(code) else None }

  function Quits(rs: seq<Rec>, n: nat, code: nat, emit: nat -> seq<Rec>): Plan {
    EachLine(StopAt(rs, n), emit).(quit := CodeAt(rs, n, code))
  }

  lemma QuitKeeps(env: Env, rs: seq<Rec>, n: nat, code: nat, k: nat, m: State, outs: seq<Rec>)
    requires Sound(env) && !env.quiet
    ensures Keeps(env, QuitAt(n, code), rs, Quits(rs, n, code, Copies(rs)), k, m, outs)
  {
    hide SedMachines.Run, AtLine, Wrote, SedMachines.After, Shown;
    if AtLine(env, rs, k, m) && Wrote(env, m, outs) && k <= StopAt(rs, n) {
      AtLineIs(env, rs, k, m);
      var m1 := RunOne(env, QuitAt(n, code), 0, m);
      var s := if k == n then m1.(quit := Some(code)) else m1;
      RunEnd(env, 1, m1);
      WroteStays(env, m, s, outs);
      ShownPlain(env, s, true);
      CycleKeeps(env, QuitAt(n, code), rs, Quits(rs, n, code, Copies(rs)), k, m, outs, s, true, outs);
    }
  }

  /** `nq` prints the lines up to line `n`, and its exit code is that of the command if there is such a line. */
  lemma QuitPrintsFirst(env: Env, rs: seq<Rec>, n: nat, code: nat, fuel: nat)
    requires Sound(env) && !env.quiet && rs != [] && fuel >= |rs|
    ensures LegalScript(QuitAt(n, code)) && var r := RunStream(env, Tree(QuitAt(n, code)), fuel, rs);
      r.Done? && Wrote(env, r.m, if 0 < n <= |rs| then rs[..n] else rs)
      && r.m.quit == if 0 < n <= |rs| then Some(code) else None
  {
    hide Keeps, RunStream, Wrote, From;
    var p := Quits(rs, n, code, Copies(rs));
    forall k, m, outs ensures Keeps(env, QuitAt(n, code), rs, p, k, m, outs) {
      QuitKeeps(env, rs, n, code, k, m, outs);
    }
    RunsThrough(env, QuitAt(n, code), rs, p, fuel);
    FromCopies(p, 1, rs);
    assert rs[0..p.stop] == rs[..p.stop] && rs[..|rs|] == rs;
  }

  function CopiesBut(rs: seq<Rec>, n: nat): nat -> seq<Rec> { (k: nat) => if k == n then [] else [Nth(rs, k)] }

  lemma {:induction false} FromCopiesBut(p: Plan, k: nat, rs: seq<Rec>, n: nat)
    requires p.step == 1 && 0 < n <= |rs| && p.stop == n && p.emit == CopiesBut(rs, n) && 0 < k <= n
    ensures From(p, k) == rs[k - 1..n - 1]
    decreases n - k
  {
    if k < n {
      FromCopiesBut(p, k + 1, rs, n);
      assert rs[k - 1..n - 1] == [rs[k - 1]] + rs[k..n - 1];
    } else {
      assert From(p, k) == [] + From(p, k + 1);
    }
  }

  lemma QuitSilentlyKeeps(env: Env, rs: seq<Rec>, n: nat, code: nat, k: nat, m: State, outs: seq<Rec>)
    requires Sound(env) && !env.quiet && 0 < n <= |rs|
    ensures Keeps(env, QuitSilentlyAt(n, code), rs, Quits(rs, n, code, CopiesBut(rs, n)), k, m, outs)
  {
    hide SedMachines.Run, AtLine, Wrote, SedMachines.After, Shown;
    if AtLine(env, rs, k, m) && Wrote(env, m, outs) && k <= n {
      AtLineIs(env, rs, k, m);
      var m1 := RunOne(env, QuitSilentlyAt(n, code), 0, m);
      var s := if k == n then m1.(quit := Some(code)) else m1;
      RunEnd(env, 1, m1);
      WroteStays(env, m, s, outs);
      ShownPlain(env, s, k != n);
      CycleKeeps(env, QuitSilentlyAt(n, code), rs, Quits(rs, n, code, CopiesBut(rs, n)), k, m, outs, s, k != n, outs);
    }
  }

  /** `nQ` prints the lines before line `n`. */
  lemma QuitSilentlyPrintsBefore(env: Env, rs: seq<Rec>, n: nat, code: nat, fuel: nat)
    requires Sound(env) && !env.quiet && 0 < n <= |rs| && fuel >= |rs|
    ensures LegalScript(QuitSilentlyAt(n, code))
    ensures var r := RunStream(env, Tree(QuitSilentlyAt(n, code)), fuel, rs);
      r.Done? && Wrote(env, r.m, rs[..n - 1]) && r.m.quit == Some(code)
  {
    hide Keeps, RunStream, Wrote, From;
    var p := Quits(rs, n, code, CopiesBut(rs, n));
    forall k, m, outs ensures Keeps(env, QuitSilentlyAt(n, code), rs, p, k, m, outs) {
      QuitSilentlyKeeps(env, rs, n, code, k, m, outs);
    }
    RunsThrough(env, QuitSilentlyAt(n, code), rs, p, fuel);
    FromCopiesBut(p, 1, rs, n);
  }

  // ----- Something at the last line only ------------------------------------------------------

  function AtLast(n: nat, outs: seq<Rec>): nat -> seq<Rec> { (k: nat) => if k == n then outs else [] }

  lemma {:induction false} FromAtLast(p: Plan, k: nat, outs: seq<Rec>)
    requires p.step == 1 && p.emit == AtLast(p.stop, outs) && 0 < k <= p.stop
    ensures From(p, k) == outs
    decreases p.stop - k
  {
    if k < p.stop { FromAtLast(p, k + 1, outs); } else { assert From(p, k) == outs + From(p, k + 1); }
  }

  /** `$=` */
  const COUNT := One(LAST, LineNumber, End)

  lemma CountKeeps(env: Env, rs: seq<Rec>, k: nat, m: State, outs: seq<Rec>)
    requires Sound(env) && env.quiet && env.lookahead
    ensures LegalScript(COUNT)
    ensures Keeps(env, COUNT, rs, EachLine(|rs|, AtLast(|rs|, [Rec(Decimal(|rs|), true)])), k, m, outs)
  {
    hide SedMachines.Run, AtLine, Wrote, SedMachines.After, Shown, OutRecord, Decimal;
    if AtLine(env, rs, k, m) && Wrote(env, m, outs) {
      AtLineIs(env, rs, k, m);
      var m1 := RunOne(env, COUNT, 0, m);
      WroteStays(env, m, m1, outs);
      RecordWritten(env, m1, outs, Decimal(k), true);
      OutRecordIs(env, m1, Decimal(k), true);
      var s := if k == |rs| then OutRecord(env, m1, Decimal(k), true) else m1;
      var mid := if k == |rs| then outs + [Rec(Decimal(k), true)] else outs;
      RunEnd(env, 1, s);
      ShownPlain(env, s, true);
      CycleKeeps(env, COUNT, rs, EachLine(|rs|, AtLast(|rs|, [Rec(Decimal(|rs|), true)])), k, m, outs, s, true, mid);
    }
  }

  lemma OutRecordIs(env: Env, m: State, text: string, delim: bool)
    ensures var n := OutRecord(env, m, text, delim); n == m.(out := n.out, pendingNl := n.pendingNl)
  {}

  /** `$=` under `-n` prints the number of lines. */
  lemma CountCounts(env: Env, rs: seq<Rec>, fuel: nat)
    requires Sound(env) && env.quiet && env.lookahead && rs != [] && fuel >= |rs|
    ensures LegalScript(COUNT) && var r := RunStream(env, Tree(COUNT), fuel, rs);
      r.Done? && Wrote(env, r.m, [Rec(Decimal(|rs|), true)]) && r.m.quit == None
  {
    hide Keeps, RunStream, Wrote, From, Decimal;
    var outs1 := [Rec(Decimal(|rs|), true)];
    var p := EachLine(|rs|, AtLast(|rs|, outs1));
    forall k, m, outs ensures Keeps(env, COUNT, rs, p, k, m, outs) { CountKeeps(env, rs, k, m, outs); }
    RunsThrough(env, COUNT, rs, p, fuel);
    FromAtLast(p, 1, outs1);
  }

  /** A decimal numeral: its digits, without a leading zero, have the number as their value. */
  lemma {:induction false} DecimalReads(n: nat)
    ensures var t := Decimal(n);
      t != [] && A.DigitsValue(t, 10) == n && (forall c :: c in t ==> '0' <= c <= '9') && (t[0] == '0' <==> n == 0)
  {
    var c := ('0' as int + n % 10) as char;
    assert A.DigitValue(c) == n % 10;
    if n < 10 {
      assert Decimal(n)[..0] == [];
      assert A.DigitsValue([], 10) == 0;
    } else {
      DecimalReads(n / 10);
      assert Decimal(n)[..|Decimal(n)| - 1] == Decimal(n / 10);
    }
  }

  // ----- `H;$!d;x` ----------------------------------------------------------------------------

  /** A delimiter and the text of each of the first `k` lines. */
  function Joined(rs: seq<Rec>, k: nat, d: char): string
    requires k <= |rs|
  { if k == 0 then "" else Joined(rs, k - 1, d) + [d] + rs[k - 1].text }

  const JOIN := One(ALWAYS, HoldAppend, JOIN_DELETE)
  const JOIN_DELETE := One(NOT_LAST, Delete, One(ALWAYS, Exchange, End))

  function JoinPlan(env: Env, rs: seq<Rec>): Plan
    requires rs != []
  {
    Plan(1, |rs|, AtLast(|rs|, [Rec(Joined(rs, |rs|, env.delim), rs[|rs| - 1].delim)]),
         (k: nat, hs: string, delim: bool) => 0 < k <= |rs| ==> hs == Joined(rs, k - 1, env.delim), None)
  }

  lemma JoinedStep(rs: seq<Rec>, k: nat, d: char)
    requires 0 < k <= |rs|
    ensures Joined(rs, k, d) == Joined(rs, k - 1, d) + [d] + rs[k - 1].text
  {}

  /** What a cycle leaves: the line behind those held, and on the last line the two spaces exchanged. */
  function JoinState(env: Env, m: State): State {
    var held := m.hs + [env.delim] + m.ps;
    if m.lastLine then m.(ps := held, hs := m.ps) else m.(hs := held, hsDelim := m.psDelim)
  }

  lemma JoinCycle(env: Env, m: State)
    requires Sound(env)
    ensures LegalScript(JOIN)
    ensures var o := SedMachines.Run(env, JOIN, 0, m); var s := JoinState(env, m).(ranges := o.m.ranges);
      if m.lastLine then o == Fell(s.(hsDelim := m.psDelim)) else o == EndCycle(s, false)
  {
    hide SedMachines.Run, SedMachines.Step;
    var m1 := RunOne(env, JOIN, 0, m);
    var s1 := m1.(hs := m.hs + [env.delim] + m.ps, hsDelim := m.psDelim);
    Steps(env, m1);
    var m2 := RunOne(env, JOIN_DELETE, 1, s1);
    Steps(env, m2);
    if m.lastLine {
      var m3 := RunOne(env, JOIN_DELETE.rest, 2, m2);
      Steps(env, m3);
      RunEnd(env, 3, m3.(ps := m3.hs, psDelim := m3.hsDelim, hs := m3.ps, hsDelim := m3.psDelim));
    }
  }

  lemma JoinKeeps(env: Env, rs: seq<Rec>, k: nat, m: State, outs: seq<Rec>)
    requires Sound(env) && !env.quiet && env.lookahead && rs != []
    ensures LegalScript(JOIN) && Keeps(env, JOIN, rs, JoinPlan(env, rs), k, m, outs)
  {
    hide SedMachines.Run, AtLine, Wrote, SedMachines.After, Shown, Joined;
    JoinCycle(env, m);
    if AtLine(env, rs, k, m) && Wrote(env, m, outs) && JoinPlan(env, rs).held(k, m.hs, m.hsDelim) {
      AtLineIs(env, rs, k, m);
      JoinedStep(rs, k, env.delim);
      var s := SedMachines.Run(env, JOIN, 0, m).m;
      WroteStays(env, m, s, outs);
      ShownPlain(env, s, k == |rs|);
      CycleKeeps(env, JOIN, rs, JoinPlan(env, rs), k, m, outs, s, k == |rs|, outs);
    }
  }

  /** `H;$!d;x` prints a delimiter and all lines in order, as one. */
  lemma JoinJoins(env: Env, rs: seq<Rec>, fuel: nat)
    requires Sound(env) && !env.quiet && env.lookahead && rs != [] && fuel >= |rs|
    ensures LegalScript(JOIN) && var r := RunStream(env, Tree(JOIN), fuel, rs);
      r.Done? && r.m.out + (if rs[|rs| - 1].delim then "" else [env.delim]) == [env.delim] + Lines(rs, env.delim)
      && r.m.pendingNl == !rs[|rs| - 1].delim && r.m.quit == None
  {
    hide Keeps, RunStream, Lines, Wrote, Joined, From;
    var p := JoinPlan(env, rs);
    forall k, m, outs ensures Keeps(env, JOIN, rs, p, k, m, outs) { JoinKeeps(env, rs, k, m, outs); }
    JoinStart(env, rs);
    RunsThrough(env, JOIN, rs, p, fuel);
    FromAtLast(p, 1, [Rec(Joined(rs, |rs|, env.delim), rs[|rs| - 1].delim)]);
    JoinedWritten(env, rs, RunStream(env, Tree(JOIN), fuel, rs).m);
  }

  lemma JoinStart(env: Env, rs: seq<Rec>)
    requires rs != []
    ensures JoinPlan(env, rs).held(1, "", true)
  {}

  lemma JoinedWritten(env: Env, rs: seq<Rec>, m: State)
    requires rs != [] && Wrote(env, m, [Rec(Joined(rs, |rs|, env.delim), rs[|rs| - 1].delim)])
    ensures m.out + (if rs[|rs| - 1].delim then "" else [env.delim]) == [env.delim] + Lines(rs, env.delim)
    ensures m.pendingNl == !rs[|rs| - 1].delim
  {
    hide Lines, Joined, Printed;
    var text := Joined(rs, |rs|, env.delim);
    PrintedOne(Rec(text, rs[|rs| - 1].delim), env.delim);
    JoinedIsLines(rs, |rs|, env.delim);
    assert rs[..|rs|] == rs;
    DelimiterOnce(text, env.delim, rs[|rs| - 1].delim);
  }

  lemma DelimiterOnce(text: string, d: char, delim: bool)
    ensures text + (if delim then [d] else "") + (if delim then "" else [d]) == text + [d]
  {}

  lemma PrintedOne(r: Rec, d: char)
    ensures Printed([r], d) == r.text + if r.delim then [d] else ""
  { assert [r][..0] == [] && Lines([], d) == "" && "" + r.text == r.text; }

  lemma {:induction false} JoinedIsLines(rs: seq<Rec>, k: nat, d: char)
    requires k <= |rs|
    ensures Joined(rs, k, d) + [d] == [d] + Lines(rs[..k], d)
  {
    if k == 0 {
      assert rs[..0] == [] && Lines([], d) == "";
    } else {
      JoinedIsLines(rs, k - 1, d);
      LinesStep(rs[..k], d);
      assert rs[..k][..k - 1] == rs[..k - 1];
      assert [d] + Lines(rs[..k], d) == [d] + Lines(rs[..k - 1], d) + rs[k - 1].text + [d];
    }
  }

  // ----- `$!{h;d};g` --------------------------------------------------------------------------

  const BEFORE_LAST := Block(NOT_LAST, One(ALWAYS, Hold, One(ALWAYS, Delete, End)), One(ALWAYS, Get, End))

  function BeforeLastPlan(rs: seq<Rec>): Plan {
    Plan(1, |rs|, AtLast(|rs|, [Nth(rs, if |rs| > 0 then |rs| - 1 else 0)]),
         (k: nat, hs: string, delim: bool) => k > 0 ==> Rec(hs, delim) == Nth(rs, k - 1), None)
  }

  lemma BeforeLastCycle(env: Env, m: State)
    requires Sound(env)
    ensures LegalScript(BEFORE_LAST)
    ensures var o := SedMachines.Run(env, BEFORE_LAST, 0, m); var s := m.(ranges := o.m.ranges);
      if m.lastLine then o == Fell(s.(ps := m.hs, psDelim := m.hsDelim))
      else o == EndCycle(s.(hs := m.ps, hsDelim := m.psDelim), false)
  {
    hide SedMachines.Run, SedMachines.Step;
    var m1 := RunBlock(env, BEFORE_LAST, 0, m);
    if m.lastLine {
      var m2 := RunOne(env, BEFORE_LAST.rest, 4, m1);
      Steps(env, m2);
      RunEnd(env, 5, m2.(ps := m.hs, psDelim := m.hsDelim));
    } else {
      var m2 := RunOne(env, BEFORE_LAST.body, 1, m1);
      Steps(env, m2);
      var m3 := RunOne(env, BEFORE_LAST.body.rest, 2, m2.(hs := m.ps, hsDelim := m.psDelim));
      Steps(env, m3);
    }
  }

  lemma BeforeLastPlanIs(rs: seq<Rec>, k: nat)
    ensures var p := BeforeLastPlan(rs);
      && p.step == 1 && p.stop == |rs| && p.quit == None && p.emit == AtLast(|rs|, p.emit(|rs|))
      && p.emit(|rs|) == [Nth(rs, if |rs| > 0 then |rs| - 1 else 0)] && (k != |rs| ==> p.emit(k) == [])
    ensures forall hs, delim :: BeforeLastPlan(rs).held(k, hs, delim) <==> (k > 0 ==> Rec(hs, delim) == Nth(rs, k - 1))
    ensures forall hs, delim :: BeforeLastPlan(rs).held(k + 1, hs, delim) <==> Rec(hs, delim) == Nth(rs, k)
  {}

  lemma BeforeLastKeeps(env: Env, rs: seq<Rec>, k: nat, m: State, outs: seq<Rec>)
    requires Sound(env) && !env.quiet && env.lookahead
    ensures LegalScript(BEFORE_LAST) && Keeps(env, BEFORE_LAST, rs, BeforeLastPlan(rs), k, m, outs)
  {
    hide SedMachines.Run, AtLine, Wrote, SedMachines.After, Shown, BeforeLastPlan;
    BeforeLastPlanIs(rs, k);
    BeforeLastCycle(env, m);
    if AtLine(env, rs, k, m) && Wrote(env, m, outs) && BeforeLastPlan(rs).held(k, m.hs, m.hsDelim) {
      AtLineIs(env, rs, k, m);
      var s := SedMachines.Run(env, BEFORE_LAST, 0, m).m;
      WroteStays(env, m, s, outs);
      ShownPlain(env, s, k == |rs|);
      CycleKeeps(env, BEFORE_LAST, rs, BeforeLastPlan(rs), k, m, outs, s, k == |rs|, outs);
    }
  }

  /** `$!{h;d};g` prints the last line but one, or an empty line if there is only one: on the last line the hold
      space has the line before it. */
  lemma BeforeLastPrints(env: Env, rs: seq<Rec>, fuel: nat)
    requires Sound(env) && !env.quiet && env.lookahead && rs != [] && fuel >= |rs|
    ensures LegalScript(BEFORE_LAST) && var r := RunStream(env, Tree(BEFORE_LAST), fuel, rs);
      r.Done? && Wrote(env, r.m, [if |rs| > 1 then rs[|rs| - 2] else Rec("", true)]) && r.m.quit == None
  {
    hide Keeps, RunStream, Wrote, From;
    var p := BeforeLastPlan(rs);
    forall k, m, outs ensures Keeps(env, BEFORE_LAST, rs, p, k, m, outs) { BeforeLastKeeps(env, rs, k, m, outs); }
    RunsThrough(env, BEFORE_LAST, rs, p, fuel);
    FromAtLast(p, 1, [Nth(rs, |rs| - 1)]);
  }

  // ----- `p` ----------------------------------------------------------------------------------

  const PRINT := One(ALWAYS, Print, End)

  lemma PrintKeeps(env: Env, rs: seq<Rec>, k: nat, m: State, outs: seq<Rec>)
    requires Sound(env) && env.quiet
    ensures LegalScript(PRINT) && Keeps(env, PRINT, rs, EachLine(|rs|, Copies(rs)), k, m, outs)
  {
    hide SedMachines.Run, AtLine, Wrote, SedMachines.After, Shown, OutRecord;
    if AtLine(env, rs, k, m) && Wrote(env, m, outs) {
      AtLineIs(env, rs, k, m);
      var m1 := RunOne(env, PRINT, 0, m);
      WroteStays(env, m, m1, outs);
      RecordWritten(env, m1, outs, m.ps, m.psDelim);
      OutRecordIs(env, m1, m.ps, m.psDelim);
      var s := OutRecord(env, m1, m.ps, m.psDelim);
      RunEnd(env, 1, s);
      ShownPlain(env, s, true);
      CycleKeeps(env, PRINT, rs, EachLine(|rs|, Copies(rs)), k, m, outs, s, true, outs + [Rec(m.ps, m.psDelim)]);
    }
  }

  /** `p` under `-n` copies its input. */
  lemma PrintCopies(env: Env, rs: seq<Rec>, fuel: nat)
    requires Sound(env) && env.quiet && rs != [] && fuel >= |rs|
    ensures LegalScript(PRINT) && var r := RunStream(env, Tree(PRINT), fuel, rs);
      r.Done? && Wrote(env, r.m, rs) && r.m.quit == None
  {
    hide Keeps, RunStream, Wrote, From;
    var p := EachLine(|rs|, Copies(rs));
    forall k, m, outs ensures Keeps(env, PRINT, rs, p, k, m, outs) { PrintKeeps(env, rs, k, m, outs); }
    RunsThrough(env, PRINT, rs, p, fuel);
    FromCopies(p, 1, rs);
    assert rs[0..|rs|] == rs;
  }

  // ----- `z` ----------------------------------------------------------------------------------

  const EMPTY_ALL := One(ALWAYS, Zap, End)

  function Emptied(rs: seq<Rec>): nat -> seq<Rec> { (k: nat) => [Rec("", Nth(rs, k).delim)] }

  lemma EmptyKeeps(env: Env, rs: seq<Rec>, k: nat, m: State, outs: seq<Rec>)
    requires Sound(env) && !env.quiet
    ensures LegalScript(EMPTY_ALL) && Keeps(env, EMPTY_ALL, rs, EachLine(|rs|, Emptied(rs)), k, m, outs)
  {
    hide SedMachines.Run, AtLine, Wrote, SedMachines.After, Shown;
    if AtLine(env, rs, k, m) && Wrote(env, m, outs) {
      AtLineIs(env, rs, k, m);
      var m1 := RunOne(env, EMPTY_ALL, 0, m);
      var s := m1.(ps := "");
      RunEnd(env, 1, s);
      WroteStays(env, m, s, outs);
      ShownPlain(env, s, true);
      CycleKeeps(env, EMPTY_ALL, rs, EachLine(|rs|, Emptied(rs)), k, m, outs, s, true, outs);
    }
  }

  lemma {:induction false} FromEmptied(p: Plan, k: nat, rs: seq<Rec>)
    requires p.step == 1 && p.stop == |rs| && p.emit == Emptied(rs) && 0 < k <= |rs| + 1
    ensures |From(p, k)| == |rs| + 1 - k
    ensures forall i :: 0 <= i < |rs| + 1 - k ==> From(p, k)[i] == Rec("", rs[k - 1 + i].delim)
    decreases |rs| - k
  {
    if k <= |rs| {
      FromEmptied(p, k + 1, rs);
      assert From(p, k) == [Rec("", rs[k - 1].delim)] + From(p, k + 1);
    }
  }

  /** `z` leaves the delimiters alone. */
  lemma EmptyLines(env: Env, rs: seq<Rec>, fuel: nat) returns (outs: seq<Rec>)
    requires Sound(env) && !env.quiet && rs != [] && fuel >= |rs|
    ensures LegalScript(EMPTY_ALL) && var r := RunStream(env, Tree(EMPTY_ALL), fuel, rs);
      r.Done? && Wrote(env, r.m, outs) && r.m.quit == None
    ensures |outs| == |rs| && forall i :: 0 <= i < |rs| ==> outs[i] == Rec("", rs[i].delim)
  {
    hide Keeps, RunStream, Wrote, From;
    var p := EachLine(|rs|, Emptied(rs));
    forall k, m, outs1 ensures Keeps(env, EMPTY_ALL, rs, p, k, m, outs1) { EmptyKeeps(env, rs, k, m, outs1); }
    RunsThrough(env, EMPTY_ALL, rs, p, fuel);
    outs := From(p, 1);
    FromEmptied(p, 1, rs);
  }

  // ----- `i`, `a`, `c` and `y` ----------------------------------------------------------------

  function InsertAll(text: string): Script { One(ALWAYS, Insert(text), End) }
  function AppendAll(text: string): Script { One(ALWAYS, Append(text), End) }
  function ChangeAll(text: string): Script { One(ALWAYS, Change(text), End) }
  function TranslateAll(y: map<char, char>): Script { One(ALWAYS, Translate(y), End) }

  function Pairs(rs: seq<Rec>, text: string, before: bool): nat -> seq<Rec> {
    (k: nat) => if before then [Rec(text, true), Nth(rs, k)] else [Nth(rs, k), Rec(text, true)]
  }

  lemma {:induction false} FromPairs(p: Plan, k: nat, rs: seq<Rec>, text: string, before: bool)
    requires p.step == 1 && p.stop == |rs| && p.emit == Pairs(rs, text, before) && 0 < k <= |rs| + 1
    ensures var outs := From(p, k);
      && |outs| == 2 * (|rs| + 1 - k)
      && forall i :: 0 <= i < |rs| + 1 - k ==>
           outs[2 * i] == (if before then Rec(text, true) else rs[k - 1 + i])
           && outs[2 * i + 1] == if before then rs[k - 1 + i] else Rec(text, true)
    decreases |rs| - k
  {
    if k <= |rs| {
      FromPairs(p, k + 1, rs, text, before);
      var outs, more := From(p, k), From(p, k + 1);
      assert outs == p.emit(k) + more && |p.emit(k)| == 2;
      forall i | 0 <= i < |rs| + 1 - k
        ensures outs[2 * i] == (if before then Rec(text, true) else rs[k - 1 + i])
             && outs[2 * i + 1] == if before then rs[k - 1 + i] else Rec(text, true)
      {
        if i > 0 { assert outs[2 * i] == more[2 * (i - 1)] && outs[2 * i + 1] == more[2 * (i - 1) + 1]; }
      }
    }
  }

  lemma InsertKeeps(env: Env, rs: seq<Rec>, text: string, k: nat, m: State, outs: seq<Rec>)
    requires Sound(env) && !env.quiet
    ensures Keeps(env, InsertAll(text), rs, EachLine(|rs|, Pairs(rs, text, true)), k, m, outs)
  {
    hide SedMachines.Run, AtLine, Wrote, SedMachines.After, Shown, OutRecord;
    if AtLine(env, rs, k, m) && Wrote(env, m, outs) {
      AtLineIs(env, rs, k, m);
      var m1 := RunOne(env, InsertAll(text), 0, m);
      WroteStays(env, m, m1, outs);
      RecordWritten(env, m1, outs, text, true);
      OutRecordIs(env, m1, text, true);
      var s := OutRecord(env, m1, text, true);
      RunEnd(env, 1, s);
      ShownPlain(env, s, true);
      CycleKeeps(env, InsertAll(text), rs, EachLine(|rs|, Pairs(rs, text, true)), k, m, outs, s, true,
                 outs + [Rec(text, true)]);
    }
  }

  lemma AppendKeeps(env: Env, rs: seq<Rec>, text: string, k: nat, m: State, outs: seq<Rec>)
    requires Sound(env) && !env.quiet
    ensures Keeps(env, AppendAll(text), rs, EachLine(|rs|, Pairs(rs, text, false)), k, m, outs)
  {
    hide SedMachines.Run, AtLine, Wrote, SedMachines.After, OutRecord;
    if AtLine(env, rs, k, m) && Wrote(env, m, outs) {
      AtLineIs(env, rs, k, m);
      var m1 := RunOne(env, AppendAll(text), 0, m);
      var s := m1.(queue := [text]);
      assert m.queue + [text] == [text];
      WroteStays(env, m, s, outs);
      RunEnd(env, 1, s);
      CycleKeeps(env, AppendAll(text), rs, EachLine(|rs|, Pairs(rs, text, false)), k, m, outs, s, true, outs);
    }
  }

  /** `i` and `a` print the text before and behind every line, whether or not the line has its delimiter. */
  lemma InsertAndAppend(env: Env, rs: seq<Rec>, text: string, before: bool, fuel: nat) returns (outs: seq<Rec>)
    requires Sound(env) && !env.quiet && rs != [] && fuel >= |rs|
    ensures var t := if before then InsertAll(text) else AppendAll(text);
      LegalScript(t) && var r := RunStream(env, Tree(t), fuel, rs);
      r.Done? && Wrote(env, r.m, outs) && r.m.quit == None
    ensures |outs| == 2 * |rs|
    ensures forall i :: 0 <= i < |rs| ==>
      outs[2 * i] == (if before then Rec(text, true) else rs[i])
      && outs[2 * i + 1] == if before then rs[i] else Rec(text, true)
  {
    hide Keeps, RunStream, Wrote, From;
    var p := EachLine(|rs|, Pairs(rs, text, before));
    var t := if before then InsertAll(text) else AppendAll(text);
    forall k, m, outs ensures Keeps(env, t, rs, p, k, m, outs) {
      if before { InsertKeeps(env, rs, text, k, m, outs); } else { AppendKeeps(env, rs, text, k, m, outs); }
    }
    RunsThrough(env, t, rs, p, fuel);
    outs := From(p, 1);
    FromPairs(p, 1, rs, text, before);
  }

  function OneFor(f: nat -> Rec): nat -> seq<Rec> { (k: nat) => [f(k)] }

  lemma {:induction false} FromOneFor(p: Plan, k: nat, f: nat -> Rec, n: nat)
    requires p.step == 1 && p.stop == n && p.emit == OneFor(f) && 0 < k <= n + 1
    ensures |From(p, k)| == n + 1 - k && forall i :: 0 <= i < n + 1 - k ==> From(p, k)[i] == f(k + i)
    decreases n - k
  {
    if k <= n {
      FromOneFor(p, k + 1, f, n);
      assert From(p, k) == [f(k)] + From(p, k + 1);
    }
  }

  lemma ChangeKeeps(env: Env, rs: seq<Rec>, text: string, k: nat, m: State, outs: seq<Rec>)
    requires Sound(env)
    ensures Keeps(env, ChangeAll(text), rs, EachLine(|rs|, OneFor((k: nat) => Rec(text, true))), k, m, outs)
  {
    hide SedMachines.Run, AtLine, Wrote, SedMachines.After, Shown, OutRecord;
    if AtLine(env, rs, k, m) && Wrote(env, m, outs) {
      AtLineIs(env, rs, k, m);
      var m1 := RunOne(env, ChangeAll(text), 0, m);
      WroteStays(env, m, m1, outs);
      RecordWritten(env, m1, outs, text, true);
      OutRecordIs(env, m1, text, true);
      var s := OutRecord(env, m1, text, true);
      ShownPlain(env, s, false);
      CycleKeeps(env, ChangeAll(text), rs, EachLine(|rs|, OneFor((k: nat) => Rec(text, true))), k, m, outs, s, false,
                 outs + [Rec(text, true)]);
    }
  }

  /** `c` prints the text in place of every line, whole lines in any case. */
  lemma ChangeChanges(env: Env, rs: seq<Rec>, text: string, fuel: nat)
    requires Sound(env) && rs != [] && fuel >= |rs|
    ensures LegalScript(ChangeAll(text)) && var r := RunStream(env, Tree(ChangeAll(text)), fuel, rs);
      r.Done? && Wrote(env, r.m, seq(|rs|, i => Rec(text, true))) && r.m.quit == None
  {
    hide Keeps, RunStream, Wrote, From;
    var f := (k: nat) => Rec(text, true);
    var p := EachLine(|rs|, OneFor(f));
    forall k, m, outs ensures Keeps(env, ChangeAll(text), rs, p, k, m, outs) {
      ChangeKeeps(env, rs, text, k, m, outs);
    }
    RunsThrough(env, ChangeAll(text), rs, p, fuel);
    FromOneFor(p, 1, f, |rs|);
    assert From(p, 1) == seq(|rs|, i => Rec(text, true));
  }

  function Mapped(rs: seq<Rec>, y: map<char, char>): nat -> Rec {
    (k: nat) => Rec(Translated(Nth(rs, k).text, y), Nth(rs, k).delim)
  }

  lemma TranslateKeeps(env: Env, rs: seq<Rec>, y: map<char, char>, k: nat, m: State, outs: seq<Rec>)
    requires Sound(env) && !env.quiet
    ensures Keeps(env, TranslateAll(y), rs, EachLine(|rs|, OneFor(Mapped(rs, y))), k, m, outs)
  {
    hide SedMachines.Run, AtLine, Wrote, SedMachines.After, Shown, Translated;
    if AtLine(env, rs, k, m) && Wrote(env, m, outs) {
      AtLineIs(env, rs, k, m);
      var m1 := RunOne(env, TranslateAll(y), 0, m);
      var s := m1.(ps := Translated(m.ps, y));
      RunEnd(env, 1, s);
      WroteStays(env, m, s, outs);
      ShownPlain(env, s, true);
      CycleKeeps(env, TranslateAll(y), rs, EachLine(|rs|, OneFor(Mapped(rs, y))), k, m, outs, s, true, outs);
    }
  }

  /** `y` replaces each listed character of every line and leaves all else. */
  lemma TranslateTranslates(env: Env, rs: seq<Rec>, y: map<char, char>, fuel: nat) returns (outs: seq<Rec>)
    requires Sound(env) && !env.quiet && rs != [] && fuel >= |rs|
    ensures LegalScript(TranslateAll(y)) && var r := RunStream(env, Tree(TranslateAll(y)), fuel, rs);
      r.Done? && Wrote(env, r.m, outs) && r.m.quit == None
    ensures |outs| == |rs|
    ensures forall i :: 0 <= i < |rs| ==> outs[i].delim == rs[i].delim && |outs[i].text| == |rs[i].text|
    ensures forall i, j :: 0 <= i < |rs| && 0 <= j < |rs[i].text| ==>
      var c := rs[i].text[j]; outs[i].text[j] == if c in y then y[c] else c
  {
    hide Keeps, RunStream, Wrote, From;
    var p := EachLine(|rs|, OneFor(Mapped(rs, y)));
    forall k, m, outs ensures Keeps(env, TranslateAll(y), rs, p, k, m, outs) {
      TranslateKeeps(env, rs, y, k, m, outs);
    }
    RunsThrough(env, TranslateAll(y), rs, p, fuel);
    outs := From(p, 1);
    FromOneFor(p, 1, Mapped(rs, y), |rs|);
    hide *;
    MappedAre(rs, y, outs);
  }

  lemma MappedAre(rs: seq<Rec>, y: map<char, char>, outs: seq<Rec>)
    requires |outs| == |rs| && forall i :: 0 <= i < |rs| ==> outs[i] == Mapped(rs, y)(1 + i)
    ensures forall i :: 0 <= i < |rs| ==> outs[i].delim == rs[i].delim && |outs[i].text| == |rs[i].text|
    ensures forall i, j :: 0 <= i < |rs| && 0 <= j < |rs[i].text| ==>
      var c := rs[i].text[j]; outs[i].text[j] == if c in y then y[c] else c
  {}
}
