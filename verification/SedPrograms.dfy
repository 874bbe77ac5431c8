/** What whole programs do to whole streams: the empty script copies its input, and `1!G;h;$!d` prints the
    lines in reverse order. */
module SedPrograms {
  import opened Options
  import R = SedRanges
  import opened SedMachines

  /** Records as lines of text, each with its delimiter. */
  function Lines(rs: seq<Rec>, d: char): string {
    if rs == [] then "" else Lines(rs[..|rs| - 1], d) + rs[|rs| - 1].text + [d]
  }

  function Reversed(rs: seq<Rec>): (r: seq<Rec>)
    ensures |r| == |rs| && forall i :: 0 <= i < |r| ==> r[i] == rs[|rs| - 1 - i]
  { if rs == [] then [] else [rs[|rs| - 1]] + Reversed(rs[..|rs| - 1]) }

  /** At line `k` of `rs`: the record is in the pattern space and the rest is to come. */
  predicate AtLine(env: Env, rs: seq<Rec>, k: nat, m: State) {
    && 0 < k <= |rs| && m.linenum == k && m.ps == rs[k - 1].text && m.psDelim == rs[k - 1].delim
    && Ahead(m) == rs[k..] && (env.lookahead ==> m.lastLine == (k == |rs|) && (m.peek.None? ==> m.input == []))
    && m.queue == [] && m.quit == None
  }

  function Ahead(m: State): seq<Rec> { (if m.peek.Some? then [m.peek.value] else []) + m.input }

  lemma BootsAtLine(env: Env, rs: seq<Rec>)
    requires rs != []
    ensures Boot(env, rs).Top? && AtLine(env, rs, 1, Boot(env, rs).m)
    ensures var m := Boot(env, rs).m; m.hs == "" && m.hsDelim && m.out == "" && !m.pendingNl
  {
    assert rs[1..] == [] || rs[1..] == [rs[1]] + rs[1..][1..];
  }

  lemma Refills(env: Env, rs: seq<Rec>, k: nat, m: State)
    requires 0 < k <= |rs| && m.linenum == k && Ahead(m) == rs[k..] && m.queue == [] && m.quit == None
    requires env.lookahead && m.peek.None? ==> m.input == []
    ensures var n := NextRecord(env, m);
      if k < |rs| then n.Some? && AtLine(env, rs, k + 1, n.value) && n.value == Refilled(m, n.value) else n.None?
  {
    FetchedIs(m, rs, k);
    if k < |rs| {
      LooksAhead(env, m.(ps := rs[k].text, psDelim := rs[k].delim, linenum := k + 1, tflag := false, peek := None,
                         input := rs[k + 1..]));
    }
  }

  lemma FetchedIs(m: State, rs: seq<Rec>, k: nat)
    requires k <= |rs| && Ahead(m) == rs[k..]
    ensures k < |rs| && (m.peek.None? ==> m.input != []) ==> Fetched(m) == Some((rs[k], rs[k + 1..]))
    ensures m.peek.None? && m.input == [] ==> k == |rs|
    ensures k == |rs| ==> Fetched(m) == None
  {
    assert |Ahead(m)| == |rs| - k && (m.peek.None? ==> Ahead(m) == m.input);
    if k < |rs| {
      assert Ahead(m)[0] == rs[k] && Ahead(m)[1..] == rs[k + 1..];
      if m.peek.Some? { assert Ahead(m)[1..] == m.input; }
    }
  }

  lemma LooksAhead(env: Env, m: State)
    requires m.peek.None?
    ensures var n := LookedAhead(env, m);
      && Ahead(n) == m.input && n == m.(peek := n.peek, input := n.input, lastLine := n.lastLine)
      && (env.lookahead ==> n.lastLine == (m.input == []) && (n.peek.None? ==> n.input == []))
  { assert m.input == [] || m.input == [m.input[0]] + m.input[1..]; }

  /** `m` with another record, of which `n` is an instance. */
  function Refilled(m: State, n: State): State {
    n.(hs := m.hs, hsDelim := m.hsDelim, out := m.out, pendingNl := m.pendingNl)
  }

  function Written(env: Env, m: State, show: bool): State {
    if show && !env.quiet then OutRecord(env, m, m.ps, m.psDelim) else m
  }

  lemma CycleEndWrites(env: Env, m: State, show: bool)
    requires m.queue == []
    ensures CycleEnd(env, m, show) == Written(env, m, show)
    ensures Written(env, m, show) == m.(out := Written(env, m, show).out, pendingNl := Written(env, m, show).pendingNl)
  {}

  /** The end of a cycle goes to the next line, or ends the run. */
  lemma NextLine(env: Env, rs: seq<Rec>, k: nat, m0: State, m: State, show: bool)
    requires AtLine(env, rs, k, m0) && m.linenum == k && m.peek == m0.peek && m.input == m0.input
    requires m.queue == [] && m.quit == None
    ensures var t := NextCycle(env, m, show); var w := Written(env, m, show);
      && t.m.hs == m.hs && t.m.hsDelim == m.hsDelim && t.m.out == w.out && t.m.pendingNl == w.pendingNl
      && if k < |rs| then t.Top? && AtLine(env, rs, k + 1, t.m) else t.Over?
  {
    hide Written, CycleEnd, NextRecord;
    CycleEndWrites(env, m, show);
    Refills(env, rs, k, Written(env, m, show));
  }

  // ----- The empty script -------------------------------------------------------------------------

  /** What has been written before line `k`, with the delimiter that is still pending. */
  predicate Copied(env: Env, rs: seq<Rec>, k: nat, m: State) {
    && 0 < k <= |rs| && m.out + (if m.pendingNl then [env.delim] else "") == Lines(rs[..k - 1], env.delim)
  }

  lemma {:induction false} CatRuns(env: Env, rs: seq<Rec>, k: nat, m: State, fuel: nat)
    requires Sound(env) && !env.quiet && AtLine(env, rs, k, m) && Copied(env, rs, k, m) && fuel > |rs| - k
    ensures var r := Drive(env, Tree(End), fuel, Top(m)); var last := rs[|rs| - 1];
      r.Done? && r.m.out == Lines(rs[..|rs| - 1], env.delim) + last.text + (if last.delim then [env.delim] else "")
    decreases |rs| - k
  {
    hide Lines, NextCycle, AtLine, Drive;
    var t := NextCycle(env, m, true);
    AtLineIs(env, rs, k, m);
    NextLine(env, rs, k, m, m, true);
    DriveStep(env, Tree(End), fuel, Top(m));
    if k < |rs| {
      LinesStep(rs[..k], env.delim);
      assert rs[..k][..k - 1] == rs[..k - 1];
      CatRuns(env, rs, k + 1, t.m, fuel - 1);
    } else {
      DriveStep(env, Tree(End), fuel - 1, t);
    }
  }

  lemma LinesStep(rs: seq<Rec>, d: char)
    requires rs != []
    ensures Lines(rs, d) == Lines(rs[..|rs| - 1], d) + rs[|rs| - 1].text + [d]
  {}

  lemma AtLineIs(env: Env, rs: seq<Rec>, k: nat, m: State)
    requires AtLine(env, rs, k, m)
    ensures 0 < k <= |rs| && m.linenum == k && m.ps == rs[k - 1].text && m.psDelim == rs[k - 1].delim
    ensures m.queue == [] && m.quit == None && (env.lookahead ==> m.lastLine == (k == |rs|))
  {}

  /** Every record comes out again, in order; a missing delimiter is supplied, but for the last. */
  lemma EmptyScriptCopies(env: Env, rs: seq<Rec>, fuel: nat)
    requires Sound(env) && !env.quiet && rs != [] && fuel >= |rs|
    ensures var r := RunStream(env, Tree(End), fuel, rs); var last := rs[|rs| - 1];
      r.Done? && r.m.out == Lines(rs[..|rs| - 1], env.delim) + last.text + (if last.delim then [env.delim] else "")
  {
    hide Drive, AtLine;
    BootsAtLine(env, rs);
    CatRuns(env, rs, 1, Boot(env, rs).m, fuel);
  }

  // ----- Lines in reverse -------------------------------------------------------------------------

  const NOT_FIRST := R.Address(R.Line(1), R.Nowhere, false, true, false)
  const NOT_LAST := R.Address(R.Last, R.Nowhere, false, true, false)

  /** `1!G;h;$!d` */
  const TAC := One(NOT_FIRST, GetAppend, TAC_HOLD)
  const TAC_HOLD := One(ALWAYS, Hold, TAC_DELETE)
  const TAC_DELETE := One(NOT_LAST, Delete, End)

  /** The spaces after a cycle. */
  function TacState(env: Env, m: State): State {
    var m1 := if m.linenum == 1 then m else m.(ps := m.ps + [env.delim] + m.hs, psDelim := m.hsDelim);
    m1.(hs := m1.ps, hsDelim := m1.psDelim)
  }

  /** One cycle, but for the range states, which these addresses do not use. */
  lemma TacCycle(env: Env, m: State)
    requires Sound(env)
    ensures LegalScript(TAC)
    ensures var o := SedMachines.Run(env, TAC, 0, m); var s := TacState(env, m).(ranges := o.m.ranges);
      o == if m.lastLine then Fell(s) else EndCycle(s, false)
  {
    hide Check, SedMachines.Run, SedMachines.Step;
    CheckIs(env, 0, m);
    TacHold(env, m);
    RunStep(env, TAC, 0, m);
    var c := Check(env, NOT_FIRST, 0, m);
    TacSteps(env, c.1.rangeLast, c.0);
    TacHold(env, if m.linenum == 1 then c.0 else c.0.(ps := m.ps + [env.delim] + m.hs, psDelim := m.hsDelim));
  }

  lemma TacHold(env: Env, m: State)
    requires Sound(env)
    ensures LegalScript(TAC_HOLD)
    ensures var o := SedMachines.Run(env, TAC_HOLD, 1, m);
      var s := m.(hs := m.ps, hsDelim := m.psDelim, ranges := o.m.ranges);
      o == if m.lastLine then Fell(s) else EndCycle(s, false)
  {
    hide Check, SedMachines.Run, SedMachines.Step;
    CheckIs(env, 1, m);
    RunStep(env, TAC_HOLD, 1, m);
    var c := Check(env, ALWAYS, 1, m);
    TacSteps(env, c.1.rangeLast, c.0);
    TacDelete(env, c.0.(hs := m.ps, hsDelim := m.psDelim));
  }

  lemma TacDelete(env: Env, m: State)
    requires Sound(env)
    ensures var o := SedMachines.Run(env, TAC_DELETE, 2, m); var s := m.(ranges := o.m.ranges);
      o == if m.lastLine then Fell(s) else EndCycle(s, false)
  {
    hide Check, SedMachines.Run, SedMachines.Step;
    CheckIs(env, 2, m);
    RunStep(env, TAC_DELETE, 2, m);
    var c := Check(env, NOT_LAST, 2, m);
    TacSteps(env, c.1.rangeLast, c.0);
    RunStep(env, End, 3, c.0);
  }

  lemma TacSteps(env: Env, rangeLast: bool, m: State)
    requires Sound(env)
    ensures SedMachines.Step(env, GetAppend, rangeLast, m)
         == Go(m.(ps := m.ps + [env.delim] + m.hs, psDelim := m.hsDelim))
    ensures SedMachines.Step(env, Hold, rangeLast, m) == Go(m.(hs := m.ps, hsDelim := m.psDelim))
    ensures SedMachines.Step(env, Delete, rangeLast, m) == Stop(EndCycle(m, false))
  {}

  lemma CheckIs(env: Env, i: nat, m: State)
    ensures forall a :: Check(env, a, i, m).0 == m.(ranges := Check(env, a, i, m).0.ranges)
    ensures Check(env, NOT_FIRST, i, m).1.m == (m.linenum != 1)
    ensures Check(env, ALWAYS, i, m).1.m
    ensures Check(env, NOT_LAST, i, m).1.m == !m.lastLine
  { hide R.Opens; }

  /** The lines in reverse order, with delimiters between them. */
  function Backwards(rs: seq<Rec>, d: char): string {
    if rs == [] then "" else
    var n := |rs| - 1;
    rs[n].text + if n == 0 then "" else [d] + Backwards(rs[..n], d)
  }

  /** Before line `k` the hold space has the earlier lines in reverse. */
  predicate Held(env: Env, rs: seq<Rec>, k: nat, m: State) {
    && 0 < k <= |rs| && m.out == "" && !m.pendingNl
    && (k > 1 ==> m.hs == Backwards(rs[..k - 1], env.delim) && m.hsDelim == rs[0].delim)
  }

  lemma TacHolds(env: Env, rs: seq<Rec>, k: nat, m: State)
    requires AtLine(env, rs, k, m) && Held(env, rs, k, m)
    ensures var s := TacState(env, m);
      && s.hs == s.ps == Backwards(rs[..k], env.delim) && s.hsDelim == s.psDelim == rs[0].delim
      && s.linenum == k && s.peek == m.peek && s.input == m.input && s.queue == [] && s.quit == None
      && s.out == "" && !s.pendingNl
  {
    hide Backwards;
    BackwardsStep(rs[..k], env.delim);
    assert rs[..k][..k - 1] == rs[..k - 1];
  }

  lemma HeldIs(env: Env, rs: seq<Rec>, k: nat, m: State)
    requires 0 < k <= |rs| && m.out == "" && !m.pendingNl
    requires k > 1 ==> m.hs == Backwards(rs[..k - 1], env.delim) && m.hsDelim == rs[0].delim
    ensures Held(env, rs, k, m)
  {}

  lemma {:induction false} TacRuns(env: Env, rs: seq<Rec>, k: nat, m: State, fuel: nat)
    requires Sound(env) && !env.quiet && env.lookahead
    requires AtLine(env, rs, k, m) && Held(env, rs, k, m) && fuel > |rs| - k
    ensures LegalScript(TAC) && var r := Drive(env, Tree(TAC), fuel, Top(m));
      && r.Done? && r.m.out == Backwards(rs, env.delim) + (if rs[0].delim then [env.delim] else "")
      && r.m.pendingNl == !rs[0].delim
    decreases |rs| - k
  {
    hide Drive, SedMachines.Run, NextCycle, Backwards, AtLine, Held, TacState;
    TacCycle(env, m);
    AtLineIs(env, rs, k, m);
    TacHolds(env, rs, k, m);
    DriveStep(env, Tree(TAC), fuel, Top(m));
    var o := SedMachines.Run(env, TAC, 0, m);
    if k < |rs| {
      NextLine(env, rs, k, m, o.m, false);
      var m1 := NextCycle(env, o.m, false).m;
      HeldIs(env, rs, k + 1, m1);
      TacRuns(env, rs, k + 1, m1, fuel - 1);
    } else {
      assert rs[..k] == rs;
      NextLine(env, rs, k, m, o.m, true);
      DriveStep(env, Tree(TAC), fuel - 1, NextCycle(env, o.m, true));
    }
  }

  lemma BackwardsStep(rs: seq<Rec>, d: char)
    requires rs != []
    ensures Backwards(rs, d) == rs[|rs| - 1].text + if |rs| == 1 then "" else [d] + Backwards(rs[..|rs| - 1], d)
  {}

  lemma {:induction false} LinesPrepend(r: Rec, rs: seq<Rec>, d: char)
    ensures Lines([r] + rs, d) == r.text + [d] + Lines(rs, d)
    decreases |rs|
  {
    var all := [r] + rs;
    if rs != [] {
      assert all[..|rs|] == [r] + rs[..|rs| - 1];
      LinesPrepend(r, rs[..|rs| - 1], d);
    } else {
      assert all[..0] == [];
    }
  }

  lemma {:induction false} BackwardsIsReversed(rs: seq<Rec>, d: char)
    requires rs != []
    ensures Backwards(rs, d) + [d] == Lines(Reversed(rs), d)
  {
    var n := |rs| - 1;
    LinesPrepend(rs[n], Reversed(rs[..n]), d);
    if n > 0 {
      BackwardsIsReversed(rs[..n], d);
    }
  }

  /** `1!G;h;$!d` on any stream: the lines in reverse; the last delimiter is written if the first line
      had one. */
  lemma TacReverses(env: Env, rs: seq<Rec>, fuel: nat)
    requires Sound(env) && !env.quiet && env.lookahead && rs != [] && fuel >= |rs|
    ensures LegalScript(TAC) && var r := RunStream(env, Tree(TAC), fuel, rs);
      && r.Done? && r.m.out + (if rs[0].delim then "" else [env.delim]) == Lines(Reversed(rs), env.delim)
      && r.m.pendingNl == !rs[0].delim
  {
    hide Drive, AtLine, Lines, Reversed;
    BootsAtLine(env, rs);
    TacRuns(env, rs, 1, Boot(env, rs).m, fuel);
    BackwardsIsReversed(rs, env.delim);
  }

  /** The same of the flat list that is compiled from it. */
  lemma TacMachineReverses(env: Env, rs: seq<Rec>, fuel: nat, code: seq<Command>)
    requires Sound(env) && !env.quiet && env.lookahead && rs != [] && fuel >= |rs|
    requires Forward(code) && Placed(code, TAC, 0, 0) && |code| == Size(TAC)
    requires forall i :: 0 <= i < |rs| ==> rs[i].delim
    ensures var r := RunStream(env, Flat(code), fuel, rs);
      r.Done? && r.m.out == Lines(Reversed(rs), env.delim) && !r.m.pendingNl
  {
    hide RunStream, Placed, Lines, Reversed;
    TacReverses(env, rs, fuel);
    CompiledRunsSame(env, TAC, code, fuel, rs);
  }
}
