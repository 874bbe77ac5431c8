/** The sed machine: from a script with nested blocks to a flat list of commands with jumps, and the run
    of that list over a stream of records.

    `Run` gives scripts their structured meaning: a block is run or skipped as a whole.  `Segment` is the
    loop over the flat list.  The two are proved equal for what `ParseScript` makes of a script, on every
    state of the machine, and so are whole runs over every stream. */
module SedMachines {
  import opened Options
  import opened SedRanges
  import S = SedSubsts

  // ----- Commands and the machine's state -------------------------------------------------------

  /** A branch to the empty label ends the cycle. */
  datatype Op =
    | Nop | Label(l: string) | Branch(l: string) | BranchIf(l: string) | BranchUnless(l: string)
    | Print | PrintFirst | Delete | DeleteFirst | Get | GetAppend | Hold | HoldAppend | Exchange | Zap
    | LineNumber | Quit(code: nat) | QuitSilently(code: nat) | Next | NextAppend
    | Append(text: string) | Insert(text: string) | Change(text: string)
    | Subst(re: Re, ks: seq<S.Token>, flags: S.Flags, swap: bool, show: bool)
    | Translate(ymap: map<char, char>)

  /** An input record, and whether its final delimiter was there. */
  datatype Rec = Rec(text: string, delim: bool)

  type Lineno = n: nat | 0 < n witness 1

  /** `exec_t`; `ranges` is the range state of each command, by its place in the list. */
  datatype State = State(
    ps: string, psDelim: bool, hs: string, hsDelim: bool,
    linenum: Lineno, lastLine: bool, tflag: bool, peek: Option<Rec>, input: seq<Rec>,
    out: string, pendingNl: bool, queue: seq<string>, quit: Option<nat>, ranges: map<nat, RangeState>)

  /** The options of the run, and the regular expressions as oracles. */
  datatype Env = Env(quiet: bool, posix: bool, lookahead: bool, delim: char,
                     test: (Re, string) -> bool, find: Re -> S.Finder)

  ghost predicate Sound(env: Env) { forall re :: S.Sound(env.find(re)) }

  /** How a stretch of commands ends. */
  datatype Outcome =
    | Fell(m: State)                       // at the end of the list
    | Jumped(l: string, m: State)          // a branch to a label
    | EndCycle(m: State, show: bool)
    | Restart(m: State)                    // `D`: again from the top, nothing read
    | StreamEnd(m: State)                  // `n` without input
    | Final(m: State, show: bool)          // `N` without input

  datatype Control = Go(m: State) | Stop(o: Outcome)

  // ----- Output and input -----------------------------------------------------------------------

  function Flushed(env: Env, m: State): State {
    m.(out := if m.pendingNl then m.out + [env.delim] else m.out, pendingNl := false)
  }

  function OutRecord(env: Env, m: State, text: string, delim: bool): State {
    var f := Flushed(env, m);
    f.(out := f.out + text + if delim then [env.delim] else "", pendingNl := !delim)
  }

  function FlushFrom(env: Env, m: State, q: seq<string>): State
    decreases q
  {
    if q == [] then m else FlushFrom(env, OutRecord(env, m, q[0], true), q[1..])
  }

  function FlushAppends(env: Env, m: State): State {
    FlushFrom(env, m, m.queue).(queue := [])
  }

  /** One record ahead is read if the script asks for the last line. */
  function LookedAhead(env: Env, m: State): State {
    if !env.lookahead then m
    else if m.input == [] then m.(lastLine := true)
    else m.(peek := Some(m.input[0]), input := m.input[1..], lastLine := false)
  }

  /** The record `r` in the pattern space. */
  function Filled(env: Env, m: State, r: Rec, rest: seq<Rec>, linenum: Lineno): State {
    LookedAhead(env,
      m.(ps := r.text, psDelim := r.delim, linenum := linenum, tflag := false, peek := None, input := rest))
  }

  /** The record that comes next, and those behind it. */
  function Fetched(m: State): Option<(Rec, seq<Rec>)> {
    if m.peek.Some? then Some((m.peek.value, m.input))
    else if m.input == [] then None
    else Some((m.input[0], m.input[1..]))
  }

  function NextRecord(env: Env, m: State): Option<State> {
    var f := Fetched(m);
    if f.None? then None else Some(Filled(env, m, f.value.0, f.value.1, m.linenum + 1))
  }

  // ----- One command ----------------------------------------------------------------------------

  function FirstLine(s: string, d: char): (n: nat)
    ensures n <= |s| && (n < |s| ==> s[n] == d) && (forall i :: 0 <= i < n ==> s[i] != d)
  { if s == [] || s[0] == d then 0 else 1 + FirstLine(s[1..], d) }

  function Decimal(n: nat): string {
    if n < 10 then [('0' as int + n) as char] else Decimal(n / 10) + [('0' as int + n % 10) as char]
  }

  function Translated(s: string, y: map<char, char>): string {
    seq(|s|, i requires 0 <= i < |s| => if s[i] in y then y[s[i]] else s[i])
  }

  function Substitute(env: Env, op: Op, m: State): State
    requires Sound(env) && op.Subst? && op.flags.nth > 0
  {
    var find := env.find(op.re);
    if |S.Accepted(find, S.Subject(m.ps, op.swap), 0, -1)| < op.flags.nth then m else
    var text := S.Substituted(find, m.ps, op.ks, op.flags, op.swap);
    var m1 := m.(ps := text, tflag := true);
    if op.show then OutRecord(env, m1, text, true) else m1
  }

  function Jump(l: string, m: State): Control {
    Stop(if l == "" then EndCycle(m, true) else Jumped(l, m))
  }

  /** What is asked of a parsed command: the number flag of `s` is not 0. */
  predicate Legal(op: Op) { op.Subst? ==> op.flags.nth > 0 }

  /** The commands that move text between the spaces. */
  function Move(env: Env, op: Op, m: State): Control {
    match op
    case Get => Go(m.(ps := m.hs, psDelim := m.hsDelim))
    case GetAppend => Go(m.(ps := m.ps + [env.delim] + m.hs, psDelim := m.hsDelim))
    case Hold => Go(m.(hs := m.ps, hsDelim := m.psDelim))
    case HoldAppend => Go(m.(hs := m.hs + [env.delim] + m.ps, hsDelim := m.psDelim))
    case Exchange => Go(m.(ps := m.hs, psDelim := m.hsDelim, hs := m.ps, hsDelim := m.psDelim))
    case Zap => Go(m.(ps := ""))
    case Translate(y) => Go(m.(ps := Translated(m.ps, y)))
    case _ => Go(m)
  }

  /** The commands that branch. */
  function BranchOff(op: Op, m: State): Control {
    match op
    case Branch(l) => Jump(l, m)
    case BranchIf(l) => if m.tflag then Jump(l, m.(tflag := false)) else Go(m)
    case BranchUnless(l) => if m.tflag then Go(m.(tflag := false)) else Jump(l, m)
    case _ => Go(m)
  }

  /** The commands that write. */
  function Write(env: Env, op: Op, m: State): Control {
    match op
    case Print => Go(OutRecord(env, m, m.ps, m.psDelim))
    case PrintFirst => Go(OutRecord(env, m, m.ps[..FirstLine(m.ps, env.delim)], true))
    case LineNumber => Go(OutRecord(env, m, Decimal(m.linenum), true))
    case Insert(t) => Go(OutRecord(env, m, t, true))
    case Append(t) => Go(if |m.queue| >= 512 then m else m.(queue := m.queue + [t]))
    case _ => Go(m)
  }

  /** The commands that read. */
  function Read(env: Env, op: Op, m: State): Control {
    if op.Next? then
      var m1 := FlushAppends(env, if env.quiet then m else OutRecord(env, m, m.ps, m.psDelim));
      var next := NextRecord(env, m1);
      if next.None? then Stop(StreamEnd(m1)) else Go(next.value)
    else
      var m1 := FlushAppends(env, m);
      var next := NextRecord(env, m1);
      if next.None? then Stop(Final(m1, !env.posix))
      else Go(next.value.(ps := m1.ps + [env.delim] + next.value.ps))
  }

  /** The commands that end the cycle, or begin it again. */
  function Finish(env: Env, op: Op, rangeLast: bool, m: State): Outcome {
    match op
    case DeleteFirst =>
      var n := FirstLine(m.ps, env.delim);
      if n == |m.ps| then EndCycle(m, false) else Restart(m.(ps := m.ps[n + 1..]))
    case Quit(c) => EndCycle(m.(quit := Some(c)), true)
    case QuitSilently(c) => EndCycle(m.(quit := Some(c)), false)
    case Change(t) => EndCycle(if rangeLast then OutRecord(env, m, t, true) else m, false)
    case _ => EndCycle(m, false)
  }

  predicate Writes(op: Op) { op.Print? || op.PrintFirst? || op.LineNumber? || op.Insert? || op.Append? }
  predicate Reads(op: Op) { op.Next? || op.NextAppend? }
  predicate Branches(op: Op) { op.Branch? || op.BranchIf? || op.BranchUnless? }
  predicate Finishes(op: Op) { op.Delete? || op.DeleteFirst? || op.Quit? || op.QuitSilently? || op.Change? }

  function Step(env: Env, op: Op, rangeLast: bool, m: State): (c: Control)
    requires Sound(env) && Legal(op)
    ensures c.Stop? ==> !c.o.Fell?
  {
    if Writes(op) then Write(env, op, m)
    else if Reads(op) then Read(env, op, m)
    else if Branches(op) then BranchOff(op, m)
    else if Finishes(op) then Stop(Finish(env, op, rangeLast, m))
    else if op.Subst? then Go(Substitute(env, op, m))
    else Move(env, op, m)
  }

  /** Does the command at `i` apply?  Its range state is brought up to date. */
  function Check(env: Env, a: Address, i: nat, m: State): (State, Verdict) {
    var v := Matches(a, if i in m.ranges then m.ranges[i] else FRESH,
                     Record(m.linenum, m.lastLine, (re: Re) => env.test(re, m.ps)));
    (m.(ranges := m.ranges[i := v.st]), v)
  }

  // ----- Structured scripts -----------------------------------------------------------------------

  datatype Script =
    | End
    | One(a: Address, op: Op, rest: Script)
    | Block(a: Address, body: Script, rest: Script)

  predicate LegalScript(t: Script) {
    match t
    case End => true
    case One(_, op, rest) => Legal(op) && LegalScript(rest)
    case Block(_, body, rest) => LegalScript(body) && LegalScript(rest)
  }

  /** The number of commands, with both braces of each block. */
  function Size(t: Script): nat {
    match t
    case End => 0
    case One(_, _, rest) => 1 + Size(rest)
    case Block(_, body, rest) => 2 + Size(body) + Size(rest)
  }

  function Depth(t: Script): nat {
    match t
    case End => 0
    case One(_, _, rest) => Depth(rest)
    case Block(_, body, rest) => if 1 + Depth(body) >= Depth(rest) then 1 + Depth(body) else Depth(rest)
  }

  predicate HasLabel(t: Script, l: string) {
    match t
    case End => false
    case One(_, op, rest) => op == Label(l) || HasLabel(rest, l)
    case Block(_, body, rest) => HasLabel(body, l) || HasLabel(rest, l)
  }

  /** `t` run from its top; its commands are numbered from `i`. */
  function Run(env: Env, t: Script, i: nat, m: State): Outcome
    requires Sound(env) && LegalScript(t)
    decreases t
  {
    match t
    case End => Fell(m)
    case One(a, op, rest) =>
      var (m1, v) := Check(env, a, i, m);
      if !v.m then Run(env, rest, i + 1, m1) else
      var c := Step(env, op, v.rangeLast, m1);
      if c.Stop? then c.o else Run(env, rest, i + 1, c.m)
    case Block(a, body, rest) =>
      var (m1, v) := Check(env, a, i, m);
      if !v.m then Run(env, rest, i + 2 + Size(body), m1) else
      var o := Run(env, body, i + 1, m1);
      if o.Fell? then Run(env, rest, i + 2 + Size(body), o.m) else o
  }

  /** `t` run from behind the first label `l`, in whatever blocks that is. */
  function Resume(env: Env, t: Script, i: nat, l: string, m: State): Outcome
    requires Sound(env) && LegalScript(t) && HasLabel(t, l)
    decreases t
  {
    match t
    case One(_, op, rest) =>
      if op == Label(l) then Run(env, rest, i + 1, m) else Resume(env, rest, i + 1, l, m)
    case Block(_, body, rest) =>
      if HasLabel(body, l) then
        var o := Resume(env, body, i + 1, l, m);
        if o.Fell? then Run(env, rest, i + 2 + Size(body), o.m) else o
      else Resume(env, rest, i + 2 + Size(body), l, m)
  }

  // ----- The flat list ----------------------------------------------------------------------------

  datatype Token = Open(a: Address) | Close | Act(a: Address, op: Op)

  /** A command of the list; `jump` is the matching `}` of a `{`, or the target of a branch. */
  datatype Command = Command(tok: Token, jump: Option<nat>)

  predicate LegalToken(k: Token) { k.Act? ==> Legal(k.op) }

  /** Jumps of blocks lead forward. */
  predicate Forward(code: seq<Command>) {
    forall i :: 0 <= i < |code| ==>
      LegalToken(code[i].tok) && (code[i].tok.Open? && code[i].jump.Some? ==> i < code[i].jump.value < |code|)
  }

  /** The loop over the list from `pc` on, up to the first branch. */
  function Segment(env: Env, code: seq<Command>, pc: nat, m: State): Outcome
    requires Sound(env) && Forward(code)
    decreases |code| - pc
  {
    if pc >= |code| then Fell(m) else
    match code[pc].tok
    case Close => Segment(env, code, pc + 1, m)
    case Open(a) =>
      var (m1, v) := Check(env, a, pc, m);
      Segment(env, code, if !v.m && code[pc].jump.Some? then code[pc].jump.value + 1 else pc + 1, m1)
    case Act(a, op) =>
      var (m1, v) := Check(env, a, pc, m);
      if !v.m then Segment(env, code, pc + 1, m1) else
      var c := Step(env, op, v.rangeLast, m1);
      if c.Stop? then c.o else Segment(env, code, pc + 1, c.m)
  }

  /** Where a run goes on when a stretch falls through to `pc`. */
  function Then(env: Env, o: Outcome, code: seq<Command>, pc: nat): Outcome
    requires Sound(env) && Forward(code)
  { if o.Fell? then Segment(env, code, pc, o.m) else o }

  // ----- Compiled scripts -------------------------------------------------------------------------

  /** `code` holds `t` from `i` on.  A `{` with fewer than 64 blocks around it jumps to its `}`. */
  predicate Placed(code: seq<Command>, t: Script, i: nat, d: nat)
    decreases t
  {
    match t
    case End => i <= |code|
    case One(a, op, rest) => i < |code| && code[i].tok == Act(a, op) && Placed(code, rest, i + 1, d)
    case Block(a, body, rest) =>
      var close := i + 1 + Size(body);
      && close < |code| && code[i] == Command(Open(a), if d < 64 then Some(close) else None)
      && Placed(code, body, i + 1, d + 1) && code[close].tok == Close && Placed(code, rest, close + 1, d)
  }

  /** One step of the loop over the list. */
  lemma SegmentStep(env: Env, code: seq<Command>, pc: nat, m: State)
    requires Sound(env) && Forward(code) && pc < |code|
    ensures code[pc].tok.Close? ==> Segment(env, code, pc, m) == Segment(env, code, pc + 1, m)
    ensures code[pc].tok.Open? ==> var mv := Check(env, code[pc].tok.a, pc, m);
      Segment(env, code, pc, m) ==
        Segment(env, code, if !mv.1.m && code[pc].jump.Some? then code[pc].jump.value + 1 else pc + 1, mv.0)
    ensures code[pc].tok.Act? ==> var mv := Check(env, code[pc].tok.a, pc, m);
      Segment(env, code, pc, m) == if !mv.1.m then Segment(env, code, pc + 1, mv.0) else
        ThenGo(env, Step(env, code[pc].tok.op, mv.1.rangeLast, mv.0), code, pc + 1)
  { hide Check, Step; }

  function ThenGo(env: Env, c: Control, code: seq<Command>, pc: nat): Outcome
    requires Sound(env) && Forward(code)
  { if c.Stop? then c.o else Segment(env, code, pc, c.m) }

  /** The flat list does what the blocks say: the loop from where `t` begins runs `t` and goes on behind it. */
  lemma {:induction false} SegmentRuns(env: Env, t: Script, code: seq<Command>, i: nat, d: nat, m: State)
    requires Sound(env) && Forward(code) && LegalScript(t) && Placed(code, t, i, d) && d + Depth(t) <= 64
    ensures Segment(env, code, i, m) == Then(env, Run(env, t, i, m), code, i + Size(t))
    decreases t
  {
    hide Segment, Check, Step, Run, Placed, Size, Depth, LegalScript, Forward;
    ScriptStep(t);
    PlacedStep(code, t, i, d);
    RunStep(env, t, i, m);
    match t {
      case End =>
      case One(a, op, rest) =>
        SegmentStep(env, code, i, m);
        var mv := Check(env, a, i, m);
        if !mv.1.m {
          SegmentRuns(env, rest, code, i + 1, d, mv.0);
        } else {
          var c := Step(env, op, mv.1.rangeLast, mv.0);
          if c.Go? { SegmentRuns(env, rest, code, i + 1, d, c.m); }
        }
      case Block(a, body, rest) =>
        SegmentStep(env, code, i, m);
        var mv := Check(env, a, i, m);
        var close := i + 1 + Size(body);
        if !mv.1.m {
          SegmentRuns(env, rest, code, close + 1, d, mv.0);
        } else {
          SegmentRuns(env, body, code, i + 1, d + 1, mv.0);
          var o := Run(env, body, i + 1, mv.0);
          if o.Fell? {
            SegmentStep(env, code, close, o.m);
            SegmentRuns(env, rest, code, close + 1, d, o.m);
          }
        }
    }
  }

  lemma ScriptStep(t: Script)
    ensures Size(t) ==
      match t {
        case End => 0
        case One(_, _, rest) => 1 + Size(rest)
        case Block(_, b, rest) => 2 + Size(b) + Size(rest)
      }
    ensures t.One? ==> Depth(t) == Depth(t.rest) && (LegalScript(t) <==> Legal(t.op) && LegalScript(t.rest))
    ensures t.Block? ==> Depth(t) >= 1 + Depth(t.body) && Depth(t) >= Depth(t.rest)
    ensures t.Block? ==> (LegalScript(t) <==> LegalScript(t.body) && LegalScript(t.rest))
  {}

  lemma PlacedStep(code: seq<Command>, t: Script, i: nat, d: nat)
    requires Placed(code, t, i, d)
    ensures t.One? ==> i < |code| && code[i].tok == Act(t.a, t.op) && Placed(code, t.rest, i + 1, d)
    ensures t.Block? ==>
      var close := i + 1 + Size(t.body);
      && close < |code| && code[i] == Command(Open(t.a), if d < 64 then Some(close) else None)
      && Placed(code, t.body, i + 1, d + 1) && code[close].tok == Close && Placed(code, t.rest, close + 1, d)
  {}

  lemma RunStep(env: Env, t: Script, i: nat, m: State)
    requires Sound(env) && LegalScript(t)
    ensures t.End? ==> Run(env, t, i, m) == Fell(m)
    ensures t.One? ==> var c := Check(env, t.a, i, m);
      Run(env, t, i, m) ==
        if !c.1.m then Run(env, t.rest, i + 1, c.0) else
        var s := Step(env, t.op, c.1.rangeLast, c.0);
        if s.Stop? then s.o else Run(env, t.rest, i + 1, s.m)
    ensures t.Block? ==> var c := Check(env, t.a, i, m);
      Run(env, t, i, m) ==
        if !c.1.m then Run(env, t.rest, i + 2 + Size(t.body), c.0) else
        var o := Run(env, t.body, i + 1, c.0);
        if o.Fell? then Run(env, t.rest, i + 2 + Size(t.body), o.m) else o
  { hide Check, Step; }

  /** Where the first label `l` of `t` is. */
  function LabelAt(t: Script, l: string): (i: nat)
    requires HasLabel(t, l)
    ensures i < Size(t)
  {
    match t
    case One(_, op, rest) => if op == Label(l) then 0 else 1 + LabelAt(rest, l)
    case Block(_, body, rest) => if HasLabel(body, l) then 1 + LabelAt(body, l) else 2 + Size(body) + LabelAt(rest, l)
  }

  /** Behind the body of a block. */
  lemma SegmentCloses(env: Env, rest: Script, code: seq<Command>, close: nat, d: nat, o: Outcome)
    requires Sound(env) && Forward(code) && LegalScript(rest)
    requires Placed(code, rest, close + 1, d) && d + Depth(rest) <= 64
    requires close < |code| && code[close].tok == Close
    ensures Then(env, o, code, close) ==
      Then(env, if o.Fell? then Run(env, rest, close + 1, o.m) else o, code, close + 1 + Size(rest))
  {
    hide Segment, Check, Step, Run, Placed, Depth, Size, Forward;
    if o.Fell? {
      SegmentStep(env, code, close, o.m);
      SegmentRuns(env, rest, code, close + 1, d, o.m);
    }
  }

  /** The same for a branch: from behind the label, out of the blocks around it. */
  lemma {:induction false} SegmentResumes(env: Env, t: Script, code: seq<Command>, i: nat, d: nat, l: string, m: State)
    requires Sound(env) && Forward(code) && LegalScript(t) && Placed(code, t, i, d) && d + Depth(t) <= 64
    requires HasLabel(t, l)
    ensures Segment(env, code, i + LabelAt(t, l) + 1, m) == Then(env, Resume(env, t, i, l, m), code, i + Size(t))
    decreases t
  {
    hide Segment, Check, Step, Run, Then, Forward, Placed, Size, Depth, LegalScript;
    ScriptStep(t);
    PlacedStep(code, t, i, d);
    match t {
      case One(a, op, rest) =>
        if op == Label(l) {
          SegmentRuns(env, rest, code, i + 1, d, m);
        } else {
          SegmentResumes(env, rest, code, i + 1, d, l, m);
        }
      case Block(a, body, rest) =>
        var close := i + 1 + Size(body);
        if HasLabel(body, l) {
          SegmentResumes(env, body, code, i + 1, d + 1, l, m);
          SegmentCloses(env, rest, code, close, d, Resume(env, body, i + 1, l, m));
        } else {
          SegmentResumes(env, rest, code, close + 1, d, l, m);
        }
    }
  }

  // ----- Whole runs -------------------------------------------------------------------------------

  /** A script as a flat list, or as blocks. */
  datatype Program = Flat(code: seq<Command>) | Tree(t: Script)

  predicate LegalProgram(p: Program) {
    match p
    case Flat(code) => Forward(code)
    case Tree(t) => LegalScript(t)
  }

  /** The first label `l` from `i` on; the end of the list if there is none. */
  function FirstLabel(code: seq<Command>, l: string, i: nat): (k: nat)
    requires i <= |code|
    ensures i <= k <= |code|
    decreases |code| - i
  { if i == |code| || (code[i].tok.Act? && code[i].tok.op == Label(l)) then i else FirstLabel(code, l, i + 1) }

  function Start(env: Env, p: Program, m: State): Outcome
    requires Sound(env) && LegalProgram(p)
  {
    match p
    case Flat(code) => Segment(env, code, 0, m)
    case Tree(t) => Run(env, t, 0, m)
  }

  function Goto(env: Env, p: Program, l: string, m: State): Outcome
    requires Sound(env) && LegalProgram(p)
  {
    match p
    case Flat(code) => Segment(env, code, FirstLabel(code, l, 0) + 1, m)
    case Tree(t) => if HasLabel(t, l) then Resume(env, t, 0, l, m) else Fell(m)
  }

  /** What comes next: the list from the top, the list from behind a label, or nothing. */
  datatype Task = Top(m: State) | At(l: string, m: State) | Over(m: State)

  function CycleEnd(env: Env, m: State, show: bool): State {
    FlushAppends(env, if show && !env.quiet then OutRecord(env, m, m.ps, m.psDelim) else m)
  }

  function NextCycle(env: Env, m: State, show: bool): Task {
    var m1 := CycleEnd(env, m, show);
    if m1.quit.Some? then Over(m1) else
    var next := NextRecord(env, m1);
    if next.None? then Over(m1) else Top(next.value)
  }

  function After(env: Env, o: Outcome): Task {
    match o
    case Fell(m) => NextCycle(env, m, true)
    case EndCycle(m, show) => NextCycle(env, m, show)
    case Restart(m) => Top(m)
    case Jumped(l, m) => At(l, m)
    case StreamEnd(m) => Over(FlushAppends(env, m))
    case Final(m, show) => Over(CycleEnd(env, m, show))
  }

  datatype Result = Running(m: State) | Done(m: State)

  /** `fuel` stretches of commands; a script may run forever. */
  function Drive(env: Env, p: Program, fuel: nat, task: Task): Result
    requires Sound(env) && LegalProgram(p)
  {
    match task
    case Over(m) => Done(m)
    case Top(m) => if fuel == 0 then Running(m) else Drive(env, p, fuel - 1, After(env, Start(env, p, m)))
    case At(l, m) => if fuel == 0 then Running(m) else Drive(env, p, fuel - 1, After(env, Goto(env, p, l, m)))
  }

  lemma DriveStep(env: Env, p: Program, fuel: nat, task: Task)
    requires Sound(env) && LegalProgram(p)
    ensures task.Over? ==> Drive(env, p, fuel, task) == Done(task.m)
    ensures !task.Over? && fuel == 0 ==> Drive(env, p, fuel, task) == Running(task.m)
    ensures task.Top? && fuel > 0 ==>
      Drive(env, p, fuel, task) == Drive(env, p, fuel - 1, After(env, Start(env, p, task.m)))
    ensures task.At? && fuel > 0 ==>
      Drive(env, p, fuel, task) == Drive(env, p, fuel - 1, After(env, Goto(env, p, task.l, task.m)))
  { hide After, Start, Goto; }

  /** The machine before the first record; the empty hold space counts as a whole line. */
  const START := State("", false, "", true, 1, false, false, None, [], "", false, [], None, map[])

  function Boot(env: Env, input: seq<Rec>): Task {
    if input == [] then Over(START) else Top(Filled(env, START, input[0], input[1..], 1))
  }

  /** `run_stream`. */
  function RunStream(env: Env, p: Program, fuel: nat, input: seq<Rec>): Result
    requires Sound(env) && LegalProgram(p)
  { Drive(env, p, fuel, Boot(env, input)) }

  // ----- Compilation keeps the meaning ------------------------------------------------------------

  lemma {:induction false} FirstLabelIs(t: Script, code: seq<Command>, i: nat, d: nat, l: string)
    requires Placed(code, t, i, d) && i + Size(t) <= |code|
    ensures FirstLabel(code, l, i) == if HasLabel(t, l) then i + LabelAt(t, l) else FirstLabel(code, l, i + Size(t))
    decreases t
  {
    hide LabelAt, FirstLabel;
    match t {
      case End =>
      case One(_, op, rest) =>
        PlacedFits(rest, code, i + 1, d);
        FirstLabelStep(code, l, i);
        if op != Label(l) { FirstLabelIs(rest, code, i + 1, d, l); }
        LabelAtStep(t, l);
      case Block(_, body, rest) =>
        var close := i + 1 + Size(body);
        FirstLabelStep(code, l, i);
        FirstLabelIs(body, code, i + 1, d + 1, l);
        FirstLabelStep(code, l, close);
        FirstLabelIs(rest, code, close + 1, d, l);
        LabelAtStep(t, l);
    }
  }

  lemma FirstLabelStep(code: seq<Command>, l: string, i: nat)
    requires i < |code|
    ensures FirstLabel(code, l, i) ==
      if code[i].tok.Act? && code[i].tok.op == Label(l) then i else FirstLabel(code, l, i + 1)
  {}

  lemma LabelAtStep(t: Script, l: string)
    ensures t.One? && HasLabel(t, l) ==> LabelAt(t, l) == if t.op == Label(l) then 0 else 1 + LabelAt(t.rest, l)
    ensures t.Block? && HasLabel(t, l) ==>
      LabelAt(t, l) == if HasLabel(t.body, l) then 1 + LabelAt(t.body, l) else 2 + Size(t.body) + LabelAt(t.rest, l)
  {}

  lemma {:induction false} PlacedFits(t: Script, code: seq<Command>, i: nat, d: nat)
    requires Placed(code, t, i, d)
    ensures i + Size(t) <= |code|
    decreases t
  {
    match t {
      case End =>
      case One(_, _, rest) => PlacedFits(rest, code, i + 1, d);
      case Block(_, body, rest) => PlacedFits(rest, code, i + 2 + Size(body), d);
    }
  }

  /** The list that is compiled from a script of at most 64 nested blocks behaves as the script: from
      every state of the machine, for any number of steps. */
  lemma {:induction false} DriveSame(env: Env, t: Script, code: seq<Command>, fuel: nat, task: Task)
    requires Sound(env) && Forward(code) && LegalScript(t)
    requires Placed(code, t, 0, 0) && |code| == Size(t) && Depth(t) <= 64
    ensures Drive(env, Flat(code), fuel, task) == Drive(env, Tree(t), fuel, task)
  {
    hide Segment, Run, Resume, Placed, After, Size, Depth, LabelAt, Sound, Forward, LegalScript;
    if fuel > 0 && !task.Over? {
      SegmentEnds(env, code, |code|);
      SegmentEnds(env, code, |code| + 1);
      var o := if task.Top? then Start(env, Tree(t), task.m) else Goto(env, Tree(t), task.l, task.m);
      if task.Top? {
        SegmentRuns(env, t, code, 0, 0, task.m);
      } else {
        FirstLabelIs(t, code, 0, 0, task.l);
        if HasLabel(t, task.l) { SegmentResumes(env, t, code, 0, 0, task.l, task.m); }
      }
      DriveSame(env, t, code, fuel - 1, After(env, o));
    }
  }

  lemma SegmentEnds(env: Env, code: seq<Command>, pc: nat)
    requires Sound(env) && Forward(code) && pc >= |code|
    ensures forall m :: Segment(env, code, pc, m) == Fell(m)
  {}

  lemma CompiledRunsSame(env: Env, t: Script, code: seq<Command>, fuel: nat, input: seq<Rec>)
    requires Sound(env) && Forward(code) && LegalScript(t)
    requires Placed(code, t, 0, 0) && |code| == Size(t) && Depth(t) <= 64
    ensures RunStream(env, Flat(code), fuel, input) == RunStream(env, Tree(t), fuel, input)
  {
    hide Drive, Placed, Depth;
    DriveSame(env, t, code, fuel, Boot(env, input));
  }

  // ----- Beyond 64 blocks -------------------------------------------------------------------------

  const ALWAYS := Address(Nowhere, Nowhere, false, false, false)

  /** `k` blocks around `2{d}`. */
  function Nest(k: nat): Script {
    if k == 0 then Block(Address(Line(2), Nowhere, false, false, false), One(ALWAYS, Delete, End), End)
    else Block(ALWAYS, Nest(k - 1), End)
  }

  lemma {:induction false} NestShape(k: nat)
    ensures Depth(Nest(k)) == k + 1 && LegalScript(Nest(k))
  { if k > 0 { NestShape(k - 1); } }

  lemma {:induction false} NestIsSkipped(env: Env, k: nat, i: nat, m: State)
    requires Sound(env) && LegalScript(Nest(k)) && m.linenum == 1
    ensures Run(env, Nest(k), i, m).Fell?
    decreases k
  {
    if k > 0 {
      NestShape(k - 1);
      NestIsSkipped(env, k - 1, i + 1, Check(env, ALWAYS, i, m).0);
    }
  }

  lemma {:induction false} NestIsEntered(env: Env, k: nat, code: seq<Command>, i: nat, d: nat, m: State)
    requires Sound(env) && Forward(code) && Placed(code, Nest(k), i, d) && d + k >= 64 && m.linenum == 1
    ensures Segment(env, code, i, m).EndCycle?
    decreases k
  {
    hide Segment, Placed;
    PlacedStep(code, Nest(k), i, d);
    SegmentStep(env, code, i, m);
    var m1 := Check(env, code[i].tok.a, i, m).0;
    if k > 0 {
      NestIsEntered(env, k - 1, code, i + 1, d + 1, m1);
    } else {
      PlacedStep(code, Nest(0).body, i + 1, d + 1);
      SegmentStep(env, code, i + 1, m1);
    }
  }

  /** On line 1 a nest of blocks must be skipped; the list does so exactly if they are at most 64. */
  lemma NestingLimit(env: Env, k: nat, code: seq<Command>, m: State)
    requires Sound(env) && Forward(code) && LegalScript(Nest(k))
    requires Placed(code, Nest(k), 0, 0) && |code| == Size(Nest(k)) && m.linenum == 1
    ensures Segment(env, code, 0, m) == Run(env, Nest(k), 0, m) <==> Depth(Nest(k)) <= 64
  {
    hide Segment, Run, Placed;
    NestShape(k);
    NestIsSkipped(env, k, 0, m);
    if k < 64 {
      SegmentRuns(env, Nest(k), code, 0, 0, m);
      SegmentEnds(env, code, |code|);
    } else {
      NestIsEntered(env, k, code, 0, 0, m);
    }
  }
}
