/** The run of a compiled script, in place: the spaces, the input with its record of lookahead, the output
    with its delayed delimiter and the append queue are fields of the machine. */
module SedRun {
  import opened Options
  import R = SedRanges
  import opened SedMachines
  import opened SedCompile

  /** How the loop over the list is left. */
  datatype Exit = Proceed | ToCycleEnd(show: bool) | ToTop | ToStreamEnd | ToFinal(show: bool) | ToLabel(l: string)

  function Leave(e: Exit, m: State): Control {
    match e
    case Proceed => Go(m)
    case ToCycleEnd(show) => Stop(EndCycle(m, show))
    case ToTop => Stop(Restart(m))
    case ToStreamEnd => Stop(StreamEnd(m))
    case ToFinal(show) => Stop(Final(m, show))
    case ToLabel(l) => Stop(Jumped(l, m))
  }

  function Left(e: Exit, m: State): Outcome {
    if e.Proceed? then Fell(m) else Leave(e, m).o
  }

  class Machine {
    const env: Env
    const code: seq<Command>
    var ps: string
    var psDelim: bool
    var hs: string
    var hsDelim: bool
    var linenum: nat
    var lastLine: bool
    var tflag: bool
    var peek: Option<Rec>
    var input: seq<Rec>
    var out: string
    var pendingNl: bool
    var queue: seq<string>
    var quit: Option<nat>
    var ranges: map<nat, R.RangeState>

    /** The machine as a value; before the first record the line number does not matter. */
    function View(): State
      reads this
    {
      State(ps, psDelim, hs, hsDelim, if linenum > 0 then linenum else 1, lastLine, tflag, peek, input, out, pendingNl,
            queue, quit, ranges)
    }

    constructor (env: Env, code: seq<Command>, input: seq<Rec>)
      ensures this.env == env && this.code == code && linenum == 0 && View() == START.(input := input)
    {
      this.env, this.code, this.input := env, code, input;
      ps, psDelim, hs, hsDelim, linenum, lastLine, tflag := "", false, "", true, 0, false, false;
      peek, out, pendingNl, queue, quit, ranges := None, "", false, [], None, map[];
    }

    /** `out_flush_pending`. */
    method FlushPending()
      modifies this`out, this`pendingNl
      ensures View() == Flushed(env, old(View()))
    {
      if pendingNl {
        out := out + [env.delim];
        pendingNl := false;
      }
    }

    /** `out_record`. */
    method WriteRecord(text: string, delim: bool)
      modifies this`out, this`pendingNl
      ensures View() == OutRecord(env, old(View()), text, delim)
    {
      FlushPending();
      out := out + text;
      if delim { out := out + [env.delim]; } else { pendingNl := true; }
      assert out == old(Flushed(env, View()).out) + text + if delim then [env.delim] else "";
    }

    /** `flush_appends`. */
    method WriteAppends()
      modifies this`out, this`pendingNl, this`queue
      ensures View() == FlushAppends(env, old(View()))
    {
      for i := 0 to |queue|
        invariant queue == old(queue)
        invariant FlushFrom(env, View(), queue[i..]) == FlushFrom(env, old(View()), queue)
      {
        assert queue[i..][1..] == queue[i + 1..];
        WriteRecord(queue[i], true);
      }
      queue := [];
    }

    method LookAhead()
      modifies this`peek, this`input, this`lastLine
      ensures View() == LookedAhead(env, old(View()))
    {
      if env.lookahead {
        if input != [] {
          peek, input := Some(input[0]), input[1..];
          lastLine := false;
        } else {
          lastLine := true;
        }
      }
    }

    method TakeRecord() returns (more: bool)
      modifies this`ps, this`psDelim, this`peek, this`input
      ensures more <==> Fetched(old(View())).Some?
      ensures View() == if !more then old(View()) else
        var f := Fetched(old(View())).value;
        old(View()).(ps := f.0.text, psDelim := f.0.delim, peek := None, input := f.1)
    {
      if peek.Some? {
        ps, psDelim := peek.value.text, peek.value.delim;
        peek := None;
      } else {
        if input == [] { return false; }
        ps, psDelim := input[0].text, input[0].delim;
        input := input[1..];
      }
      more := true;
    }

    /** `next_record`: the record that was looked ahead at, or the next one of the input. */
    method ReadRecord() returns (more: bool)
      modifies this
      ensures more <==> Fetched(old(View())).Some?
      ensures !more ==> View() == old(View()) && linenum == old(linenum)
      ensures more ==> linenum == old(linenum) + 1
      ensures more ==> var f := Fetched(old(View())).value; View() == Filled(env, old(View()), f.0, f.1, linenum)
    {
      hide LookedAhead, Fetched;
      more := TakeRecord();
      if !more { return; }
      linenum := linenum + 1;
      tflag := false;
      LookAhead();
    }

    /** `cmd_matches` for the command at `i`. */
    method Applies(a: R.Address, i: nat) returns (m: bool, rangeLast: bool)
      modifies this`ranges
      ensures var c := Check(env, a, i, old(View())); View() == c.0 && m == c.1.m && rangeLast == c.1.rangeLast
    {
      var v := Check(env, a, i, View()).1;
      ranges := ranges[i := v.st];
      m, rangeLast := v.m, v.rangeLast;
    }

    method DoMove(op: Op)
      modifies this`ps, this`psDelim, this`hs, this`hsDelim
      ensures Go(View()) == Move(env, op, old(View()))
    {
      hide Translated;
      match op {
        case Get => ps, psDelim := hs, hsDelim;
        case GetAppend =>
          ps := ps + [env.delim] + hs;
          psDelim := hsDelim;
        case Hold => hs, hsDelim := ps, psDelim;
        case HoldAppend =>
          hs := hs + [env.delim] + ps;
          hsDelim := psDelim;
        case Exchange => ps, psDelim, hs, hsDelim := hs, hsDelim, ps, psDelim;
        case Zap => ps := "";
        case Translate(y) => ps := TranslateAll(ps, y);
        case _ =>
      }
    }

    method DoBranch(op: Op) returns (e: Exit)
      modifies this`tflag
      ensures Leave(e, View()) == BranchOff(op, old(View()))
    {
      e := Proceed;
      match op {
        case Branch(l) => e := if l == "" then ToCycleEnd(true) else ToLabel(l);
        case BranchIf(l) =>
          if tflag {
            tflag := false;
            e := if l == "" then ToCycleEnd(true) else ToLabel(l);
          }
        case BranchUnless(l) =>
          if tflag { tflag := false; } else { e := if l == "" then ToCycleEnd(true) else ToLabel(l); }
        case _ =>
      }
    }

    method DoWrite(op: Op)
      requires linenum > 0
      modifies this`out, this`pendingNl, this`queue
      ensures Go(View()) == Write(env, op, old(View()))
    {
      hide OutRecord;
      match op {
        case Print => WriteRecord(ps, psDelim);
        case PrintFirst => WriteRecord(ps[..FirstLine(ps, env.delim)], true);
        case LineNumber => WriteRecord(Decimal(linenum), true);
        case Insert(t) => WriteRecord(t, true);
        case Append(t) => if |queue| < 512 { queue := queue + [t]; }
        case _ =>
      }
    }

    method DoRead(op: Op) returns (e: Exit)
      requires linenum > 0
      modifies this
      ensures Leave(e, View()) == Read(env, op, old(View())) && linenum > 0
    {
      if op.Next? { e := DoNext(op); } else { e := DoNextAppend(op); }
    }

    method DoNext(op: Op) returns (e: Exit)
      requires linenum > 0 && op.Next?
      modifies this
      ensures Leave(e, View()) == Read(env, op, old(View())) && linenum > 0
    {
      hide FlushAppends, OutRecord, Filled, Fetched;
      if !env.quiet { WriteRecord(ps, psDelim); }
      WriteAppends();
      var more := ReadRecord();
      e := if more then Proceed else ToStreamEnd;
    }

    method DoNextAppend(op: Op) returns (e: Exit)
      requires linenum > 0 && !op.Next?
      modifies this
      ensures Leave(e, View()) == Read(env, op, old(View())) && linenum > 0
    {
      hide FlushAppends, OutRecord, Filled, Fetched;
      WriteAppends();
      var save := ps;
      var more := ReadRecord();
      if more {
        ps := save + [env.delim] + ps;
        e := Proceed;
      } else {
        e := ToFinal(!env.posix);
      }
    }

    method DoSubstitute(op: Op)
      requires Sound(env) && op.Subst? && op.flags.nth > 0
      modifies this`ps, this`tflag, this`out, this`pendingNl
      ensures View() == Substitute(env, op, old(View()))
    {
      var text, made := S.DoSubst(env.find(op.re), ps, op.ks, op.flags, op.swap);
      if made {
        ps := text;
        tflag := true;
        if op.show { WriteRecord(ps, true); }
      }
    }

    /** `D`. */
    method DoDeleteFirst() returns (e: Exit)
      modifies this`ps
      ensures Leave(e, View()) == Stop(Finish(env, DeleteFirst, true, old(View())))
    {
      hide OutRecord;
      var n := FirstLine(ps, env.delim);
      if n == |ps| { return ToCycleEnd(false); }
      ps := ps[n + 1..];
      e := ToTop;
    }

    method DoFinish(op: Op, rangeLast: bool) returns (e: Exit)
      requires Finishes(op)
      modifies this`ps, this`out, this`pendingNl, this`quit
      ensures Leave(e, View()) == Stop(Finish(env, op, rangeLast, old(View())))
    {
      hide OutRecord, FirstLine;
      e := ToCycleEnd(false);
      match op {
        case DeleteFirst => e := DoDeleteFirst();
        case Quit(c) =>
          quit := Some(c);
          e := ToCycleEnd(true);
        case QuitSilently(c) => quit := Some(c);
        case Change(t) => if rangeLast { WriteRecord(t, true); }
        case _ =>
      }
    }

    /** One command. */
    method Execute(op: Op, rangeLast: bool) returns (e: Exit)
      requires Sound(env) && Legal(op) && linenum > 0
      modifies this
      ensures Leave(e, View()) == Step(env, op, rangeLast, old(View())) && linenum > 0
    {
      hide Move, Write, Read, Substitute, BranchOff, Finish, Sound, Writes, Reads, Branches, Finishes;
      e := Proceed;
      if Writes(op) {
        DoWrite(op);
      } else if Reads(op) {
        e := DoRead(op);
      } else if Branches(op) {
        e := DoBranch(op);
      } else if Finishes(op) {
        e := DoFinish(op, rangeLast);
      } else if op.Subst? {
        DoSubstitute(op);
      } else {
        DoMove(op);
      }
    }

    /** The loop over the list from `start` on, to its end or to a command that leaves it. */
    method RunSegment(start: nat) returns (e: Exit, next: nat)
      requires Sound(env) && Forward(code) && Resolved(code, |code|) && linenum > 0
      modifies this
      ensures Left(e, View()) == Segment(env, code, start, old(View())) && linenum > 0
      ensures e.ToLabel? ==> next == FirstLabel(code, e.l, 0) + 1
    {
      hide Step, Check, Segment;
      var pc := start;
      while pc < |code|
        invariant linenum > 0 && Segment(env, code, pc, View()) == Segment(env, code, start, old(View()))
        decreases |code| - pc
      {
        SegmentStep(env, code, pc, View());
        match code[pc].tok {
          case Close => pc := pc + 1;
          case Open(a) =>
            var m, _ := Applies(a, pc);
            if !m && code[pc].jump.Some? { pc := code[pc].jump.value; }
            pc := pc + 1;
          case Act(a, op) =>
            var m, rangeLast := Applies(a, pc);
            if m {
              JumpsByLabel(env, op, rangeLast, View());
              e := Execute(op, rangeLast);
              if e != Proceed {
                next := if e.ToLabel? then code[pc].jump.value + 1 else 0;
                return;
              }
            }
            pc := pc + 1;
        }
      }
      SegmentEnds(env, code, pc);
      e, next := Proceed, 0;
    }

    /** The end of a cycle. */
    method EndOfCycle(show: bool)
      modifies this`out, this`pendingNl, this`queue
      ensures View() == CycleEnd(env, old(View()), show)
    {
      hide FlushAppends, OutRecord;
      if show && !env.quiet { WriteRecord(ps, psDelim); }
      WriteAppends();
    }

    method CycleThenRecord(show: bool) returns (over: bool)
      requires linenum > 0
      modifies this
      ensures linenum > 0
      ensures NextCycle(env, old(View()), show) == if over then Over(View()) else Top(View())
    {
      hide CycleEnd, Filled, Fetched;
      EndOfCycle(show);
      over := true;
      if quit == None {
        var more := ReadRecord();
        over := !more;
      }
    }

    /** From the end of a stretch to the next: where to go on, or that the run is over. */
    method Continue(e: Exit, next: nat) returns (over: bool, pc: nat, ghost task: Task)
      requires linenum > 0
      modifies this
      ensures linenum > 0 && task == After(env, Left(e, old(View()))) && task.m == View()
      ensures task.At? ==> e == ToLabel(task.l)
      ensures over == task.Over? && pc == (if task.At? then next else 0)
    {
      hide CycleEnd, FlushAppends, NextCycle;
      ghost var o := Left(e, View());
      over, pc := false, 0;
      match e {
        case ToTop =>
        case ToLabel(_) => pc := next;
        case ToStreamEnd =>
          WriteAppends();
          over := true;
        case ToFinal(show) =>
          EndOfCycle(show);
          over := true;
        case Proceed => over := CycleThenRecord(true);
        case ToCycleEnd(show) => over := CycleThenRecord(show);
      }
      task := After(env, o);
    }

    /** `run_stream`, for at most `fuel` stretches of commands. */
    method Run(fuel: nat) returns (done: bool)
      requires Sound(env) && Forward(code) && Resolved(code, |code|)
      requires linenum == 0 && View() == START.(input := input)
      modifies this
      ensures RunStream(env, Flat(code), fuel, old(input)) == if done then Done(View()) else Running(View())
    {
      hide Step, Check, Segment, Filled, Resolved, Forward, FirstLabel, Drive, After, Boot;
      var more := ReadRecord();
      BootFills(env, old(input));
      if !more {
        DriveStep(env, Flat(code), fuel, Boot(env, old(input)));
        return true;
      }
      ghost var task := Boot(env, old(input));
      var left, pc: nat := fuel, 0;
      done := false;
      while left > 0 && !done
        invariant linenum > 0 && task.m == View() && done == task.Over?
        invariant !done ==> pc == if task.At? then FirstLabel(code, task.l, 0) + 1 else 0
        invariant Drive(env, Flat(code), left, task) == Drive(env, Flat(code), fuel, Boot(env, old(input)))
      {
        DriveStep(env, Flat(code), left, task);
        var e, next := RunSegment(pc);
        left := left - 1;
        done, pc, task := Continue(e, next);
      }
      DriveStep(env, Flat(code), left, task);
    }
  }

  method TranslateAll(s: string, y: map<char, char>) returns (r: string)
    ensures r == Translated(s, y)
  {
    r := "";
    for i := 0 to |s|
      invariant r == Translated(s, y)[..i]
    { r := r + [if s[i] in y then y[s[i]] else s[i]]; }
  }

  /** A jump is to the label of the branch. */
  lemma JumpsByLabel(env: Env, op: Op, rangeLast: bool, m: State)
    requires Sound(env) && Legal(op)
    ensures var c := Step(env, op, rangeLast, m);
      c.Stop? && c.o.Jumped? ==> c.o.l != "" && forall a :: BranchLabel(Act(a, op)) == c.o.l
  {}

  lemma BootFills(env: Env, input: seq<Rec>)
    ensures var m := START.(input := input);
      Boot(env, input) == if input == [] then Over(m) else Top(Filled(env, m, input[0], input[1..], 1))
    ensures Boot(env, input).m.linenum == 1
    ensures Fetched(START.(input := input)) == if input == [] then None else Some((input[0], input[1..]))
  {}

  lemma {:induction false} LegalFlatten(t: Script)
    ensures LegalScript(t) <==> AllLegal(Flatten(t))
    decreases t
  {
    hide AllLegal, Flatten;
    FlattenStep(t);
    match t {
      case End => LegalJoins([], []);
      case One(a, op, rest) =>
        LegalFlatten(rest);
        LegalSingle(Act(a, op), Flatten(rest));
      case Block(a, body, rest) =>
        LegalFlatten(body);
        LegalFlatten(rest);
        LegalSingle(Open(a), Flatten(body));
        LegalSingle(Close, []);
        LegalJoins([], []);
        assert [Close] + [] == [Close];
        LegalJoins([Open(a)] + Flatten(body), [Close]);
        LegalJoins([Open(a)] + Flatten(body) + [Close], Flatten(rest));
    }
  }

  lemma LegalJoins(p: seq<Token>, q: seq<Token>)
    ensures AllLegal(p + q) <==> AllLegal(p) && AllLegal(q)
    ensures AllLegal([])
  {
    if AllLegal(p + q) {
      forall k | 0 <= k < |p| ensures LegalToken(p[k]) { assert p[k] == (p + q)[k]; }
      forall k | 0 <= k < |q| ensures LegalToken(q[k]) { assert q[k] == (p + q)[|p| + k]; }
    }
  }

  lemma LegalSingle(k: Token, q: seq<Token>)
    ensures AllLegal([k] + q) <==> LegalToken(k) && AllLegal(q)
  {
    LegalJoins([k], q);
    assert [k][0] == k;
  }

  /** Parser and machine together: a script of at most 64 nested blocks does what its blocks say. */
  method Sed(env: Env, toks: seq<Token>, fuel: nat, input: seq<Rec>) returns (r: Parsed, result: Result)
    requires Sound(env) && AllLegal(toks)
    ensures r.UnexpectedBrace? || r.UnmatchedBrace? <==> forall t :: toks != Flatten(t)
    ensures forall t :: r.Compiled? && toks == Flatten(t) && Depth(t) <= 64 ==>
      LegalScript(t) && result == RunStream(env, Tree(t), fuel, input)
  {
    hide Drive, Boot, Placed, Flatten, Forward, Resolved, LegalScript, Size, Depth, Segment;
    var parser := new Parser(toks);
    r := parser.ParseScript();
    result := Done(START);
    if r.Compiled? {
      var machine := new Machine(env, r.code, input);
      var done := machine.Run(fuel);
      result := if done then Done(machine.View()) else Running(machine.View());
      forall t | toks == Flatten(t) && Depth(t) <= 64
        ensures LegalScript(t) && result == RunStream(env, Tree(t), fuel, input)
      {
        LegalFlatten(t);
        CompiledRunsSame(env, t, r.code, fuel, input);
      }
    }
  }
}
