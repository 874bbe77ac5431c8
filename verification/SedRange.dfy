/** Addresses of sed commands: which lines a command applies to.

    `Matches` is `cmd_matches` with its range state; `RangeCommand` is the command that updates that
    state in place.  The second half says which lines a range covers, without any state, and proves
    that a run of the state machine over a whole stream selects exactly those. */
module SedRanges {

  /** A compiled regular expression; its matcher is an oracle. */
  type Re = nat

  datatype Addr =
    | Nowhere                        // ADDR_NONE
    | Line(n: nat)
    | Last
    | Regex(re: Re)
    | Step(first: nat, step: nat)    // first~step
    | Rel(n: nat)                    // +N, second address only
    | Mult(n: nat)                   // ~N, second address only

  datatype Address = Address(a1: Addr, a2: Addr, hasA2: bool, negate: bool, from0: bool)

  /** What `parse_addr` and the checks of `parse_script` let through. */
  predicate Parsed(a: Address) {
    && !a.a1.Rel? && !a.a1.Mult?
    && (a.hasA2 ==> a.a2.Line? || a.a2.Last? || a.a2.Regex? || a.a2.Rel? || a.a2.Mult?)
    && (a.from0 <==> a.hasA2 && a.a1 == Line(0)) && (a.from0 ==> a.a2.Regex?)
  }

  /** The current record, as an address sees it. */
  datatype Record = Record(linenum: nat, last: bool, test: Re -> bool)

  datatype RangeState = RangeState(active: bool, endLine: nat)

  const FRESH := RangeState(false, 0)

  /** `addr_match_one`. */
  predicate MatchOne(a: Addr, r: Record) {
    match a
    case Line(n) => r.linenum == n
    case Last => r.last
    case Step(first, step) =>
      if step == 0 then r.linenum == first
      else r.linenum >= first && (r.linenum - first) % step == 0
    case Regex(re) => r.test(re)
    case _ => false
  }

  /** `line` is the `j`-th of the lines that `first~step` names. */
  predicate Progression(line: nat, first: nat, step: nat, j: nat) { line == first + j * step }

  /** `first~step` names `first` and every `step`-th line behind it, or `first` alone if `step` is 0; a line number
      names that line, and `$` the last. */
  lemma AddressNames(first: nat, step: nat, r: Record)
    ensures MatchOne(Step(first, step), r) <==> exists j: nat :: Progression(r.linenum, first, step, j)
    ensures MatchOne(Line(first), r) <==> Progression(r.linenum, first, 0, 0)
    ensures MatchOne(Last, r) <==> r.last
  {
    if step > 0 && r.linenum >= first {
      var d := r.linenum - first;
      assert d == step * (d / step) + d % step;
      if d % step == 0 { assert Progression(r.linenum, first, step, d / step); }
    }
    if step == 0 { assert Progression(first, first, 0, 0); }
    if j: nat :| Progression(r.linenum, first, step, j) {
      if step > 0 { RemainderIs(r.linenum - first, step, j, 0); }
    }
  }

  /** The least multiple of `n` not below `s`, as the code computes it; `s` itself for `n` = 0. */
  function MultipleEnd(s: nat, n: nat): (e: nat)
    requires s > 0
  { if n > 0 then (s + n - 1) / n * n else s }

  lemma MultipleEndIsLeast(s: nat, n: nat)
    requires s > 0 && n > 0
    ensures MultipleEnd(s, n) % n == 0 && s <= MultipleEnd(s, n) < s + n
  {
    var q := (s + n - 1) / n;
    assert q * n <= s + n - 1 < q * n + n;
    RemainderIs(q * n, n, q, 0);
  }

  lemma RemainderIs(m: int, n: nat, q: int, r: nat)
    requires n > 0 && r < n && m == n * q + r
    ensures m % n == r
  {
    assert m == n * (m / n) + m % n;
    assert n * (m / n - q) == r - m % n;
    NonzeroProduct(n, m / n - q);
  }

  lemma NonzeroProduct(n: int, x: int)
    requires n > 0
    ensures x >= 1 ==> n * x >= n
    ensures x <= -1 ==> n * x <= -n
  {}

  /** The state, whether the command is selected, and whether this is the last line of its range. */
  datatype Verdict = Verdict(st: RangeState, m: bool, rangeLast: bool)

  function MatchesPositive(a: Address, st: RangeState, r: Record): Verdict
    requires r.linenum > 0
  {
    if a.a1.Nowhere? then Verdict(st, true, true)
    else if !a.hasA2 then Verdict(st, MatchOne(a.a1, r), true)
    else if !st.active then
      if !(if a.from0 then st.endLine == 0 else MatchOne(a.a1, r)) then Verdict(st, false, true)
      else Opens(a, st, r)
    else
      var closes := match a.a2
        case Line(n) => r.linenum >= n
        case Rel(_) => r.linenum >= st.endLine
        case Mult(_) => r.linenum >= st.endLine
        case Last => r.last
        case Regex(re) => r.test(re)
        case _ => false;
      var end := if closes && a.a2.Regex? && a.from0 then 1 else st.endLine;
      Verdict(RangeState(!closes && !r.last, end), true, closes)
  }

  /** The first line of a range, which may be its last. */
  function Opens(a: Address, st: RangeState, r: Record): Verdict
    requires r.linenum > 0
  {
    var (end, one) := match a.a2
      case Line(n) => (st.endLine, n <= r.linenum)
      case Rel(n) => (r.linenum + n, n == 0)
      case Mult(n) => (MultipleEnd(r.linenum, n), MultipleEnd(r.linenum, n) <= r.linenum)
      case Last => (st.endLine, r.last)
      case Regex(re) => if a.from0 && r.test(re) then (1, true) else (st.endLine, false)
      case _ => (st.endLine, false);
    Verdict(RangeState(!one, end), true, one)
  }

  function Matches(a: Address, st: RangeState, r: Record): Verdict
    requires r.linenum > 0
  {
    var v := MatchesPositive(a, st, r);
    if a.negate then v.(m := !v.m) else v
  }

  // ----- The command --------------------------------------------------------------------------

  class RangeCommand {
    const a: Address
    var active: bool
    var endLine: nat

    constructor (a: Address)
      ensures this.a == a && State() == FRESH
    { this.a, active, endLine := a, false, 0; }

    function State(): RangeState
      reads this
    { RangeState(active, endLine) }

    /** `cmd_matches`. */
    method CmdMatches(r: Record) returns (m: bool, rangeLast: bool)
      requires r.linenum > 0
      modifies this
      ensures Verdict(State(), m, rangeLast) == Matches(a, old(State()), r)
    {
      rangeLast := true;
      if a.a1.Nowhere? {
        m := true;
      } else if !a.hasA2 {
        m := MatchOne(a.a1, r);
      } else if !active {
        var start := if a.from0 then endLine == 0 else MatchOne(a.a1, r);
        m := false;
        if start {
          m := true;
          rangeLast := false;
          match a.a2 {
            case Line(n) =>
              if n <= r.linenum { rangeLast := true; } else { active := true; }
            case Rel(n) =>
              endLine := r.linenum + n;
              if endLine <= r.linenum { rangeLast := true; } else { active := true; }
            case Mult(n) =>
              var end := r.linenum;
              if n > 0 {
                MultipleEndIsLeast(r.linenum, n);
                end := (r.linenum + n - 1) / n * n;
                if end == r.linenum && r.linenum % n != 0 { end := end + n; }
              }
              endLine := end;
              if end <= r.linenum { rangeLast := true; } else { active := true; }
            case Last =>
              if r.last { rangeLast := true; } else { active := true; }
            case Regex(re) =>
              if a.from0 && r.test(re) { rangeLast := true; endLine := 1; } else { active := true; }
            case _ => active := true;
          }
        }
      } else {
        m := true;
        rangeLast := false;
        match a.a2 {
          case Line(n) => if r.linenum >= n { active := false; rangeLast := true; }
          case Rel(_) => if r.linenum >= endLine { active := false; rangeLast := true; }
          case Mult(_) => if r.linenum >= endLine { active := false; rangeLast := true; }
          case Last => if r.last { active := false; rangeLast := true; }
          case Regex(re) =>
            if r.test(re) {
              active := false;
              rangeLast := true;
              if a.from0 { endLine := 1; }
            }
          case _ =>
        }
        if r.last { active := false; }
      }
      if a.negate { m := !m; }
    }
  }

  // ----- Streams ------------------------------------------------------------------------------

  /** The records of a stream as they reach the command.  They need not be all of its lines, since the
      command may stand in a block, or behind a command that reads a line or branches; and the same
      line may come again, behind a `D` or a branch back.  The last line is last as often as it
      comes. */
  predicate Stream(rs: seq<Record>) {
    && (forall k :: 0 <= k < |rs| ==> rs[k].linenum > 0)
    && (forall j, k :: 0 <= j < k < |rs| ==> rs[j].linenum <= rs[k].linenum && (rs[j].last ==> rs[k].last))
  }

  /** All of them. */
  predicate Whole(rs: seq<Record>) { forall k :: 0 <= k < |rs| ==> rs[k].linenum == k + 1 }

  predicate Range(a: Address) { Parsed(a) && a.hasA2 && !a.a1.Nowhere? && !a.negate }

  /** The command applied to each of the first `k` records in turn. */
  function After(a: Address, rs: seq<Record>, k: nat): RangeState
    requires k <= |rs| && forall j :: 0 <= j < |rs| ==> rs[j].linenum > 0
  { if k == 0 then FRESH else Matches(a, After(a, rs, k - 1), rs[k - 1]).st }

  /** The verdict on record `k`, counted from 1. */
  function On(a: Address, rs: seq<Record>, k: nat): Verdict
    requires 0 < k <= |rs| && forall j :: 0 <= j < |rs| ==> rs[j].linenum > 0
  { Matches(a, After(a, rs, k - 1), rs[k - 1]) }

  // ----- What a range covers ------------------------------------------------------------------

  /** Record `k` can begin a range. */
  predicate Begins(a: Address, rs: seq<Record>, k: nat)
    requires Range(a) && 0 < k <= |rs|
  { if a.from0 then k <= FirstTest(a.a2.re, rs, 1) else MatchOne(a.a1, rs[k - 1]) }

  function FirstTest(re: Re, rs: seq<Record>, k: nat): (e: nat)
    requires 0 < k
    ensures k <= e && (k <= |rs| + 1 ==> e <= |rs| + 1)
    ensures e <= |rs| ==> rs[e - 1].test(re)
    ensures forall j :: k - 1 <= j < e - 1 && j < |rs| ==> !rs[j].test(re)
    decreases |rs| + 1 - k
  { if k > |rs| || rs[k - 1].test(re) then k else FirstTest(re, rs, k + 1) }

  /** The first record from `k` on with a line number of at least `n`. */
  function FirstAt(rs: seq<Record>, k: nat, n: nat): (e: nat)
    requires 0 < k
    ensures k <= e && (e <= |rs| ==> rs[e - 1].linenum >= n)
    ensures forall j :: k - 1 <= j < e - 1 && j < |rs| ==> rs[j].linenum < n
    decreases |rs| + 1 - k
  { if k > |rs| || rs[k - 1].linenum >= n then k else FirstAt(rs, k + 1, n) }

  function FirstLast(rs: seq<Record>, k: nat): (e: nat)
    requires 0 < k
    ensures k <= e && (e <= |rs| ==> rs[e - 1].last)
    ensures forall j :: k - 1 <= j < e - 1 && j < |rs| ==> !rs[j].last
    decreases |rs| + 1 - k
  { if k > |rs| || rs[k - 1].last then k else FirstLast(rs, k + 1) }

  /** The line number at which a range begun at record `s` is to end. */
  function Target(a: Address, rs: seq<Record>, s: nat): nat
    requires 0 < s <= |rs| && rs[s - 1].linenum > 0
  {
    match a.a2
    case Line(n) => n
    case Rel(n) => rs[s - 1].linenum + n
    case Mult(n) => MultipleEnd(rs[s - 1].linenum, n)
    case _ => 0
  }

  /** The record at which the second address ends a range begun at `s`; one beyond them if none does. */
  function EndOf(a: Address, rs: seq<Record>, s: nat): (e: nat)
    requires Range(a) && Stream(rs) && 0 < s <= |rs|
    ensures s <= e
  {
    match a.a2
    case Last => FirstLast(rs, s)
    case Regex(re) => FirstTest(re, rs, if a.from0 then s else s + 1)
    case _ => FirstAt(rs, s, Target(a, rs, s))
  }

  /** The last record of a range begun at `s`: where the second address ends it, or else when the last
      line comes again. */
  function StopOf(a: Address, rs: seq<Record>, s: nat): (e: nat)
    requires Range(a) && Stream(rs) && 0 < s <= |rs|
    ensures s <= e
  {
    var e, l := EndOf(a, rs, s), FirstLast(rs, s + 1);
    if e <= l then e else l
  }

  /** The first record from `from` on that begins a range. */
  function NextBegin(a: Address, rs: seq<Record>, from: nat): (s: nat)
    requires Range(a) && 0 < from
    ensures from <= s && (s <= |rs| ==> Begins(a, rs, s))
    ensures forall j :: from <= j < s && j <= |rs| ==> !Begins(a, rs, j)
    decreases |rs| + 1 - from
  { if from > |rs| || Begins(a, rs, from) then from else NextBegin(a, rs, from + 1) }

  /** The ranges of a stream: each begins at the first record behind the one before that can begin a
      range, and runs to its end.  Where the range that covers record `k` begins, or 0. */
  function RangeOf(a: Address, rs: seq<Record>, from: nat, k: nat): (s: nat)
    requires Range(a) && Stream(rs) && 0 < from && k <= |rs|
    ensures s == 0 || (from <= s <= k && Begins(a, rs, s) && k <= StopOf(a, rs, s))
    decreases |rs| + 1 - from
  {
    var s := NextBegin(a, rs, from);
    if s > k then 0
    else if k <= StopOf(a, rs, s) then s
    else RangeOf(a, rs, StopOf(a, rs, s) + 1, k)
  }

  /** From one record to the next: a range goes on to its end, and only outside of one can another
      begin. */
  lemma {:induction false} RangeOfNext(a: Address, rs: seq<Record>, from: nat, k: nat)
    requires Range(a) && Stream(rs) && 0 < from <= k + 1 && k < |rs|
    ensures var s := RangeOf(a, rs, from, k);
      RangeOf(a, rs, from, k + 1) ==
        if s > 0 && k < StopOf(a, rs, s) then s else if Begins(a, rs, k + 1) then k + 1 else 0
    decreases |rs| + 1 - from
  {
    hide RangeOf, StopOf, NextBegin, Begins, Range, Stream;
    var b := NextBegin(a, rs, from);
    RangeOfStep(a, rs, from, k);
    RangeOfStep(a, rs, from, k + 1);
    if b <= k && StopOf(a, rs, b) < k {
      RangeOfNext(a, rs, StopOf(a, rs, b) + 1, k);
    } else if b <= k && StopOf(a, rs, b) == k {
      var c := NextBegin(a, rs, k + 1);
      RangeOfStep(a, rs, k + 1, k + 1);
      RangeOfStep(a, rs, k + 1, k);
      assert c == k + 1 <==> Begins(a, rs, k + 1);
    } else if b == k + 1 {
      assert Begins(a, rs, k + 1);
    }
  }

  lemma RangeOfStep(a: Address, rs: seq<Record>, from: nat, k: nat)
    requires Range(a) && Stream(rs) && 0 < from && k <= |rs|
    ensures var s := NextBegin(a, rs, from);
      RangeOf(a, rs, from, k) ==
        if s > k then 0 else if k <= StopOf(a, rs, s) then s else RangeOf(a, rs, StopOf(a, rs, s) + 1, k)
  { hide StopOf, NextBegin, Range, Stream; }

  /** What the state holds after `k` records. */
  predicate Describes(st: RangeState, a: Address, rs: seq<Record>, k: nat)
    requires Range(a) && Stream(rs) && k <= |rs|
  {
    var s := RangeOf(a, rs, 1, k);
    && (st.active <==> s > 0 && k < StopOf(a, rs, s))
    && (st.active && (a.a2.Rel? || a.a2.Mult?) ==> st.endLine == Target(a, rs, s))
    && (a.from0 ==> (st.endLine == 0 <==> k < FirstTest(a.a2.re, rs, 1)))
  }

  lemma NothingBefore(a: Address, rs: seq<Record>)
    requires Range(a) && Stream(rs)
    ensures RangeOf(a, rs, 1, 0) == 0 && Describes(FRESH, a, rs, 0)
  {}

  /** Record `k + 1` of a range begun before it: the test that the state machine makes. */
  lemma EndIsSeen(a: Address, rs: seq<Record>, s: nat, k: nat)
    requires Range(a) && Stream(rs) && 0 < s <= k < |rs| && k < EndOf(a, rs, s)
    ensures EndOf(a, rs, s) == k + 1 <==>
      match a.a2
      case Line(n) => rs[k].linenum >= n
      case Rel(_) => rs[k].linenum >= Target(a, rs, s)
      case Mult(_) => rs[k].linenum >= Target(a, rs, s)
      case Last => rs[k].last
      case Regex(re) => rs[k].test(re)
      case _ => false
  {}

  /** Such a range is left there, too, if the record is the last line. */
  lemma StopIsSeen(a: Address, rs: seq<Record>, s: nat, k: nat)
    requires Range(a) && Stream(rs) && 0 < s <= k < |rs| && k < StopOf(a, rs, s)
    ensures k < EndOf(a, rs, s)
    ensures StopOf(a, rs, s) == k + 1 <==> EndOf(a, rs, s) == k + 1 || rs[k].last
  { hide EndOf; }

  lemma StopAtOnce(a: Address, rs: seq<Record>, s: nat)
    requires Range(a) && Stream(rs) && 0 < s <= |rs|
    ensures StopOf(a, rs, s) == s <==> EndOf(a, rs, s) == s
  { hide EndOf; }

  lemma FirstTestStep(re: Re, rs: seq<Record>, k: nat)
    requires k < |rs|
    ensures k + 1 < FirstTest(re, rs, 1) <==> k < FirstTest(re, rs, 1) && !rs[k].test(re)
  {}

  /** The same test on the record that begins a range. */
  lemma EndIsSeenAtOnce(a: Address, rs: seq<Record>, k: nat)
    requires Range(a) && Stream(rs) && k < |rs|
    ensures EndOf(a, rs, k + 1) == k + 1 <==> !Opens(a, FRESH, rs[k]).st.active
    ensures Opens(a, FRESH, rs[k]).rangeLast == !Opens(a, FRESH, rs[k]).st.active
    ensures a.a2.Rel? || a.a2.Mult? ==> Opens(a, FRESH, rs[k]).st.endLine == Target(a, rs, k + 1)
    ensures a.from0 ==> (Opens(a, FRESH, rs[k]).st.endLine == 0 <==> !rs[k].test(a.a2.re))
  {
    if a.a2.Mult? && a.a2.n > 0 { MultipleEndIsLeast(rs[k].linenum, a.a2.n); }
  }

  lemma OpensAlike(a: Address, st: RangeState, r: Record)
    requires Range(a) && r.linenum > 0 && (a.from0 ==> st.endLine == 0)
    ensures var v, w := Opens(a, st, r), Opens(a, FRESH, r);
      v.m == w.m == true && v.rangeLast == w.rangeLast && v.st.active == w.st.active
      && (a.from0 || a.a2.Rel? || a.a2.Mult? ==> v.st.endLine == w.st.endLine)
  {}

  lemma StepDescribes(a: Address, rs: seq<Record>, k: nat, st: RangeState)
    requires Range(a) && Stream(rs) && k < |rs| && Describes(st, a, rs, k)
    ensures var v := Matches(a, st, rs[k]);
      var s := RangeOf(a, rs, 1, k + 1);
      && Describes(v.st, a, rs, k + 1)
      && (v.m <==> s > 0) && (v.m ==> (v.rangeLast <==> EndOf(a, rs, s) == k + 1))
  {
    assert rs[k].linenum > 0;
    hide RangeOf, EndOf, StopOf, Opens, Target, Stream, FirstTest;
    RangeOfNext(a, rs, 1, k);
    if a.from0 { FirstTestStep(a.a2.re, rs, k); }
    var s := RangeOf(a, rs, 1, k);
    if s > 0 && k < StopOf(a, rs, s) {
      StopIsSeen(a, rs, s, k);
      EndIsSeen(a, rs, s, k);
    } else if Begins(a, rs, k + 1) {
      EndIsSeenAtOnce(a, rs, k);
      StopAtOnce(a, rs, k + 1);
      OpensAlike(a, st, rs[k]);
    }
  }

  lemma {:induction false} RunDescribes(a: Address, rs: seq<Record>, k: nat)
    requires Range(a) && Stream(rs) && k <= |rs|
    ensures Describes(After(a, rs, k), a, rs, k)
  {
    hide RangeOf, Describes, MatchesPositive, EndOf;
    if k == 0 {
      NothingBefore(a, rs);
    } else {
      RunDescribes(a, rs, k - 1);
      StepDescribes(a, rs, k - 1, After(a, rs, k - 1));
    }
  }

  /** Over a stream the state machine selects exactly the records that a range covers, and reports the
      last one of a range exactly where the range ends. */
  lemma RunSelectsRanges(a: Address, rs: seq<Record>, k: nat)
    requires Range(a) && Stream(rs) && 0 < k <= |rs|
    ensures var s := RangeOf(a, rs, 1, k);
      && (On(a, rs, k).m <==> s > 0)
      && (s > 0 ==> (On(a, rs, k).rangeLast <==> EndOf(a, rs, s) == k))
  {
    hide RangeOf, EndOf, StopOf, Describes, MatchesPositive, FirstTest, Range, Target;
    RunDescribes(a, rs, k - 1);
    assert rs[k - 1].linenum > 0;
    StepDescribes(a, rs, k - 1, After(a, rs, k - 1));
  }

  lemma NegationIsLast(a: Address, st: RangeState, r: Record)
    requires r.linenum > 0
    ensures MatchesPositive(a.(negate := true), st, r) == MatchesPositive(a.(negate := false), st, r)
  {}

  /** A negated range selects the other records. */
  lemma {:induction false} NegationComplements(a: Address, rs: seq<Record>, k: nat)
    requires k <= |rs| && forall j :: 0 <= j < |rs| ==> rs[j].linenum > 0
    ensures After(a.(negate := true), rs, k) == After(a.(negate := false), rs, k)
    ensures k > 0 ==> On(a.(negate := true), rs, k).m == !On(a.(negate := false), rs, k).m
  {
    if k > 0 {
      NegationComplements(a, rs, k - 1);
      NegationIsLast(a, After(a.(negate := true), rs, k - 1), rs[k - 1]);
    }
  }

  // ----- Instances ----------------------------------------------------------------------------

  /** Ranges do not overlap: the records between the first and the end of a range belong to it. */
  lemma {:induction false} RangesAreContiguous(a: Address, rs: seq<Record>, from: nat, k: nat, j: nat)
    requires Range(a) && Stream(rs) && 0 < from && k <= |rs| && RangeOf(a, rs, from, k) > 0
    requires RangeOf(a, rs, from, k) <= j <= StopOf(a, rs, RangeOf(a, rs, from, k)) && j <= |rs|
    ensures RangeOf(a, rs, from, j) == RangeOf(a, rs, from, k)
    decreases |rs| + 1 - from
  {
    hide RangeOf, StopOf, NextBegin, Begins, Range, Stream;
    var s := NextBegin(a, rs, from);
    RangeOfStep(a, rs, from, k);
    RangeOfStep(a, rs, from, j);
    if k > StopOf(a, rs, s) { RangesAreContiguous(a, rs, StopOf(a, rs, s) + 1, k, j); }
  }

  /** All records of a range are selected, and where the second address ends it is reported. */
  lemma RangeSelects(a: Address, rs: seq<Record>, k: nat, s: nat, j: nat)
    requires Range(a) && Stream(rs) && 0 < k <= |rs| && s == RangeOf(a, rs, 1, k)
    requires 0 < s <= j <= |rs| && j <= StopOf(a, rs, s)
    ensures On(a, rs, j).m && (On(a, rs, j).rangeLast <==> EndOf(a, rs, s) == j)
  {
    hide RangeOf, MatchesPositive, EndOf, StopOf, Range;
    RangesAreContiguous(a, rs, 1, k, j);
    RunSelectsRanges(a, rs, j);
  }

  /** `addr,+N`: all records up to the first one whose line number is N more than the first line's, or
      up to the last line, and that one is reported as the end. */
  lemma RelSelectsNPlusOne(a: Address, rs: seq<Record>, k: nat, s: nat, j: nat)
    requires Range(a) && a.a2.Rel? && Stream(rs) && 0 < k <= |rs| && s == RangeOf(a, rs, 1, k) && 0 < s <= j <= |rs|
    requires forall i :: s - 1 <= i < j - 1 ==>
      rs[i].linenum < rs[s - 1].linenum + a.a2.n && (i + 1 > s ==> !rs[i].last)
    ensures On(a, rs, j).m && (On(a, rs, j).rangeLast <==> rs[j - 1].linenum >= rs[s - 1].linenum + a.a2.n)
  {
    assert EndOf(a, rs, s) == FirstAt(rs, s, Target(a, rs, s));
    hide RangeOf, MatchesPositive, EndOf, FirstAt, FirstLast, Range, On;
    NotBefore(rs, s, Target(a, rs, s), j);
    RangeSelects(a, rs, k, s, j);
  }

  lemma NotBefore(rs: seq<Record>, s: nat, n: nat, j: nat)
    requires 0 < s <= j <= |rs|
    requires forall i :: s - 1 <= i < j - 1 ==> rs[i].linenum < n && (i + 1 > s ==> !rs[i].last)
    ensures j <= FirstAt(rs, s, n) && (rs[j - 1].linenum >= n <==> FirstAt(rs, s, n) == j)
    ensures j <= FirstLast(rs, s + 1)
  { hide FirstAt, FirstLast; }

  /** `addr,~N`: the range ends at the first record whose line number is not below the least multiple
      of N from its first line on. */
  lemma MultEndsAtMultiple(a: Address, rs: seq<Record>, s: nat)
    requires Range(a) && a.a2.Mult? && a.a2.n > 0 && Stream(rs) && 0 < s <= |rs|
    ensures var l, e := rs[s - 1].linenum, Target(a, rs, s);
      && e % a.a2.n == 0 && l <= e && (forall m :: l <= m < e ==> m % a.a2.n != 0)
      && EndOf(a, rs, s) == FirstAt(rs, s, e) && (Whole(rs) && e <= |rs| ==> EndOf(a, rs, s) == e)
  {
    var n := a.a2.n;
    var l := rs[s - 1].linenum;
    MultipleEndIsLeast(l, n);
    var e := Target(a, rs, s);
    forall m | l <= m < e ensures m % n != 0 { NoMultipleBetween(m, e, n); }
    if Whole(rs) && e <= |rs| { assert rs[e - 1].linenum == e && l == s; }
  }

  lemma NoMultipleBetween(m: nat, e: nat, n: nat)
    requires n > 0 && m < e < m + n && e % n == 0
    ensures m % n != 0
  {
    assert m == n * (e / n - 1) + (n - (e - m));
    RemainderIs(m, n, e / n - 1, n - (e - m));
  }

  lemma FirstTestFrom(re: Re, rs: seq<Record>, s: nat)
    requires 0 < s <= |rs| && s <= FirstTest(re, rs, 1)
    ensures FirstTest(re, rs, s) == FirstTest(re, rs, 1)
  {}

  /** `0,/re/`: the records up to the first match of `re`, which may be the very first, and no others. */
  lemma ZeroRangeNeverRestarts(a: Address, rs: seq<Record>, k: nat)
    requires Range(a) && a.from0 && Stream(rs) && 0 < k <= |rs|
    ensures On(a, rs, k).m <==> k <= FirstTest(a.a2.re, rs, 1)
  {
    hide RangeOf, MatchesPositive, FirstTest;
    RunSelectsRanges(a, rs, k);
    RangeOfNext(a, rs, 1, k - 1);
    var s := RangeOf(a, rs, 1, k - 1);
    if s > 0 { FirstTestFrom(a.a2.re, rs, s); }
  }
}
