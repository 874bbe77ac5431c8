/** The relative path from one canonical directory to another, made character by character, and what it
    leads back to when it is followed component by component. */
module RealPaths {

  // ----- Canonical paths --------------------------------------------------------------------------

  /** A name of a canonical path. */
  predicate Name(c: string) { c != "" && '/' !in c && c != "." && c != ".." }

  predicate Names(cs: seq<string>) { forall i :: 0 <= i < |cs| ==> Name(cs[i]) }

  function Flat(cs: seq<string>): string { if cs == [] then "" else "/" + cs[0] + Flat(cs[1..]) }

  /** The canonical path of the names `cs`. */
  function Render(cs: seq<string>): string { if cs == [] then "/" else Flat(cs) }

  function Join(cs: seq<string>): string { if cs == [] then "" else Flat(cs)[1..] }

  function Common(b: seq<string>, t: seq<string>): (i: nat)
    ensures i <= |b| && i <= |t| && b[..i] == t[..i] && (i < |b| && i < |t| ==> b[i] != t[i])
  { if b != [] && t != [] && b[0] == t[0] then 1 + Common(b[1..], t[1..]) else 0 }

  // ----- Following a path -------------------------------------------------------------------------

  /** The stretches between slashes. */
  function Split(s: string): seq<string> {
    if s == "" then [""]
    else if s[0] == '/' then [""] + Split(s[1..])
    else var r := Split(s[1..]); [[s[0]] + r[0]] + r[1..]
  }

  function Walk(cur: seq<string>, steps: seq<string>): seq<string>
    decreases |steps|
  {
    if steps == [] then cur else
    var c := steps[0];
    Walk(if c == "" || c == "." then cur
         else if c == ".." then (if cur == [] then [] else cur[..|cur| - 1])
         else cur + [c], steps[1..])
  }

  /** Where `path` leads from the directory `base`. */
  function Resolve(base: seq<string>, path: string): seq<string> {
    Walk(if path != "" && path[0] == '/' then [] else base, Split(path))
  }

  // ----- The cut behind the common prefix ---------------------------------------------------------

  function CommonLength(b: string, t: string): (k: nat)
    ensures k <= |b| && k <= |t| && b[..k] == t[..k] && (k < |b| && k < |t| ==> b[k] != t[k])
  { if b != "" && t != "" && b[0] == t[0] then 1 + CommonLength(b[1..], t[1..]) else 0 }

  /** The last slash of `b` before `k`, or 0. */
  function LastSlash(b: string, k: nat): (j: nat)
    requires k <= |b|
    ensures j <= k && (j > 0 ==> j < k && b[j] == '/') && forall i :: j < i < k ==> b[i] != '/'
  { if k == 0 then 0 else if b[k - 1] == '/' then k - 1 else LastSlash(b, k - 1) }

  predicate Boundary(s: string, k: nat) { k == |s| || (k < |s| && s[k] == '/') }

  /** Where `make_relative` cuts both paths. */
  function Cut(b: string, t: string): (m: nat)
    ensures m <= |b| && m <= |t|
  {
    var k := CommonLength(b, t);
    if Boundary(b, k) && Boundary(t, k) then k else LastSlash(b, k)
  }

  /** What is left behind the cut and its slash. */
  function Rest(s: string, m: nat): string
    requires m <= |s|
  { if m < |s| && s[m] == '/' then s[m + 1..] else s[m..] }

  lemma {:induction false} CommonLengthPrefix(p: string, b: string, t: string)
    ensures CommonLength(p + b, p + t) == |p| + CommonLength(b, t)
  {
    if p == "" {
      assert p + b == b && p + t == t;
    } else {
      assert (p + b)[1..] == p[1..] + b && (p + t)[1..] == p[1..] + t;
      CommonLengthPrefix(p[1..], b, t);
    }
  }

  lemma BoundaryShifts(p: string, b: string, k: nat)
    requires k <= |b|
    ensures Boundary(p + b, |p| + k) <==> Boundary(b, k)
  {}

  lemma LastSlashShifts(p: string, b: string, k: nat)
    requires 0 < k <= |b| && b[0] == '/'
    ensures LastSlash(p + b, |p| + k) == |p| + LastSlash(b, k)
  {
    var j := LastSlash(b, k);
    assert forall i :: 0 <= i < |b| ==> (p + b)[|p| + i] == b[i];
    assert forall i :: |p| + j < i < |p| + k ==> (p + b)[i] == b[i - |p|];
    LastSlashIs(p + b, |p| + k, |p| + j);
  }

  /** A common first name is passed. */
  lemma CutPasses(c: string, b: string, t: string)
    requires '/' !in c && (b == "" || b[0] == '/') && (t == "" || t[0] == '/')
    ensures Cut("/" + c + b, "/" + c + t) == 1 + |c| + Cut(b, t)
  {
    hide LastSlash, Boundary, CommonLength;
    var p := "/" + c;
    var k := CommonLength(b, t);
    CommonLengthPrefix(p, b, t);
    BoundaryShifts(p, b, k);
    BoundaryShifts(p, t, k);
    BoundaryAtStart(b, t);
    if k > 0 { LastSlashShifts(p, b, k); }
  }

  lemma BoundaryAtStart(b: string, t: string)
    requires (b == "" || b[0] == '/') && (t == "" || t[0] == '/')
    ensures Boundary(b, 0) && Boundary(t, 0)
  {}

  lemma {:induction false} LastSlashIs(b: string, k: nat, j: nat)
    requires j < k <= |b| && b[j] == '/' && forall i :: j < i < k ==> b[i] != '/'
    ensures LastSlash(b, k) == j
  {
    if j < k - 1 { LastSlashIs(b, k - 1, j); }
  }

  /** Different names differ at the latest where the shorter ends. */
  lemma NamesDiffer(c: string, d: string, b: string, t: string, k: nat)
    requires '/' !in c && '/' !in d && c != d && (b == "" || b[0] == '/') && (t == "" || t[0] == '/')
    requires k <= |c + b| && k <= |d + t| && (c + b)[..k] == (d + t)[..k]
    ensures k <= |c| && (k == |c| ==> k < |d|)
  {
    var n := CommonLength(c, d);
    SameText(c, d, n);
    CharAt(c, b, n);
    CharAt(d, t, n);
    PrefixAgrees(c + b, d + t, k, n);
  }

  lemma SameText(c: string, d: string, n: nat)
    requires n <= |c| && n <= |d| && c[..n] == d[..n]
    ensures n == |c| == |d| ==> c == d
  {}

  lemma CharAt(c: string, b: string, n: nat)
    requires n <= |c|
    ensures n < |c + b| ==> (c + b)[n] == if n < |c| then c[n] else b[0]
  {}

  lemma PrefixAgrees(x: string, y: string, k: nat, n: nat)
    requires k <= |x| && k <= |y| && x[..k] == y[..k]
    ensures n < k ==> x[n] == y[n]
  { assert n < k ==> x[n] == x[..k][n] && y[n] == y[..k][n]; }

  /** Different first names are not. */
  lemma CutStops(c: string, d: string, b: string, t: string)
    requires '/' !in c && '/' !in d && c != d && (b == "" || b[0] == '/') && (t == "" || t[0] == '/')
    ensures Cut("/" + c + b, "/" + d + t) == 0
  {
    var x, y := "/" + c + b, "/" + d + t;
    var k := CommonLength(x, y);
    assert x == "/" + (c + b) && y == "/" + (d + t);
    CommonLengthPrefix("/", c + b, d + t);
    var n := CommonLength(c + b, d + t);
    NamesDiffer(c, d, b, t, n);
    NamesDiffer(d, c, t, b, n);
    assert forall i :: 1 <= i <= |c| ==> x[i] == c[i - 1];
    assert forall i :: 1 <= i <= |d| ==> y[i] == d[i - 1];
  }

  // ----- Parts of rendered paths ------------------------------------------------------------------

  lemma FlatHead(cs: seq<string>)
    ensures Flat(cs) == "" || Flat(cs)[0] == '/'
    ensures cs != [] ==> Flat(cs) == "/" + Join(cs) && Join(cs) == cs[0] + Flat(cs[1..])
  { if cs != [] { assert Flat(cs) == "/" + (cs[0] + Flat(cs[1..])); } }

  /** Behind the cut, the names that are not common are left of both paths. */
  predicate CutFits(b: seq<string>, t: seq<string>) {
    var m, i := Cut(Flat(b), Flat(t)), Common(b, t);
    Flat(b)[m..] == Flat(b[i..]) && Flat(t)[m..] == Flat(t[i..])
  }

  /** The cut is behind the common names. */
  lemma {:induction false} CutIsCommon(b: seq<string>, t: seq<string>)
    requires Names(b) && Names(t)
    ensures CutFits(b, t)
    decreases |b|
  {
    hide *;
    NamesTail(b);
    NamesTail(t);
    if b != [] && t != [] && b[0] == t[0] {
      CutIsCommon(b[1..], t[1..]);
      CutFitsOneMore(b, t);
    } else {
      CutFitsNothing(b, t);
    }
  }

  lemma CutFitsNothing(b: seq<string>, t: seq<string>)
    requires Names(b) && Names(t) && (b == [] || t == [] || b[0] != t[0])
    ensures CutFits(b, t)
  {
    hide Cut, Flat;
    assert b[0..] == b && t[0..] == t;
    FlatHead(b);
    FlatHead(t);
    FlatStep(b);
    FlatStep(t);
    if b == [] || t == [] {
      CutOfEmpty(Flat(b), Flat(t));
    } else {
      FlatHead(b[1..]);
      FlatHead(t[1..]);
      CutStops(b[0], t[0], Flat(b[1..]), Flat(t[1..]));
    }
  }

  lemma CutFitsOneMore(b: seq<string>, t: seq<string>)
    requires Names(b) && Names(t) && b != [] && t != [] && b[0] == t[0] && CutFits(b[1..], t[1..])
    ensures CutFits(b, t)
  {
    hide *;
    CutFitsIs(b, t);
    CutFitsIs(b[1..], t[1..]);
    CommonStep(b, t);
    CutOneMore(b, t);
    var m, i := Cut(Flat(b[1..]), Flat(t[1..])), Common(b, t);
    OneNameMore(b, m, i);
    OneNameMore(t, m, i);
  }

  lemma CutOneMore(b: seq<string>, t: seq<string>)
    requires Names(b) && Names(t) && b != [] && t != [] && b[0] == t[0]
    ensures Cut(Flat(b), Flat(t)) == 1 + |b[0]| + Cut(Flat(b[1..]), Flat(t[1..]))
  {
    hide *;
    NamesTail(b);
    FlatStep(b);
    FlatStep(t);
    FlatHead(b[1..]);
    FlatHead(t[1..]);
    CutPasses(b[0], Flat(b[1..]), Flat(t[1..]));
  }

  lemma CutFitsIs(b: seq<string>, t: seq<string>)
    ensures CutFits(b, t) <==>
      var m, i := Cut(Flat(b), Flat(t)), Common(b, t);
      Flat(b)[m..] == Flat(b[i..]) && Flat(t)[m..] == Flat(t[i..])
  { hide Cut, Flat, Common; }

  lemma OneNameMore(cs: seq<string>, m: nat, i: nat)
    requires cs != [] && m <= |Flat(cs[1..])| && 0 < i <= |cs| && Flat(cs[1..])[m..] == Flat(cs[1..][i - 1..])
    ensures 1 + |cs[0]| + m <= |Flat(cs)| && Flat(cs)[1 + |cs[0]| + m..] == Flat(cs[i..])
  {
    hide Flat;
    FlatStep(cs);
    DropsPast("/" + cs[0], Flat(cs[1..]), m);
    TailDrops(cs, i);
  }

  lemma TailDrops(cs: seq<string>, i: nat)
    requires 0 < i <= |cs|
    ensures cs[1..][i - 1..] == cs[i..]
  {}

  lemma NamesTail(cs: seq<string>)
    requires Names(cs)
    ensures cs != [] ==> '/' !in cs[0] && Names(cs[1..])
  {}

  lemma DropsPast(p: string, s: string, m: nat)
    requires m <= |s|
    ensures (p + s)[|p| + m..] == s[m..]
  {}

  lemma CommonStep(b: seq<string>, t: seq<string>)
    ensures Common(b, t) == if b != [] && t != [] && b[0] == t[0] then 1 + Common(b[1..], t[1..]) else 0
  {}

  lemma FlatStep(cs: seq<string>)
    ensures Flat(cs) == if cs == [] then "" else "/" + cs[0] + Flat(cs[1..])
  {}

  lemma CutOfEmpty(b: string, t: string)
    requires (b == "" || t == "") && (b == "" || b[0] == '/') && (t == "" || t[0] == '/')
    ensures Cut(b, t) == 0
  {}

  /** The same of canonical paths, the root among them. */
  lemma RestIsOthers(b: seq<string>, t: seq<string>)
    requires Names(b) && Names(t)
    ensures var m := Cut(Render(b), Render(t)); var i := Common(b, t);
      Rest(Render(b), m) == Join(b[i..]) && Rest(Render(t), m) == Join(t[i..])
  {
    hide Cut, Flat;
    var i := Common(b, t);
    FlatHead(b);
    FlatHead(t);
    if b == [] || t == [] {
      assert b[i..] == b && t[i..] == t;
      RootCut(b, t);
    } else {
      CutIsCommon(b, t);
      FlatHead(b[i..]);
      FlatHead(t[i..]);
      FlatStep([]);
      var m := Cut(Flat(b), Flat(t));
      RestOfTail(Flat(b), m, b[i..]);
      RestOfTail(Flat(t), m, t[i..]);
    }
  }

  lemma RestOfTail(s: string, m: nat, cs: seq<string>)
    requires m <= |s| && s[m..] == Flat(cs)
    ensures Rest(s, m) == Join(cs)
  {
    FlatHead(cs);
    if cs == [] {
      assert m == |s|;
    } else {
      assert s[m] == s[m..][0] == '/' && s[m..][1..] == s[m + 1..];
    }
  }

  lemma RootCut(b: seq<string>, t: seq<string>)
    requires Names(b) && Names(t) && (b == [] || t == [])
    ensures var m := Cut(Render(b), Render(t)); Rest(Render(b), m) == Join(b) && Rest(Render(t), m) == Join(t)
  {
    if b == [] && t == [] {
      assert Cut("/", "/") == 1;
    } else {
      var c := if b == [] then t else b;
      var x := Flat(c);
      FlatHead(c);
      assert x[1] == c[0][0] != '/';
      assert x[1..] != "" && "/"[1..] == "";
      assert CommonLength("/", x) == 1 && CommonLength(x, "/") == 1;
      assert LastSlash("/", 1) == 0 && LastSlash(x, 1) == 0;
    }
  }

  // ----- The relative path ------------------------------------------------------------------------

  /** Twice PATH_MAX. */
  const ROOM: nat := 8192

  function Slashes(s: string): nat { if s == "" then 0 else (if s[0] == '/' then 1 else 0) + Slashes(s[1..]) }

  function Ups(n: nat): (r: string)
    ensures |r| == 3 * n
  { if n == 0 then "" else "../" + Ups(n - 1) }

  /** No more than 2730 times `../` are written before the last `..`. */
  function Climb(b: string): string { Ups(if Slashes(b) <= 2730 then Slashes(b) else 2730) }

  /** The relative path, given what is left of both paths behind the cut. */
  function Written(b: string, t: string, target: string): string {
    var ups := Climb(b);
    if b != "" && |ups| + 3 >= ROOM then target else
    var pre := if b == "" then ups else ups + ".." + if t != "" then "/" else "";
    var r := if |pre| + |t| + 1 <= ROOM then pre + t else pre;
    if r == "" then "." else r
  }

  function Relative(base: string, target: string): string {
    var m := Cut(base, target);
    Written(Rest(base, m), Rest(target, m), target)
  }

  lemma {:induction false} UpsAppend(n: nat)
    ensures Ups(n) + "../" == Ups(n + 1)
  {
    if n > 0 {
      UpsAppend(n - 1);
      assert Ups(n) + "../" == "../" + (Ups(n - 1) + "../");
    } else {
      assert Ups(1) == "../" + Ups(0);
    }
  }

  lemma {:induction false} SlashesFrom(s: string, k: nat)
    requires k <= |s|
    ensures Slashes(s[..k]) + Slashes(s[k..]) == Slashes(s)
    decreases k
  {
    if k == 0 {
      assert s[0..] == s && s[..0] == "";
    } else {
      assert s[..k][1..] == s[1..][..k - 1] && s[1..][k - 1..] == s[k..];
      SlashesFrom(s[1..], k - 1);
    }
  }

  lemma SlashesSnoc(s: string, k: nat)
    requires k < |s|
    ensures Slashes(s[..k + 1]) == Slashes(s[..k]) + if s[k] == '/' then 1 else 0
  {
    SlashesFrom(s[..k + 1], k);
    assert s[..k + 1][..k] == s[..k] && s[..k + 1][k..] == [s[k]];
    assert Slashes([s[k]]) == (if s[k] == '/' then 1 else 0) + Slashes([s[k]][1..]);
  }

  /** The longest common prefix, and the last slash in it: the two cursors and the two marks. */
  method FindCut(b: string, t: string) returns (m: nat)
    ensures m == Cut(b, t)
  {
    hide LastSlash, CommonLength;
    var k := 0;
    m := 0;
    assert b[0..] == b && t[0..] == t;
    SlashStep(b, 0);
    while k < |b| && k < |t| && b[k] == t[k]
      invariant k <= |b| && k <= |t| && CommonLength(b, t) == k + CommonLength(b[k..], t[k..])
      invariant m == LastSlash(b, k)
    {
      SlashStep(b, k);
      LengthStep(b, t, k);
      if b[k] == '/' { m := k; }
      k := k + 1;
    }
    LengthStep(b, t, k);
    if (k == |b| || b[k] == '/') && (k == |t| || t[k] == '/') { m := k; }
  }

  lemma LengthStep(b: string, t: string, k: nat)
    requires k <= |b| && k <= |t|
    ensures CommonLength(b[k..], t[k..]) ==
      if k < |b| && k < |t| && b[k] == t[k] then 1 + CommonLength(b[k + 1..], t[k + 1..]) else 0
  { if k < |b| && k < |t| { assert b[k..][1..] == b[k + 1..] && t[k..][1..] == t[k + 1..]; } }

  lemma SlashStep(b: string, k: nat)
    ensures LastSlash(b, 0) == 0
    ensures k < |b| ==> LastSlash(b, k + 1) == if b[k] == '/' then k else LastSlash(b, k)
  {}

  /** `make_relative`. */
  method MakeRelative(base: string, target: string) returns (r: string)
    requires |target| < 4096
    ensures r == Relative(base, target)
  {
    hide Cut, Slashes, Ups;
    var m := FindCut(base, target);
    var b, t := Rest(base, m), Rest(target, m);
    var result := new char[ROOM];
    var pos := FillUps(result, b);
    if b != "" {
      if pos + 3 >= ROOM { return target; }
      ghost var ups := result[..pos];
      result[pos], result[pos + 1] := '.', '.';
      pos := pos + 2;
      assert result[..pos] == ups + "..";
      if t != "" {
        result[pos] := '/';
        pos := pos + 1;
        assert result[..pos] == ups + ".." + "/";
      }
    } else {
      NoSlashes();
    }
    ghost var pre := result[..pos];
    if pos + |t| + 1 <= ROOM {
      pos := Copy(result, pos, t);
    }
    r := if pos == 0 then "." else result[..pos];
  }

  lemma NoSlashes()
    ensures Climb("") == ""
  {}

  /** `../` for every slash of `b`, while there is room. */
  method FillUps(result: array<char>, b: string) returns (pos: nat)
    requires result.Length == ROOM
    modifies result
    ensures pos < ROOM && result[..pos] == Climb(b)
  {
    hide Ups, Slashes;
    pos := 0;
    var p := 0;
    UpsStart();
    while p < |b|
      invariant p <= |b| && pos == 3 * Slashes(b[..p]) <= 8190 && result[..pos] == Ups(Slashes(b[..p]))
    {
      SlashesSnoc(b, p);
      SlashesFrom(b, p + 1);
      if b[p] == '/' {
        if pos + 3 >= ROOM { break; }
        UpsAppend(Slashes(b[..p]));
        ghost var was := result[..pos];
        result[pos], result[pos + 1], result[pos + 2] := '.', '.', '/';
        pos := pos + 3;
        assert result[..pos] == was + "../";
      }
      p := p + 1;
    }
    assert p == |b| ==> b[..p] == b;
  }

  lemma UpsStart()
    ensures Slashes("") == 0 && Ups(0) == ""
  {}

  method Copy(result: array<char>, pos: nat, t: string) returns (end: nat)
    requires pos + |t| <= result.Length
    modifies result
    ensures end == pos + |t| && result[..end] == old(result[..pos]) + t
  {
    for i := 0 to |t|
      invariant result[..pos + i] == old(result[..pos]) + t[..i]
    { result[pos + i] := t[i]; }
    end := pos + |t|;
  }

  // ----- Following it back ------------------------------------------------------------------------

  lemma {:induction false} SplitFirst(p: string, s: string)
    requires '/' !in p
    ensures Split(p + "/" + s) == [p] + Split(s)
  {
    var x := p + "/" + s;
    if p == "" {
      assert x == "/" + s && x[1..] == s;
    } else {
      assert x[1..] == p[1..] + "/" + s && x[0] == p[0];
      SplitFirst(p[1..], s);
      assert [p[0]] + p[1..] == p;
    }
  }

  lemma {:induction false} SplitWhole(p: string)
    requires '/' !in p
    ensures Split(p) == [p]
  {
    if p != "" {
      SplitWhole(p[1..]);
      assert [p[0]] + p[1..] == p;
    }
  }

  lemma WalkStep(cur: seq<string>, c: string, rest: seq<string>)
    ensures Walk(cur, []) == cur
    ensures c == "" ==> Walk(cur, [c] + rest) == Walk(cur, rest)
    ensures Name(c) ==> Walk(cur, [c] + rest) == Walk(cur + [c], rest)
  { assert ([c] + rest)[1..] == rest; }

  lemma JoinStep(cs: seq<string>)
    requires cs != []
    ensures Join(cs) == if |cs| == 1 then cs[0] else cs[0] + "/" + Join(cs[1..])
  {
    FlatHead(cs);
    FlatHead(cs[1..]);
    FlatStep(cs[1..]);
  }

  lemma {:induction false} WalkNames(cur: seq<string>, cs: seq<string>)
    requires Names(cs)
    ensures Walk(cur, Split(Join(cs))) == cur + cs
    decreases |cs|
  {
    hide Flat, Join, Split, Walk;
    if cs == [] {
      JoinOfNone();
      WalkStep(cur, "", []);
      assert Split("") == [""] == [""] + [] && cur + cs == cur by { SplitWhole(""); }
    } else {
      JoinStep(cs);
      if |cs| == 1 {
        SplitWhole(cs[0]);
        assert cs == [cs[0]] && [cs[0]] == [cs[0]] + [];
        WalkStep(cur, cs[0], []);
        WalkStep(cur + cs, "", []);
      } else {
        SplitFirst(cs[0], Join(cs[1..]));
        WalkStep(cur, cs[0], Split(Join(cs[1..])));
        WalkNames(cur + [cs[0]], cs[1..]);
        assert cur + [cs[0]] + cs[1..] == cur + cs;
      }
    }
  }

  lemma {:induction false} WalkUps(cur: seq<string>, n: nat, s: string)
    requires n <= |cur|
    ensures Walk(cur, Split(Ups(n) + s)) == Walk(cur[..|cur| - n], Split(s))
    decreases n
  {
    if n == 0 {
      assert Ups(0) + s == s && cur[..|cur|] == cur;
    } else {
      assert Ups(n) + s == ".." + "/" + (Ups(n - 1) + s);
      SplitFirst("..", Ups(n - 1) + s);
      WalkUps(cur[..|cur| - 1], n - 1, s);
      assert ([".."] + Split(Ups(n - 1) + s))[1..] == Split(Ups(n - 1) + s);
      assert cur[..|cur| - 1][..|cur| - n] == cur[..|cur| - n];
    }
  }

  lemma {:induction false} SlashesOfName(c: string)
    requires '/' !in c
    ensures Slashes(c) == 0
  { if c != "" { SlashesOfName(c[1..]); } }

  lemma {:induction false} SlashesOfJoin(cs: seq<string>)
    requires Names(cs)
    ensures Slashes(Join(cs)) == (if cs == [] then 0 else |cs| - 1)
    ensures cs != [] ==> Join(cs) != "" && Join(cs)[0] != '/'
    decreases |cs|
  {
    hide Flat;
    FlatHead(cs);
    FlatStep([]);
    if cs != [] {
      var c := cs[0];
      SlashesOfName(c);
      SlashesFrom(Join(cs), |c|);
      assert Join(cs)[..|c|] == c && Join(cs)[|c|..] == Flat(cs[1..]);
      FlatHead(cs[1..]);
      SlashesOfJoin(cs[1..]);
      FlatStep(cs[1..]);
      if |cs| > 1 { assert Flat(cs[1..])[1..] == Join(cs[1..]); }
    }
  }

  /** The rest of the target has room behind the `..`, or there are so many of them that the target itself
      is given. */
  predicate Fits(b: seq<string>, t: seq<string>) {
    var i := Common(b, t);
    |b| - i > 2730 || i == |t| || 3 * (|b| - i) + |Join(t[i..])| + 1 <= ROOM
  }

  lemma TargetItself(b: seq<string>, t: seq<string>)
    requires Names(t)
    ensures Resolve(b, Render(t)) == t
  {
    hide Flat;
    FlatHead(t);
    SplitFirst("", Join(t));
    assert Render(t) == "" + "/" + Join(t) by { FlatStep([]); }
    assert ([""] + Split(Join(t)))[1..] == Split(Join(t));
    WalkNames([], t);
  }

  /** `n` times up, and down `xs` or not. */
  lemma UpAndDown(b: seq<string>, n: nat, xs: seq<string>)
    requires n <= |b| && Names(xs) && n > 0
    ensures Resolve(b, Ups(n - 1) + "..") == b[..|b| - n]
    ensures Resolve(b, Ups(n)) == b[..|b| - n]
    ensures Resolve(b, Ups(n) + Join(xs)) == b[..|b| - n] + xs
  {
    assert Ups(n)[0] == '.' && (Ups(n) + Join(xs))[0] == '.' && (Ups(n - 1) + "..")[0] == '.';
    var c := b[..|b| - n + 1];
    WalkUps(b, n - 1, "..");
    SplitWhole("..");
    assert [".."][1..] == [] && c[..|c| - 1] == b[..|b| - n];
    WalkUps(b, n, "");
    assert Ups(n) + "" == Ups(n);
    assert Split("") == [""] && [""][1..] == [];
    WalkUps(b, n, Join(xs));
    WalkNames(b[..|b| - n], xs);
  }

  lemma StayAndDown(b: seq<string>, xs: seq<string>)
    requires Names(xs)
    ensures Resolve(b, ".") == b && (xs != [] ==> Resolve(b, Join(xs)) == b + xs)
  {
    SplitWhole(".");
    assert ["."][1..] == [];
    SlashesOfJoin(xs);
    WalkNames(b, xs);
  }

  /** The text in its cases. */
  lemma WrittenIs(n: nat, bs: seq<string>, xs: seq<string>, target: string)
    requires Names(bs) && Names(xs) && n == |bs|
    ensures Written(Join(bs), Join(xs), target) ==
      if n > 2730 then target
      else if n == 0 then (if xs == [] || |Join(xs)| + 1 > ROOM then "." else Join(xs))
      else if xs == [] then Ups(n - 1) + ".."
      else if 3 * n + |Join(xs)| + 1 <= ROOM then Ups(n) + Join(xs) else Ups(n)
  {
    hide Slashes, Ups, Flat, Join;
    SlashesOfJoin(bs);
    SlashesOfJoin(xs);
    JoinOfNone();
    UpsStart();
    if n > 0 {
      UpsAppend(n - 1);
      assert Ups(n - 1) + ".." + "/" == Ups(n - 1) + "../";
      assert Ups(n - 1) + ".." + "" == Ups(n - 1) + "..";
    }
  }

  lemma JoinOfNone()
    ensures Join([]) == ""
  {}

  /** Followed from `b`, the relative path leads to `t` exactly if it has room. */
  lemma RelativeLeadsBack(b: seq<string>, t: seq<string>)
    requires Names(b) && Names(t)
    ensures Resolve(b, Relative(Render(b), Render(t))) == t <==> Fits(b, t)
  {
    hide Written, Ups, Join, Cut, Rest, Resolve, Render;
    var i := Common(b, t);
    var n, xs := |b| - i, t[i..];
    RestIsOthers(b, t);
    WrittenIs(n, b[i..], xs, Render(t));
    TargetItself(b, t);
    StayAndDown(b, xs);
    if n > 0 { UpAndDown(b, n, xs); }
    assert b[..i] + xs == t && (xs != [] ==> b[..i] != t);
    assert n == 0 ==> b[..i] == b;
    assert xs == [] ==> b[..i] == t;
  }

  /** In particular, if the paths are short. */
  lemma {:induction false} NamesAreShort(cs: seq<string>)
    requires Names(cs)
    ensures 2 * |cs| <= |Flat(cs)|
    decreases |cs|
  { if cs != [] { NamesAreShort(cs[1..]); } }

  lemma ShortPathsFit(b: seq<string>, t: seq<string>)
    requires Names(b) && Names(t) && 3 * |Render(b)| + 2 * |Render(t)| <= 2 * ROOM
    ensures Resolve(b, Relative(Render(b), Render(t))) == t
  {
    hide Flat, Resolve, Relative;
    var i := Common(b, t);
    NamesAreShort(b);
    FlatOfTail(t, i);
    FlatHead(t[i..]);
    FlatStep([]);
    RelativeLeadsBack(b, t);
  }

  lemma {:induction false} FlatOfTail(cs: seq<string>, i: nat)
    requires i <= |cs|
    ensures |Flat(cs[i..])| <= |Flat(cs)|
    decreases |cs|
  {
    if i == 0 {
      assert cs[0..] == cs;
    } else {
      assert cs[1..][i - 1..] == cs[i..];
      FlatOfTail(cs[1..], i - 1);
    }
  }

  // ----- Paths that are too long ------------------------------------------------------------------

  /** `n` times the name `c`. */
  function Repeat(c: string, n: nat): (cs: seq<string>)
    ensures |cs| == n && forall i :: 0 <= i < n ==> cs[i] == c
  { seq(n, _ => c) }

  lemma {:induction false} RepeatLength(c: string, n: nat)
    requires c != ""
    ensures |Flat(Repeat(c, n))| == n * (|c| + 1) && |Join(Repeat(c, n))| == if n == 0 then 0 else n * (|c| + 1) - 1
  {
    if n > 0 {
      assert Repeat(c, n)[1..] == Repeat(c, n - 1);
      RepeatLength(c, n - 1);
      FlatStep(Repeat(c, n));
    }
  }

  /** From `/a/a/...` to `/b/b/...`, `n` and `k` names deep, the path leads back exactly if it has room. */
  lemma DeepPaths(n: nat, k: nat)
    requires k > 0
    ensures var b, t := Repeat("a", n), Repeat("b", k);
      && |Flat(b)| == 2 * n && |Flat(t)| == 2 * k
      && (Resolve(b, Relative(Render(b), Render(t))) == t <==> n > 2730 || 3 * n + 2 * k <= ROOM)
  {
    var b, t := Repeat("a", n), Repeat("b", k);
    assert t[0..] == t;
    RepeatLength("a", n);
    RepeatLength("b", k);
    assert Common(b, t) == 0;
    assert Names(b) && Names(t);
    hide Flat, Resolve, Relative, Join, Repeat;
    RelativeLeadsBack(b, t);
  }

  /** Two paths that the system allows, and that have no room: 4000 and 2200 bytes long. */
  lemma AllowedPathsMiss()
    ensures var b, t := Repeat("a", 2000), Repeat("b", 1100);
      |Render(b)| == 4000 && |Render(t)| == 2200 && Resolve(b, Relative(Render(b), Render(t))) != t
  {
    hide Flat, Resolve, Relative, Repeat;
    DeepPaths(2000, 1100);
  }
}
