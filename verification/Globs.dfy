/** What patterns mean: `Match` on the text of a pattern accepts what its items accept one after another. */
module Globs {
  import opened CStrings
  import opened Patterns

  datatype Member = Single(b: Escapable) | Range(lo: Escapable, hi: Escapable)

  /** `not` is the byte that negates a bracket expression. */
  datatype Item =
    | Lit(b: Escapable) | AnyOne | AnyRun | Set(members: seq<Member>) | NotSet(not: char, members: seq<Member>)

  // ----- What an item accepts -----------------------------------------------------------------

  predicate IsIn(m: Member, c: char) { if m.Single? then c == m.b.c else m.lo.c <= c <= m.hi.c }

  predicate InSet(ms: seq<Member>, c: char) { exists i :: 0 <= i < |ms| && IsIn(ms[i], c) }

  predicate AcceptsItem(x: Item, s: string) {
    match x
    case Lit(b) => s == [b.c]
    case AnyOne => |s| == 1
    case AnyRun => true
    case Set(ms) => |s| == 1 && InSet(ms, s[0])
    case NotSet(_, ms) => |s| == 1 && !InSet(ms, s[0])
  }

  /** The text is cut into a stretch for each item. */
  predicate Accepts(xs: seq<Item>, t: string) {
    if xs == [] then t == "" else exists k :: 0 <= k <= |t| && AcceptsItem(xs[0], t[..k]) && Accepts(xs[1..], t[k..])
  }

  // ----- The text of a pattern ----------------------------------------------------------------

  function MemberText(m: Member): string {
    if m.Single? then EscapableText(m.b) else EscapableText(m.lo) + ("-" + EscapableText(m.hi))
  }

  function MembersText(ms: seq<Member>): string {
    if ms == [] then "" else MemberText(ms[0]) + MembersText(ms[1..])
  }

  function ItemText(x: Item): string {
    match x
    case Lit(b) => EscapableText(b)
    case AnyOne => "?"
    case AnyRun => "*"
    case Set(ms) => "[" + (MembersText(ms) + "]")
    case NotSet(not, ms) => "[" + ([not] + (MembersText(ms) + "]"))
  }

  function PatternText(xs: seq<Item>): string { if xs == [] then "" else ItemText(xs[0]) + PatternText(xs[1..]) }

  /** Inside brackets the bytes that mean something there are escaped. */
  predicate MemberByte(b: Escapable) {
    b.escaped || (b.c != '\\' && b.c != ']' && b.c != '-' && b.c != '!' && b.c != '^')
  }

  predicate GoodMember(m: Member) { if m.Single? then MemberByte(m.b) else MemberByte(m.lo) && MemberByte(m.hi) }

  predicate GoodMembers(ms: seq<Member>) { ms != [] && forall i :: 0 <= i < |ms| ==> GoodMember(ms[i]) }

  predicate GoodItem(x: Item) {
    match x
    case Lit(b) => b.escaped || !Meta(b.c)
    case AnyOne => true
    case AnyRun => true
    case Set(ms) => GoodMembers(ms)
    case NotSet(not, ms) => (not == '!' || not == '^') && GoodMembers(ms)
  }

  // ----- Brackets -----------------------------------------------------------------------------

  lemma ByteStands(p: string, i: nat, b: Escapable)
    requires Has(p, i, EscapableText(b)) && MemberByte(b)
    ensures i + |EscapableText(b)| <= |p| && |EscapableText(b)| == if b.escaped then 2 else 1
    ensures if b.escaped then p[i] == '\\' && p[i + 1] == b.c else p[i] == b.c
  {
    HasAt(p, i, EscapableText(b), 0);
    if b.escaped { HasAt(p, i, EscapableText(b), 1); }
  }

  lemma ByteCloses(p: string, i: nat, b: Escapable, first: bool)
    requires Has(p, i, EscapableText(b)) && MemberByte(b)
    ensures i + |EscapableText(b)| <= |p|
    ensures BracketClose(p, i, first) == BracketClose(p, i + |EscapableText(b)|, false)
  { ByteStands(p, i, b); }

  lemma MemberCloses(p: string, i: nat, m: Member, first: bool)
    requires Has(p, i, MemberText(m)) && GoodMember(m)
    ensures i + |MemberText(m)| <= |p| && BracketClose(p, i, first) == BracketClose(p, i + |MemberText(m)|, false)
  {
    hide BracketClose, Has, EscapableText, MemberByte;
    if m.Single? {
      ByteCloses(p, i, m.b, first);
    } else {
      HasSplit(p, i, EscapableText(m.lo), "-" + EscapableText(m.hi));
      HasSplit(p, i + |EscapableText(m.lo)|, "-", EscapableText(m.hi));
      ByteCloses(p, i, m.lo, first);
      DashPasses(p, i + |EscapableText(m.lo)|);
      ByteCloses(p, i + |EscapableText(m.lo)| + 1, m.hi, false);
    }
  }

  lemma {:induction false} MembersClose(p: string, i: nat, ms: seq<Member>, first: bool)
    requires Has(p, i, MembersText(ms) + "]") && (forall j :: 0 <= j < |ms| ==> GoodMember(ms[j]))
    requires first ==> ms != []
    ensures i + |MembersText(ms)| < |p| && BracketClose(p, i, first) == i + |MembersText(ms)|
    decreases |ms|
  {
    hide BracketClose, Has, MemberText, GoodMember;
    if ms == [] {
      assert MembersText(ms) + "]" == "]";
      CloseHere(p, i);
    } else {
      var m, rest := ms[0], MembersText(ms[1..]) + "]";
      assert MembersText(ms) + "]" == MemberText(m) + rest;
      HasSplit(p, i, MemberText(m), rest);
      MemberCloses(p, i, m, first);
      MembersClose(p, i + |MemberText(m)|, ms[1..], false);
    }
  }

  lemma CloseHere(p: string, i: nat)
    requires Has(p, i, "]")
    ensures i < |p| && BracketClose(p, i, false) == i
  { HasAt(p, i, "]", 0); }

  lemma DashPasses(p: string, i: nat)
    requires Has(p, i, "-")
    ensures i < |p| && BracketClose(p, i, false) == BracketClose(p, i + 1, false)
  { HasAt(p, i, "-", 0); }

  lemma AmongSingle(p: string, i: nat, e: nat, b: Escapable, c: char)
    requires Has(p, i, EscapableText(b)) && MemberByte(b) && i + |EscapableText(b)| <= e <= |p|
    requires i + |EscapableText(b)| < e ==> p[i + |EscapableText(b)|] != '-'
    ensures Among(p, i, e, c) <==> c == b.c || Among(p, i + |EscapableText(b)|, e, c)
  {
    ByteStands(p, i, b);
    hide Has;
  }

  lemma AmongRange(p: string, i: nat, e: nat, lo: Escapable, hi: Escapable, c: char)
    requires Has(p, i, EscapableText(lo)) && MemberByte(lo) && MemberByte(hi)
    requires Has(p, i + |EscapableText(lo)|, "-") && Has(p, i + |EscapableText(lo)| + 1, EscapableText(hi))
    requires i + |EscapableText(lo)| + 1 + |EscapableText(hi)| <= e <= |p|
    ensures Among(p, i, e, c)
      <==> lo.c <= c <= hi.c || Among(p, i + |EscapableText(lo)| + 1 + |EscapableText(hi)|, e, c)
  {
    ByteStands(p, i, lo);
    HasAt(p, i + |EscapableText(lo)|, "-", 0);
    ByteStands(p, i + |EscapableText(lo)| + 1, hi);
    hide Has;
  }

  lemma NoDash(p: string, k: nat, ms: seq<Member>)
    requires ms != [] && GoodMember(ms[0]) && Has(p, k, MembersText(ms))
    ensures k < |p| && p[k] != '-'
  {
    var b := if ms[0].Single? then ms[0].b else ms[0].lo;
    HasAt(p, k, MembersText(ms), 0);
    assert MembersText(ms)[0] == EscapableText(b)[0];
  }

  /** The first member, and those behind it. */
  lemma FirstAmong(p: string, i: nat, m: Member, ms: seq<Member>, c: char)
    requires Has(p, i, MemberText(m) + MembersText(ms)) && GoodMember(m)
    requires forall j :: 0 <= j < |ms| ==> GoodMember(ms[j])
    ensures var k, e := i + |MemberText(m)|, i + |MemberText(m)| + |MembersText(ms)|;
      e <= |p| && (Among(p, i, e, c) <==> IsIn(m, c) || Among(p, k, e, c))
  {
    hide Has, Among, MembersText, EscapableText, MemberByte;
    var k := i + |MemberText(m)|;
    var e := k + |MembersText(ms)|;
    HasSplit(p, i, MemberText(m), MembersText(ms));
    if m.Single? {
      MembersEnd(ms);
      if ms != [] { NoDash(p, k, ms); }
      AmongSingle(p, i, e, m.b, c);
    } else {
      HasSplit(p, i, EscapableText(m.lo), "-" + EscapableText(m.hi));
      HasSplit(p, i + |EscapableText(m.lo)|, "-", EscapableText(m.hi));
      AmongRange(p, i, e, m.lo, m.hi, c);
    }
  }

  lemma MembersEnd(ms: seq<Member>)
    ensures |MembersText(ms)| == 0 <==> ms == []
  {
    if ms != [] {
      var b := if ms[0].Single? then ms[0].b else ms[0].lo;
      assert MembersText(ms)[0] == EscapableText(b)[0];
    }
  }

  lemma InSetStep(ms: seq<Member>, c: char)
    ensures InSet(ms, c) <==> ms != [] && (IsIn(ms[0], c) || InSet(ms[1..], c))
  {
    hide IsIn;
    if InSet(ms, c) {
      var j :| 0 <= j < |ms| && IsIn(ms[j], c);
      if j > 0 { assert ms[1..][j - 1] == ms[j]; }
    }
    if ms != [] && InSet(ms[1..], c) {
      var j :| 0 <= j < |ms[1..]| && IsIn(ms[1..][j], c);
      assert ms[j + 1] == ms[1..][j];
    }
  }

  /** The members of a bracket expression are those of its text. */
  lemma {:induction false} MembersAmong(p: string, i: nat, ms: seq<Member>, c: char)
    requires Has(p, i, MembersText(ms)) && forall j :: 0 <= j < |ms| ==> GoodMember(ms[j])
    ensures i + |MembersText(ms)| <= |p| && (Among(p, i, i + |MembersText(ms)|, c) <==> InSet(ms, c))
    decreases |ms|
  {
    hide *;
    InSetStep(ms, c);
    MembersStep(ms);
    if ms != [] {
      var m, rest := ms[0], MembersText(ms[1..]);
      HasSplit(p, i, MemberText(m), rest);
      MembersAmong(p, i + |MemberText(m)|, ms[1..], c);
      FirstAmong(p, i, m, ms[1..], c);
    } else {
      NothingAmong(p, i, c);
    }
  }

  lemma MembersStep(ms: seq<Member>)
    ensures MembersText(ms) == if ms == [] then "" else MemberText(ms[0]) + MembersText(ms[1..])
  {}

  lemma NothingAmong(p: string, i: nat, c: char)
    requires Has(p, i, "")
    ensures i <= |p| && !Among(p, i, i, c)
  {}

  // ----- Patterns -----------------------------------------------------------------------------

  /** A run of any bytes accepts some stretch, and the items behind it the rest. */
  lemma {:induction false} RunMatches(p: string, t: string)
    requires p != "" && p[0] == '*'
    ensures Match(p, t) <==> exists k :: 0 <= k <= |t| && Match(p[1..], t[k..])
    decreases |t|
  {
    assert t[0..] == t;
    if t != "" {
      RunMatches(p, t[1..]);
      forall k | 0 <= k <= |t[1..]| ensures t[1..][k..] == t[k + 1..] {}
      if k :| 0 <= k <= |t| && Match(p[1..], t[k..]) {
        if k > 0 { assert t[1..][k - 1..] == t[k..]; }
      }
    }
  }

  lemma ItemsStep(xs: seq<Item>)
    requires xs != []
    ensures PatternText(xs) == ItemText(xs[0]) + PatternText(xs[1..])
  {}

  /** An item of one byte: how `Match` goes on behind it. */
  lemma OneByteMatches(x: Item, rest: string, t: string)
    requires GoodItem(x) && !x.AnyRun?
    ensures Match(ItemText(x) + rest, t) <==> t != "" && AcceptsItem(x, t[..1]) && Match(rest, t[1..])
  {
    var p := ItemText(x) + rest;
    match x
    case Lit(b) => assert p[|EscapableText(b)|..] == rest;
    case AnyOne => assert p[1..] == rest;
    case Set(ms) => SetMatches(x, rest, t);
    case NotSet(_, ms) => SetMatches(x, rest, t);
  }

  lemma SetMatches(x: Item, rest: string, t: string)
    requires GoodItem(x) && (x.Set? || x.NotSet?)
    ensures Match(ItemText(x) + rest, t) <==> t != "" && AcceptsItem(x, t[..1]) && Match(rest, t[1..])
  {
    var p, ms := ItemText(x) + rest, x.members;
    var m := if x.Set? then 1 else 2;
    SetText(x, rest);
    hide Among, BracketClose, InSet, MembersText, Has, ItemText, GoodMember, Negated;
    MembersClose(p, m, ms, true);
    if t != "" { MembersAmong(p, m, ms, t[0]); }
  }

  lemma SetText(x: Item, rest: string)
    requires GoodItem(x) && (x.Set? || x.NotSet?)
    ensures var p, m := ItemText(x) + rest, if x.Set? then 1 else 2;
      && p != "" && p[0] == '[' && (Negated(p) <==> x.NotSet?)
      && Has(p, m, MembersText(x.members) + "]") && Has(p, m, MembersText(x.members))
      && m + |MembersText(x.members)| < |p| && p[m + |MembersText(x.members)| + 1..] == rest
  {
    var body := MembersText(x.members);
    var front := if x.Set? then "[" else "[" + [x.not];
    FirstByte(x.members);
    SetFront(x);
    hide *;
    Framed(front, body, rest);
    FrontIs(front, body, rest);
  }

  lemma SetFront(x: Item)
    requires GoodItem(x) && (x.Set? || x.NotSet?)
    ensures ItemText(x) == (if x.Set? then "[" else "[" + [x.not]) + (MembersText(x.members) + "]")
    ensures x.NotSet? ==> x.not == '!' || x.not == '^'
    ensures GoodMembers(x.members)
  { hide MembersText, GoodMembers; }

  /** A bracket expression is negated by its second byte. */
  lemma FrontIs(front: string, body: string, rest: string)
    requires body != "" && body[0] != '!' && body[0] != '^'
    requires front == "[" || front == "[!" || front == "[^"
    ensures var p := front + (body + "]") + rest; p != "" && p[0] == '[' && (Negated(p) <==> |front| == 2)
  {
    var p := front + (body + "]") + rest;
    assert p[1] == if |front| == 2 then front[1] else body[0];
  }

  lemma Framed(front: string, body: string, rest: string)
    ensures var p := front + (body + "]") + rest;
      && Has(p, |front|, body + "]") && Has(p, |front|, body)
      && |front| + |body| < |p| && p[|front| + |body| + 1..] == rest
  {
    var p, k := front + (body + "]") + rest, |front|;
    assert p[k..k + |body| + 1] == body + "]";
    assert p[k..k + |body|] == body;
  }

  lemma FirstByte(ms: seq<Member>)
    requires GoodMembers(ms)
    ensures MembersText(ms) != "" && MembersText(ms)[0] != '!' && MembersText(ms)[0] != '^'
  {
    var b := if ms[0].Single? then ms[0].b else ms[0].lo;
    assert GoodMember(ms[0]) && MembersText(ms)[0] == EscapableText(b)[0];
  }

  /** `Match` accepts what the items accept one after another: `?` any byte, `*` any stretch, a bracket expression
      one byte that is or is not among its members. */
  lemma {:induction false} MatchAccepts(xs: seq<Item>, t: string)
    requires forall i :: 0 <= i < |xs| ==> GoodItem(xs[i])
    ensures Match(PatternText(xs), t) <==> Accepts(xs, t)
    decreases |xs|
  {
    if xs != [] {
      var x, rest := xs[0], PatternText(xs[1..]);
      ItemsStep(xs);
      assert GoodItem(x);
      forall k | 0 <= k <= |t| ensures Match(rest, t[k..]) <==> Accepts(xs[1..], t[k..]) {
        MatchAccepts(xs[1..], t[k..]);
      }
      if x.AnyRun? {
        var p := "*" + rest;
        assert p[1..] == rest;
        RunMatches(p, t);
      } else {
        OneByteMatches(x, rest, t);
        OneByteAccepts(xs, t);
      }
      hide Match, ItemText;
    }
  }

  lemma OneByteAccepts(xs: seq<Item>, t: string)
    requires xs != [] && !xs[0].AnyRun?
    ensures Accepts(xs, t) <==> t != "" && AcceptsItem(xs[0], t[..1]) && Accepts(xs[1..], t[1..])
  {
    forall k | 0 <= k <= |t| && AcceptsItem(xs[0], t[..k]) ensures k == 1 { assert |t[..k]| == k; }
  }
}
