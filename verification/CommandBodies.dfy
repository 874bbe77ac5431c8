/** Where a command substitution ends: at its own parenthesis, whatever parentheses stand in quotes, behind a
    backslash, in comments, in groups of their own, or behind the patterns of `case`. */
module CommandBodies {
  import opened CStrings
  import opened Scanners

  /** The text of a command, piece by piece. */
  datatype Body =
    | Done
    | Plain(c: char, rest: Body)
    | Escape(c: char, rest: Body)
    | Single(t: string, rest: Body)
    | Double(bs: seq<Escapable>, rest: Body)
    | Comment(t: string, rest: Body)
    | Group(inner: Body, rest: Body)

  function BytesText(bs: seq<Escapable>): string {
    if bs == [] then "" else EscapableText(bs[0]) + BytesText(bs[1..])
  }

  /** A comment stands behind a blank and goes up to the end of its line. */
  function Text(b: Body): string {
    match b
    case Done => ""
    case Plain(c, rest) => [c] + Text(rest)
    case Escape(c, rest) => ['\\', c] + Text(rest)
    case Single(t, rest) => "'" + (t + ("'" + Text(rest)))
    case Double(bs, rest) => "\"" + (BytesText(bs) + ("\"" + Text(rest)))
    case Comment(t, rest) => " #" + (t + ("\n" + Text(rest)))
    case Group(inner, rest) => "(" + (Text(inner) + (")" + Text(rest)))
  }

  predicate PlainByte(c: char) { c != '\\' && c != '\'' && c != '"' && c != '#' && c != '(' && c != ')' }

  predicate GoodBytes(bs: seq<Escapable>) {
    forall i :: 0 <= i < |bs| ==> bs[i].escaped || (bs[i].c != '"' && bs[i].c != '\\')
  }

  predicate Good(b: Body) {
    match b
    case Done => true
    case Plain(c, rest) => PlainByte(c) && Good(rest)
    case Escape(_, rest) => Good(rest)
    case Single(t, rest) => '\'' !in t && Good(rest)
    case Double(bs, rest) => GoodBytes(bs) && Good(rest)
    case Comment(t, rest) => '\n' !in t && Good(rest)
    case Group(inner, rest) => Good(inner) && Good(rest)
  }

  // ----- Runs ---------------------------------------------------------------------------------

  lemma {:induction false} RunPasses(s: string, p: nat, t: string, c: char)
    requires Has(s, p, t + [c]) && c !in t
    ensures p + |t| < |s| && s[p + |t|] == c && RunTo(s, p, c) == p + |t|
    decreases |t|
  {
    if t == "" {
      assert t + [c] == [c];
      HasAt(s, p, [c], 0);
    } else {
      assert t + [c] == t[..1] + (t[1..] + [c]);
      HasSplit(s, p, t[..1], t[1..] + [c]);
      HasAt(s, p, t[..1], 0);
      assert s[p] == t[0] && t[0] in t;
      RunPasses(s, p + 1, t[1..], c);
    }
  }

  lemma {:induction false} EscapedPasses(s: string, p: nat, bs: seq<Escapable>)
    requires Has(s, p, BytesText(bs) + "\"") && GoodBytes(bs)
    ensures p + |BytesText(bs)| < |s| && s[p + |BytesText(bs)|] == '"'
    ensures EscapedRunTo(s, p, '"') == p + |BytesText(bs)|
    decreases |bs|
  {
    if bs == [] {
      assert BytesText(bs) + "\"" == "\"";
      HasAt(s, p, "\"", 0);
    } else {
      var t := EscapableText(bs[0]);
      assert BytesText(bs) + "\"" == t + (BytesText(bs[1..]) + "\"");
      HasSplit(s, p, t, BytesText(bs[1..]) + "\"");
      HasAt(s, p, t, 0);
      EscapedPasses(s, p + |t|, bs[1..]);
    }
  }

  // ----- Words --------------------------------------------------------------------------------

  /** The keyword does not stand in `s` between `lo` and `hi`. */
  predicate Lacks(s: string, lo: nat, hi: nat, w: string) { forall i :: lo <= i && i + |w| <= hi ==> !Has(s, i, w) }

  /** What the scan knows of the word in front of `q`; `lo` is where the text began. */
  predicate Tracks(s: string, lo: nat, q: nat, m: Command) {
    lo <= q <= |s| && (|m.kw| < 7 ==> lo + |m.kw| <= q && s[q - |m.kw|..q] == m.kw)
  }

  lemma WordTracks(s: string, lo: nat, q: nat, hi: nat, m: Command)
    requires Tracks(s, lo, q, m) && q < hi <= |s|
    requires Lacks(s, lo, hi, "case") && (m.cases > 0 ==> Lacks(s, lo, hi, "esac"))
    ensures var n := Word(m, s[q]);
      n.cases == m.cases && n.depth == m.depth && Tracks(s, lo, q + 1, n) && (!NameStart(s[q]) ==> n.kw == "")
  {
    var k := |m.kw|;
    if NameStart(s[q]) {
      if k < 7 { LongerWord(s, q, m.kw); }
    } else {
      if k == 4 { assert Has(s, q - 4, m.kw); }
      assert s[q + 1..q + 1] == "";
    }
  }

  lemma LongerWord(s: string, q: nat, kw: string)
    requires |kw| <= q < |s| && s[q - |kw|..q] == kw
    ensures s[q - |kw|..q + 1] == kw + [s[q]] && q + 1 - |kw + [s[q]]| == q - |kw|
  {}

  /** Inside a text without the word `case`, at a depth. */
  predicate Inside(s: string, lo: nat, q: nat, hi: nat, m: Command) {
    Tracks(s, lo, q, m) && hi <= |s| && Lacks(s, lo, hi, "case") && m.cases == 0 && m.depth > 0
  }

  lemma WordInside(s: string, lo: nat, q: nat, hi: nat, m: Command)
    requires Inside(s, lo, q, hi, m) && q < hi
    ensures var n := Word(m, s[q]).(prev := s[q]);
      n.depth == m.depth && Inside(s, lo, q + 1, hi, n) && (!NameStart(s[q]) ==> n.kw == "")
  {
    hide Word, Has;
    WordTracks(s, lo, q, hi, m);
  }

  lemma FreshInside(s: string, lo: nat, q: nat, q1: nat, hi: nat, m: Command)
    requires Inside(s, lo, q, hi, m) && m.kw == "" && q <= q1 <= |s|
    ensures Inside(s, lo, q1, hi, m)
  {}

  /** One byte that is no piece's beginning is passed. */
  lemma PlainPasses(s: string, lo: nat, q: nat, hi: nat, m: Command) returns (n: Command)
    requires Inside(s, lo, q, hi, m) && q < hi && PlainByte(s[q])
    ensures n.depth == m.depth && n.prev == s[q] && Inside(s, lo, q + 1, hi, n)
    ensures CommandEnd(s, q, m) == CommandEnd(s, q + 1, n)
  {
    hide Word, CommandEnd, Inside;
    DepthOf(s, lo, q, hi, m);
    WordInside(s, lo, q, hi, m);
    CommandTurn(s, q, m);
    n := Word(m, s[q]).(prev := s[q]);
  }

  lemma DepthOf(s: string, lo: nat, q: nat, hi: nat, m: Command)
    requires Inside(s, lo, q, hi, m)
    ensures m.depth > 0 && m.cases == 0 && q <= |s| && hi <= |s|
  {}

  lemma EscapePasses(s: string, lo: nat, q: nat, hi: nat, m: Command) returns (n: Command)
    requires Inside(s, lo, q, hi, m) && q + 1 < hi && s[q] == '\\'
    ensures n.depth == m.depth && Inside(s, lo, q + 2, hi, n)
    ensures CommandEnd(s, q, m) == CommandEnd(s, q + 2, n)
  {
    hide Word, CommandEnd, Inside;
    DepthOf(s, lo, q, hi, m);
    WordInside(s, lo, q, hi, m);
    CommandTurn(s, q, m);
    n := Word(m, s[q]).(prev := s[q]);
    FreshInside(s, lo, q + 1, q + 2, hi, n);
  }

  lemma SinglePasses(s: string, lo: nat, q: nat, hi: nat, m: Command, t: string) returns (n: Command)
    requires Inside(s, lo, q, hi, m) && q + |t| + 2 <= hi && Has(s, q, "'" + (t + "'")) && '\'' !in t
    ensures n.depth == m.depth && Inside(s, lo, q + |t| + 2, hi, n)
    ensures CommandEnd(s, q, m) == CommandEnd(s, q + |t| + 2, n)
  {
    hide Word, CommandEnd, Inside, RunTo;
    HasSplit(s, q, "'", t + "'");
    HasAt(s, q, "'", 0);
    RunPasses(s, q + 1, t, '\'');
    DepthOf(s, lo, q, hi, m);
    WordInside(s, lo, q, hi, m);
    CommandTurn(s, q, m);
    n := Word(m, s[q]).(prev := s[q]);
    FreshInside(s, lo, q + 1, q + |t| + 2, hi, n);
  }

  lemma DoublePasses(s: string, lo: nat, q: nat, hi: nat, m: Command, bs: seq<Escapable>) returns (n: Command)
    requires Inside(s, lo, q, hi, m) && q + |BytesText(bs)| + 2 <= hi
    requires Has(s, q, "\"" + (BytesText(bs) + "\"")) && GoodBytes(bs)
    ensures n.depth == m.depth && Inside(s, lo, q + |BytesText(bs)| + 2, hi, n)
    ensures CommandEnd(s, q, m) == CommandEnd(s, q + |BytesText(bs)| + 2, n)
  {
    hide Word, CommandEnd, Inside, EscapedRunTo;
    HasSplit(s, q, "\"", BytesText(bs) + "\"");
    HasAt(s, q, "\"", 0);
    EscapedPasses(s, q + 1, bs);
    DepthOf(s, lo, q, hi, m);
    WordInside(s, lo, q, hi, m);
    CommandTurn(s, q, m);
    n := Word(m, s[q]).(prev := s[q]);
    FreshInside(s, lo, q + 1, q + |BytesText(bs)| + 2, hi, n);
  }

  /** A comment is passed up to the end of its line. */
  lemma CommentPasses(s: string, lo: nat, q: nat, hi: nat, m: Command, t: string) returns (n: Command)
    requires Inside(s, lo, q, hi, m) && q + |t| + 3 <= hi && Has(s, q, " #" + (t + "\n")) && '\n' !in t
    ensures n.depth == m.depth && Inside(s, lo, q + |t| + 3, hi, n)
    ensures CommandEnd(s, q, m) == CommandEnd(s, q + |t| + 3, n)
  {
    hide Word, CommandEnd, Inside, RunTo;
    HasSplit(s, q, " #", t + "\n");
    HasAt(s, q, " #", 0);
    HasAt(s, q, " #", 1);
    RunPasses(s, q + 2, t, '\n');
    var n1 := PlainPasses(s, lo, q, hi, m);
    DepthOf(s, lo, q + 1, hi, n1);
    WordInside(s, lo, q + 1, hi, n1);
    WordKeeps(n1, s[q + 1]);
    CommandTurn(s, q + 1, n1);
    var n2 := Word(n1, s[q + 1]).(prev := '#');
    FreshInside(s, lo, q + 2, q + 2 + |t|, hi, n2);
    n := PlainPasses(s, lo, q + 2 + |t|, hi, n2);
  }

  lemma WordKeeps(m: Command, c: char)
    ensures Word(m, c).prev == m.prev
  {}

  /** The parenthesis that opens a group, and the one that closes it. */
  lemma GroupOpens(s: string, lo: nat, q: nat, hi: nat, m: Command) returns (n: Command)
    requires Inside(s, lo, q, hi, m) && q < hi && s[q] == '('
    ensures n.depth == m.depth + 1 && Inside(s, lo, q + 1, hi, n)
    ensures CommandEnd(s, q, m) == CommandEnd(s, q + 1, n)
  {
    hide Word, CommandEnd;
    WordInside(s, lo, q, hi, m);
    CommandTurn(s, q, m);
    n := Word(m, s[q]).(prev := s[q], depth := m.depth + 1);
  }

  lemma GroupCloses(s: string, lo: nat, q: nat, hi: nat, m: Command) returns (n: Command)
    requires Inside(s, lo, q, hi, m) && q < hi && s[q] == ')'
    ensures m.depth == 1 ==> CommandEnd(s, q, m) == q
    ensures m.depth > 1 ==>
      n.depth == m.depth - 1 && Inside(s, lo, q + 1, hi, n) && CommandEnd(s, q, m) == CommandEnd(s, q + 1, n)
  {
    hide Word, CommandEnd;
    WordInside(s, lo, q, hi, m);
    CommandTurn(s, q, m);
    n := Word(m, s[q]).(prev := s[q], depth := m.depth - 1);
  }

  // ----- Bodies -------------------------------------------------------------------------------

  /** The first piece, but for what a group holds. */
  function Piece(b: Body): string
    requires !b.Done?
  {
    match b
    case Plain(c, _) => [c]
    case Escape(c, _) => ['\\', c]
    case Single(t, _) => "'" + (t + "'")
    case Double(bs, _) => "\"" + (BytesText(bs) + "\"")
    case Comment(t, _) => " #" + (t + "\n")
    case Group(inner, _) => "(" + (Text(inner) + ")")
  }

  lemma PieceFirst(b: Body)
    requires !b.Done?
    ensures Text(b) == Piece(b) + Text(b.rest)
  {}

  lemma PiecePasses(s: string, lo: nat, q: nat, hi: nat, m: Command, b: Body) returns (n: Command)
    requires Inside(s, lo, q, hi, m) && !b.Done? && !b.Group? && Good(b)
    requires Has(s, q, Piece(b)) && q + |Piece(b)| <= hi
    ensures n.depth == m.depth && Inside(s, lo, q + |Piece(b)|, hi, n)
    ensures CommandEnd(s, q, m) == CommandEnd(s, q + |Piece(b)|, n)
  {
    hide CommandEnd, Inside, Has, GoodBytes, PlainByte, Text, BytesText;
    HasAt(s, q, Piece(b), 0);
    match b
    case Plain(_, _) => n := PlainPasses(s, lo, q, hi, m);
    case Escape(_, _) => n := EscapePasses(s, lo, q, hi, m);
    case Single(t, _) => n := SinglePasses(s, lo, q, hi, m, t);
    case Double(bs, _) => n := DoublePasses(s, lo, q, hi, m, bs);
    case Comment(t, _) => n := CommentPasses(s, lo, q, hi, m, t);
  }

  lemma GroupLayout(s: string, q: nat, inner: Body)
    requires Has(s, q, "(" + (Text(inner) + ")"))
    ensures var e := q + 1 + |Text(inner)|; e < |s| && s[q] == '(' && Has(s, q + 1, Text(inner)) && s[e] == ')'
  {
    HasSplit(s, q, "(", Text(inner) + ")");
    HasAt(s, q, "(", 0);
    HasSplit(s, q + 1, Text(inner), ")");
    HasAt(s, q + 1 + |Text(inner)|, ")", 0);
  }

  /** The scan passes over a body as if it were not there. */
  lemma {:induction false} BodyPasses(s: string, lo: nat, q: nat, hi: nat, m: Command, b: Body) returns (n: Command)
    requires Inside(s, lo, q, hi, m) && Good(b) && Has(s, q, Text(b)) && q + |Text(b)| <= hi
    ensures n.depth == m.depth && Inside(s, lo, q + |Text(b)|, hi, n)
    ensures CommandEnd(s, q, m) == CommandEnd(s, q + |Text(b)|, n)
    decreases b
  {
    hide CommandEnd, Inside, Has, Text, GoodBytes, PlainByte;
    if b.Done? {
      NoText();
      n := m;
    } else {
      PieceFirst(b);
      HasSplit(s, q, Piece(b), Text(b.rest));
      if b.Group? {
        GroupLayout(s, q, b.inner);
        n := GroupOpens(s, lo, q, hi, m);
        n := BodyPasses(s, lo, q + 1, hi, n, b.inner);
        DepthOf(s, lo, q, hi, m);
        n := GroupCloses(s, lo, q + 1 + |Text(b.inner)|, hi, n);
      } else {
        n := PiecePasses(s, lo, q, hi, m, b);
      }
      n := BodyPasses(s, lo, q + |Piece(b)|, hi, n, b.rest);
    }
  }

  lemma NoText()
    ensures Text(Done) == ""
  {}

  /** A command substitution in which the word `case` does not stand ends at its own parenthesis. */
  lemma BodyEnds(s: string, p: nat, b: Body)
    requires Good(b) && Has(s, p, Text(b) + ")") && Lacks(s, p, p + |Text(b)|, "case")
    ensures CommandEnd(s, p, COMMAND_START) == p + |Text(b)|
  {
    var e := p + |Text(b)|;
    HasSplit(s, p, Text(b), ")");
    HasAt(s, e, ")", 0);
    assert Inside(s, p, p, e, COMMAND_START);
    var n := BodyPasses(s, p, p, e, COMMAND_START, b);
    hide CommandEnd, Has, Text, Good;
    ParenthesisCloses(s, p, e, n);
  }

  lemma ParenthesisCloses(s: string, lo: nat, e: nat, m: Command)
    requires Inside(s, lo, e, e, m) && m.depth == 1 && e < |s| && s[e] == ')'
    ensures CommandEnd(s, e, m) == e
  {
    if |m.kw| == 4 { assert Has(s, e - 4, m.kw); }
    hide CommandEnd;
    CommandTurn(s, e, m);
  }

  // ----- `case` -------------------------------------------------------------------------------

  /** No quotes, comments or backslashes, but parentheses as they come. */
  predicate ArmByte(c: char) { c != '\\' && c != '\'' && c != '"' && c != '#' }

  /** Inside `case`: parentheses do not count. */
  predicate InCase(s: string, lo: nat, q: nat, hi: nat, m: Command) {
    && Tracks(s, lo, q, m) && hi <= |s| && Lacks(s, lo, hi, "case") && Lacks(s, lo, hi, "esac")
    && m.cases == 1 && m.depth == 1
  }

  lemma ArmByteMatches(s: string, lo: nat, q: nat, hi: nat, m: Command) returns (n: Command)
    requires InCase(s, lo, q, hi, m) && q < hi && ArmByte(s[q])
    ensures InCase(s, lo, q + 1, hi, n) && CommandEnd(s, q, m) == CommandEnd(s, q + 1, n)
  {
    WordTracks(s, lo, q, hi, m);
    hide Word, CommandEnd, Lacks;
    CommandTurn(s, q, m);
    n := Word(m, s[q]).(prev := s[q]);
  }

  lemma {:induction false} ArmsPass(s: string, lo: nat, q: nat, hi: nat, m: Command) returns (n: Command)
    requires InCase(s, lo, q, hi, m) && q <= hi && forall j :: q <= j < hi ==> ArmByte(s[j])
    ensures InCase(s, lo, hi, hi, n) && CommandEnd(s, q, m) == CommandEnd(s, hi, n)
    decreases hi - q
  {
    hide InCase, CommandEnd;
    n := m;
    if q < hi {
      n := ArmByteMatches(s, lo, q, hi, m);
      n := ArmsPass(s, lo, q + 1, hi, n);
    }
  }

  lemma CaseOpens(s: string, p: nat) returns (n: Command)
    requires Has(s, p, "case ")
    ensures p + 5 <= |s| && CommandEnd(s, p, COMMAND_START) == CommandEnd(s, p + 5, n)
    ensures n.cases == 1 && n.depth == 1 && n.kw == ""
  {
    HasAt(s, p, "case ", 0); HasAt(s, p, "case ", 1); HasAt(s, p, "case ", 2); HasAt(s, p, "case ", 3);
    HasAt(s, p, "case ", 4);
    hide CommandEnd, Has;
    var m := COMMAND_START;
    CommandTurn(s, p, m);
    var m1 := Word(m, 'c').(prev := 'c');
    CommandTurn(s, p + 1, m1);
    var m2 := Word(m1, 'a').(prev := 'a');
    CommandTurn(s, p + 2, m2);
    var m3 := Word(m2, 's').(prev := 's');
    CommandTurn(s, p + 3, m3);
    var m4 := Word(m3, 'e').(prev := 'e');
    CommandTurn(s, p + 4, m4);
    n := Word(m4, ' ').(prev := ' ');
    assert m4.kw == "case" && m4.wordCmd;
  }

  /** `c` at `q` is no more than a byte of a word or between words. */
  lemma ByteTaken(s: string, q: nat, m: Command)
    requires q < |s| && m.depth == 1 && m.cases == 1 && ArmByte(s[q]) && Word(m, s[q]).cases == 1
    ensures CommandEnd(s, q, m) == CommandEnd(s, q + 1, Word(m, s[q]).(prev := s[q]))
  {
    hide Word, CommandEnd;
    CommandTurn(s, q, m);
  }

  /** What the scan knows behind a semicolon and `w`. */
  predicate AtWord(m: Command, w: string) {
    m.cases == 1 && m.depth == 1 && m.kw == w && if w == "" then m.atCmd else m.wordCmd
  }

  lemma WordGoesOn(s: string, q: nat, m: Command, w: string) returns (n: Command)
    requires q < |s| && AtWord(m, w) && NameStart(s[q]) && |w| < 7
    ensures AtWord(n, w + [s[q]]) && CommandEnd(s, q, m) == CommandEnd(s, q + 1, n)
  {
    ByteTaken(s, q, m);
    n := Word(m, s[q]).(prev := s[q]);
    hide CommandEnd;
  }

  lemma CaseCloses(s: string, q: nat, m: Command)
    requires Has(s, q, ";esac)") && m.cases == 1 && m.depth == 1 && m.kw != "case" && m.kw != "esac"
    ensures CommandEnd(s, q, m) == q + 5
  {
    EsacAt(s, q);
    hide CommandEnd, Has;
    ByteTaken(s, q, m);
    var n := Word(m, ';').(prev := ';');
    assert AtWord(n, "");
    hide Word, AtWord;
    n := WordGoesOn(s, q + 1, n, "");
    n := WordGoesOn(s, q + 2, n, "e");
    n := WordGoesOn(s, q + 3, n, "es");
    n := WordGoesOn(s, q + 4, n, "esa");
    assert "" + ['e'] == "e" && "e" + ['s'] == "es" && "es" + ['a'] == "esa" && "esa" + ['c'] == "esac";
    EsacEnds(s, q + 5, n);
  }

  lemma EsacAt(s: string, q: nat)
    requires Has(s, q, ";esac)")
    ensures q + 6 <= |s| && s[q] == ';' && s[q + 1] == 'e' && s[q + 2] == 's' && s[q + 3] == 'a' && s[q + 4] == 'c'
    ensures s[q + 5] == ')'
  {
    HasAt(s, q, ";esac)", 0); HasAt(s, q, ";esac)", 1); HasAt(s, q, ";esac)", 2); HasAt(s, q, ";esac)", 3);
    HasAt(s, q, ";esac)", 4); HasAt(s, q, ";esac)", 5);
  }

  lemma EsacEnds(s: string, q: nat, m: Command)
    requires q < |s| && s[q] == ')' && AtWord(m, "esac")
    ensures CommandEnd(s, q, m) == q
  {
    hide CommandEnd;
    CommandTurn(s, q, m);
  }

  /** A command substitution that is one `case`: the parentheses behind its patterns do not end it. */
  lemma CaseEnds(s: string, p: nat, u: string)
    requires Has(s, p, "case " + (u + ";esac)")) && forall j :: 0 <= j < |u| ==> ArmByte(u[j])
    requires Lacks(s, p + 5, p + 5 + |u|, "case") && Lacks(s, p + 5, p + 5 + |u|, "esac")
    ensures CommandEnd(s, p, COMMAND_START) == p + 5 + |u| + 5
  {
    HasSplit(s, p, "case ", u + ";esac)");
    HasSplit(s, p + 5, u, ";esac)");
    forall j | p + 5 <= j < p + 5 + |u| ensures ArmByte(s[j]) { HasAt(s, p + 5, u, j - p - 5); }
    var n := CaseOpens(s, p);
    var hi := p + 5 + |u|;
    assert InCase(s, p + 5, p + 5, hi, n);
    n := ArmsPass(s, p + 5, p + 5, hi, n);
    ArmsEnd(s, p + 5, hi, n);
    hide CommandEnd, Has;
    CaseCloses(s, hi, n);
  }

  lemma ArmsEnd(s: string, lo: nat, hi: nat, m: Command)
    requires InCase(s, lo, hi, hi, m)
    ensures m.cases == 1 && m.depth == 1 && m.kw != "case" && m.kw != "esac"
  { if |m.kw| == 4 { assert Has(s, hi - 4, m.kw); } }
}
