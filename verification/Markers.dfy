/** The markers that the shell puts into words, and the encoding that keeps data apart from them. */
module Markers {

  const SOH: char := '\U{0001}'      // a field boundary of "$@"
  const QG_OPEN: char := '\U{0002}'
  const QG_CLOSE: char := '\U{0003}'
  const PP_ESC: char := '\U{0004}'
  const QG_NULL: char := '\U{0005}'

  predicate Reserved(c: char) { SOH <= c <= QG_NULL }

  /** `pp_escape_append`: a reserved byte becomes the escape byte and itself with bit 6 set. */
  function Escape(s: string): string {
    if s == [] then [] else EscapeByte(s[0]) + Escape(s[1..])
  }

  function EscapeByte(c: char): string { if Reserved(c) then [PP_ESC, c + '@'] else [c] }

  /** Bit 6 of a byte cleared. */
  function ClearBit6(c: char): char {
    if c < '\U{0100}' && c as int / 64 % 2 == 1 then c - '@' else c
  }

  /** `pp_decode`. */
  function Decode(s: string): string {
    if s == [] then []
    else if s[0] == PP_ESC && |s| > 1 then [ClearBit6(s[1])] + Decode(s[2..])
    else if s[0] == QG_NULL then Decode(s[1..])
    else [s[0]] + Decode(s[1..])
  }

  /** `pp_decode_full`: boundaries and guards go too. */
  function DecodeFull(s: string): string {
    if s == [] then []
    else if SOH <= s[0] <= QG_CLOSE || s[0] == QG_NULL then DecodeFull(s[1..])
    else if s[0] == PP_ESC && |s| > 1 then [ClearBit6(s[1])] + DecodeFull(s[2..])
    else [s[0]] + DecodeFull(s[1..])
  }

  lemma DecodeEnd(s: string)
    ensures Decode(s[|s|..]) == [] && s[0..] == s
  {}

  lemma DecodeStep(s: string, i: nat, out: string)
    requires i < |s|
    ensures out + Decode(s[i..]) ==
      if s[i] == PP_ESC && i + 1 < |s| then out + [ClearBit6(s[i + 1])] + Decode(s[i + 2..])
      else if s[i] == QG_NULL then out + Decode(s[i + 1..])
      else out + [s[i]] + Decode(s[i + 1..])
  {
    hide ClearBit6;
    assert s[i..][1..] == s[i + 1..] && (i + 1 < |s| ==> s[i..][2..] == s[i + 2..]);
  }

  method PpDecode(s: string) returns (out: string)
    ensures out == Decode(s)
  {
    DecodeEnd(s);
    hide Decode, ClearBit6;
    out := "";
    var i := 0;
    while i < |s|
      invariant 0 <= i <= |s| && Decode(s) == out + Decode(s[i..])
    {
      DecodeStep(s, i, out);
      if s[i] == PP_ESC && i + 1 < |s| {
        out := out + [ClearBit6(s[i + 1])];
        i := i + 2;
      } else {
        if s[i] != QG_NULL { out := out + [s[i]]; }
        i := i + 1;
      }
    }
  }

  lemma ReservedByte(c: char)
    requires Reserved(c)
    ensures ClearBit6(c + '@') == c
  {}

  lemma DecodeByte(c: char, rest: string)
    ensures Decode(EscapeByte(c) + rest) == [c] + Decode(rest)
    ensures DecodeFull(EscapeByte(c) + rest) == [c] + DecodeFull(rest)
  {
    var e := EscapeByte(c) + rest;
    if Reserved(c) { ReservedByte(c); assert e[2..] == rest; } else { assert e[1..] == rest; }
  }

  lemma EscapeStep(s: string, rest: string)
    ensures s == [] ==> Escape(s) + rest == rest
    ensures s != [] ==> Escape(s) + rest == EscapeByte(s[0]) + (Escape(s[1..]) + rest)
  { hide EscapeByte; }

  /** Decoding inverts escaping, whatever follows. */
  lemma {:induction false} DecodeInvertsEscape(s: string, rest: string)
    ensures Decode(Escape(s) + rest) == s + Decode(rest)
  {
    hide Escape, EscapeByte, Decode;
    EscapeStep(s, rest);
    if s != [] {
      DecodeInvertsEscape(s[1..], rest);
      DecodeByte(s[0], Escape(s[1..]) + rest);
      assert s + Decode(rest) == [s[0]] + (s[1..] + Decode(rest));
    }
  }

  lemma {:induction false} DecodeFullInvertsEscape(s: string, rest: string)
    ensures DecodeFull(Escape(s) + rest) == s + DecodeFull(rest)
  {
    hide Escape, EscapeByte, DecodeFull;
    EscapeStep(s, rest);
    if s != [] {
      DecodeFullInvertsEscape(s[1..], rest);
      DecodeByte(s[0], Escape(s[1..]) + rest);
      assert s + DecodeFull(rest) == [s[0]] + (s[1..] + DecodeFull(rest));
    }
  }

  /** Escaped data holds no marker: the only reserved byte in it is the escape byte. */
  lemma {:induction false} EscapedHasNoMarker(s: string)
    ensures forall i :: 0 <= i < |Escape(s)| ==> !Reserved(Escape(s)[i]) || Escape(s)[i] == PP_ESC
  { if s != [] { EscapedHasNoMarker(s[1..]); } }
}
