/** ASCII escaping of JSON text (go/kei/evaluator/resources.go,
    rust/agentware-kei/src/evaluator.rs): every character outside ASCII becomes \uXXXX
    escapes of its UTF-16 code units, and the text still means the same JSON. A string is a
    sequence of Unicode scalar values, as Go's range over a string yields them. */
module AsciiEscape {

  // ---- Code units ----

  /** The UTF-16 code units of a character. */
  function Units(c: char): seq<nat> {
    var n := c as int;
    if n < 0x10000 then [n] else [0xD800 + (n - 0x10000) / 0x400, 0xDC00 + (n - 0x10000) % 0x400]
  }

  predicate HighSurrogate(u: nat) {
    0xD800 <= u < 0xDC00
  }

  predicate LowSurrogate(u: nat) {
    0xDC00 <= u < 0xE000
  }

  /** The code points that code units spell: a high surrogate followed by a low one is one
      code point, a lone surrogate stands for the replacement character. */
  function CodePoints(units: seq<nat>): seq<nat>
    decreases |units|
  {
    if units == [] then []
    else if |units| > 1 && HighSurrogate(units[0]) && LowSurrogate(units[1])
    then [0x10000 + (units[0] - 0xD800) * 0x400 + (units[1] - 0xDC00)] + CodePoints(units[2..])
    else [if HighSurrogate(units[0]) || LowSurrogate(units[0]) then 0xFFFD else units[0]] + CodePoints(units[1..])
  }

  /** A character's code units spell that character, whatever follows. */
  lemma UnitsSpell(c: char, rest: seq<nat>)
    ensures CodePoints(Units(c) + rest) == [c as int] + CodePoints(rest)
  {
    var n, all := c as int, Units(c) + rest;
    if n < 0x10000 {
      assert all[0] == n && all[1..] == rest;
    } else {
      assert all[2..] == rest;
      assert (n - 0x10000) / 0x400 * 0x400 + (n - 0x10000) % 0x400 == n - 0x10000;
    }
  }

  // ---- Hexadecimal ----

  const HexDigits := "0123456789abcdef"

  function Digits4(a: nat, b: nat, c: nat, d: nat): string
    requires a < 16 && b < 16 && c < 16 && d < 16
  {
    [HexDigits[a], HexDigits[b], HexDigits[c], HexDigits[d]]
  }

  function Hex4(n: nat): string
    requires n < 0x10000
  {
    Digits4(n / 0x1000, n / 0x100 % 0x10, n / 0x10 % 0x10, n % 0x10)
  }

  /** The value of a hexadecimal digit of either case, or 16. */
  function HexValue(c: char): nat {
    if '0' <= c <= '9' then c as int - '0' as int
    else if 'a' <= c <= 'f' then c as int - 'a' as int + 10
    else if 'A' <= c <= 'F' then c as int - 'A' as int + 10
    else 16
  }

  predicate LowerHex(c: char) {
    '0' <= c <= '9' || 'a' <= c <= 'f'
  }

  lemma HexDigitBack(d: nat)
    requires d < 16
    ensures HexValue(HexDigits[d]) == d && LowerHex(HexDigits[d])
  {
    assert d in {0, 1, 2, 3, 4, 5, 6, 7, 8, 9, 10, 11, 12, 13, 14, 15};
  }

  predicate IsHex4(s: string) {
    |s| >= 4 && HexValue(s[0]) < 16 && HexValue(s[1]) < 16 && HexValue(s[2]) < 16 && HexValue(s[3]) < 16
  }

  function ParseHex4(s: string): nat
    requires IsHex4(s)
  {
    HexValue(s[0]) * 0x1000 + HexValue(s[1]) * 0x100 + HexValue(s[2]) * 0x10 + HexValue(s[3])
  }

  lemma Digits4Back(a: nat, b: nat, c: nat, d: nat, rest: string)
    requires a < 16 && b < 16 && c < 16 && d < 16
    ensures IsHex4(Digits4(a, b, c, d) + rest)
    ensures ParseHex4(Digits4(a, b, c, d) + rest) == a * 0x1000 + b * 0x100 + c * 0x10 + d
    ensures forall i :: 0 <= i < 4 ==> LowerHex(Digits4(a, b, c, d)[i])
  {
    HexDigitBack(a);
    HexDigitBack(b);
    HexDigitBack(c);
    HexDigitBack(d);
    var s := Digits4(a, b, c, d) + rest;
    assert s[0] == HexDigits[a] && s[1] == HexDigits[b] && s[2] == HexDigits[c] && s[3] == HexDigits[d];
  }

  lemma NibblesSum(n: nat)
    requires n < 0x10000
    ensures n == n / 0x1000 * 0x1000 + n / 0x100 % 0x10 * 0x100 + n / 0x10 % 0x10 * 0x10 + n % 0x10
  {
    assert n / 0x10 == n / 0x100 * 0x10 + n / 0x10 % 0x10;
    assert n / 0x100 == n / 0x1000 * 0x10 + n / 0x100 % 0x10;
  }

  lemma Hex4Back(n: nat, rest: string)
    requires n < 0x10000
    ensures IsHex4(Hex4(n) + rest) && ParseHex4(Hex4(n) + rest) == n
    ensures |Hex4(n)| == 4 && forall i :: 0 <= i < 4 ==> LowerHex(Hex4(n)[i]) && Hex4(n)[i] as int < 0x80
  {
    Digits4Back(n / 0x1000, n / 0x100 % 0x10, n / 0x10 % 0x10, n % 0x10, rest);
    NibblesSum(n);
  }

  // ---- The escape ----

  function EscapeUnit(u: nat): string
    requires u < 0x10000
  {
    "\\u" + Hex4(u)
  }

  function EscapeChar(c: char): string {
    if c as int < 0x80 then [c]
    else if |Units(c)| == 1 then EscapeUnit(Units(c)[0])
    else EscapeUnit(Units(c)[0]) + EscapeUnit(Units(c)[1])
  }

  function Escape(s: string): string {
    if s == [] then [] else EscapeChar(s[0]) + Escape(s[1..])
  }

  lemma {:induction false} EscapeSnoc(s: string, c: char)
    ensures Escape(s + [c]) == Escape(s) + EscapeChar(c)
  {
    if s == [] {
      assert s + [c] == [c] && [c][1..] == [];
    } else {
      assert (s + [c])[0] == s[0] && (s + [c])[1..] == s[1..] + [c];
      EscapeSnoc(s[1..], c);
    }
  }

  /** The Go loop: a rune at a time, with the surrogate pair of a rune beyond 16 bits. */
  method AsciiEscapeGo(s: string) returns (b: string)
    ensures b == Escape(s)
  {
    b := [];
    for i := 0 to |s|
      invariant b == Escape(s[..i])
    {
      assert s[..i + 1] == s[..i] + [s[i]];
      EscapeSnoc(s[..i], s[i]);
      var r := s[i] as int;
      if r < 0x80 {
        b := b + [s[i]];
        continue;
      }
      if r > 0xFFFF {
        var hi, lo := 0xD800 + (r - 0x10000) / 0x400, 0xDC00 + (r - 0x10000) % 0x400;
        b := b + ("\\u" + Hex4(hi) + ("\\u" + Hex4(lo)));
        continue;
      }
      b := b + ("\\u" + Hex4(r));
    }
    assert s[..|s|] == s;
  }

  /** The Rust loop: a character at a time, and for each its UTF-16 units. */
  method AsciiEscapeRust(s: string) returns (ascii: string)
    ensures ascii == Escape(s)
  {
    ascii := [];
    for i := 0 to |s|
      invariant ascii == Escape(s[..i])
    {
      assert s[..i + 1] == s[..i] + [s[i]];
      EscapeSnoc(s[..i], s[i]);
      if s[i] as int < 0x80 {
        ascii := ascii + [s[i]];
      } else {
        var units, part := Units(s[i]), "";
        for k := 0 to |units|
          invariant part == if k == 0 then "" else if k == 1 then EscapeUnit(units[0])
                            else EscapeUnit(units[0]) + EscapeUnit(units[1])
        {
          part := part + EscapeUnit(units[k]);
        }
        ascii := ascii + part;
      }
    }
    assert s[..|s|] == s;
  }

  predicate Ascii(s: string) {
    forall i :: 0 <= i < |s| ==> s[i] as int < 0x80
  }

  lemma EscapeUnitAscii(u: nat)
    requires u < 0x10000
    ensures Ascii(EscapeUnit(u))
  {
    Hex4Back(u, "");
    var s := EscapeUnit(u);
    assert s[0] == '\\' && s[1] == 'u' && s[2..] == Hex4(u);
    forall i | 0 <= i < |s| ensures s[i] as int < 0x80 {
      if i >= 2 { assert s[i] == Hex4(u)[i - 2]; }
    }
  }

  /** The output is pure ASCII, and ASCII text is left alone. */
  lemma {:induction false} EscapeIsAscii(s: string)
    ensures Ascii(Escape(s)) && (Ascii(s) ==> Escape(s) == s)
  {
    if s != [] {
      EscapeIsAscii(s[1..]);
      var us := Units(s[0]);
      EscapeUnitAscii(us[0]);
      if |us| == 2 { EscapeUnitAscii(us[1]); }
      assert s == [s[0]] + s[1..];
      assert Ascii(s) ==> Ascii(s[1..]);
    }
  }

  // ---- What JSON text means ----

  /** The contents of a JSON string as code units, and what follows its closing quote, as in
      section 7 of RFC 8259. */
  datatype Scanned = Bad | Good(units: seq<nat>, rest: string)

  /** The unit of a two-character escape, or 0x10000 if there is none. */
  function SimpleEscape(c: char): nat {
    if c == '"' || c == '\\' || c == '/' then c as int
    else if c == 'b' then 8 else if c == 'f' then 12 else if c == 'n' then 10
    else if c == 'r' then 13 else if c == 't' then 9 else 0x10000
  }

  function Then(units: seq<nat>, r: Scanned): Scanned {
    if r.Bad? then Bad else Good(units + r.units, r.rest)
  }

  function ScanString(t: string): (r: Scanned)
    ensures r.Good? ==> |r.rest| < |t|
    decreases |t|
  {
    if t == [] then Bad
    else if t[0] == '"' then Good([], t[1..])
    else if t[0] == '\\' then
      if |t| > 1 && SimpleEscape(t[1]) < 0x10000 then Then([SimpleEscape(t[1])], ScanString(t[2..]))
      else if |t| > 1 && t[1] == 'u' && IsHex4(t[2..]) then Then([ParseHex4(t[2..])], ScanString(t[6..]))
      else Bad
    else if t[0] as int < 0x20 then Bad
    else Then(Units(t[0]), ScanString(t[1..]))
  }

  /** A JSON text as the ASCII characters outside strings and the contents of the strings. */
  datatype Token = Raw(c: char) | Str(units: seq<nat>)

  datatype Lexed = Invalid | Tokens(tokens: seq<Token>)

  function Prepend(t: Token, r: Lexed): Lexed {
    if r.Invalid? then Invalid else Tokens([t] + r.tokens)
  }

  function Lex(t: string): Lexed
    decreases |t|
  {
    if t == [] then Tokens([])
    else if t[0] == '"' then
      var r := ScanString(t[1..]);
      if r.Bad? then Invalid else Prepend(Str(r.units), Lex(r.rest))
    else if t[0] as int < 0x80 then Prepend(Raw(t[0]), Lex(t[1..]))
    else Invalid
  }

  // ---- The meaning is preserved ----

  /** ASCII characters at the front stay as they are. */
  lemma {:induction false} EscapeCons(t: string, k: nat)
    requires k <= |t| && forall i :: 0 <= i < k ==> t[i] as int < 0x80
    ensures Escape(t) == t[..k] + Escape(t[k..])
    ensures |Escape(t)| >= k && Escape(t)[k..] == Escape(t[k..]) && forall i :: 0 <= i < k ==> Escape(t)[i] == t[i]
  {
    if k > 0 {
      var u := t[1..];
      EscapeCons(u, k - 1);
      assert u[k - 1..] == t[k..];
      assert Escape(t) == [t[0]] + Escape(u);
      assert t[..k] == [t[0]] + u[..k - 1];
      FrontJoins([t[0]], u[..k - 1], Escape(t[k..]));
    } else {
      assert t[..0] == [] && t[0..] == t;
    }
  }

  lemma FrontJoins(a: string, b: string, c: string)
    ensures a + (b + c) == a + b + c
  {
  }

  lemma ScanEscapedUnit(u: nat, rest: string)
    requires u < 0x10000
    ensures ScanString(EscapeUnit(u) + rest) == Then([u], ScanString(rest))
  {
    var t := EscapeUnit(u) + rest;
    Hex4Back(u, rest);
    assert t[0] == '\\' && t[1] == 'u' && t[2..] == Hex4(u) + rest && t[6..] == rest;
  }

  lemma ThenThen(a: seq<nat>, b: seq<nat>, r: Scanned)
    ensures Then(a, Then(b, r)) == Then(a + b, r)
  {
    if r.Good? { assert a + (b + r.units) == a + b + r.units; }
  }

  /** Scanning an escaped character gives its code units. */
  lemma ScanEscapedChar(c: char, rest: string)
    requires c as int >= 0x80
    ensures ScanString(EscapeChar(c) + rest) == Then(Units(c), ScanString(rest))
  {
    var us := Units(c);
    if |us| == 1 {
      ScanEscapedUnit(us[0], rest);
      assert us == [us[0]];
    } else {
      var tail := EscapeUnit(us[1]) + rest;
      assert EscapeChar(c) + rest == EscapeUnit(us[0]) + tail;
      ScanEscapedUnit(us[0], tail);
      ScanEscapedUnit(us[1], rest);
      ThenThen([us[0]], [us[1]], ScanString(rest));
      assert us == [us[0]] + [us[1]];
    }
  }

  /** Two texts that begin with the same escape sequence scan alike. */
  lemma ScanSameEscape(t: string, e: string, k: nat)
    requires |t| > 1 && t[0] == '\\' && k == (if SimpleEscape(t[1]) < 0x10000 then 2 else 6) && ScanString(t).Good?
    requires k <= |t| && k <= |e| && forall i :: 0 <= i < k ==> e[i] == t[i]
    ensures ScanString(t[k..]).Good?
    ensures ScanString(t) == Then(ScanString(t).units[..1], ScanString(t[k..]))
    ensures ScanString(e) == Then(ScanString(t).units[..1], ScanString(e[k..]))
  {
    if k == 6 {
      assert t[2..][0] == t[2] && t[2..][1] == t[3] && t[2..][2] == t[4] && t[2..][3] == t[5];
      assert e[2..][0] == t[2] && e[2..][1] == t[3] && e[2..][2] == t[4] && e[2..][3] == t[5];
      assert ParseHex4(e[2..]) == ParseHex4(t[2..]);
    }
  }

  lemma {:induction false} ScanPreserved(t: string)
    requires ScanString(t).Good?
    ensures ScanString(Escape(t)) == Good(ScanString(t).units, Escape(ScanString(t).rest))
    decreases |t|
  {
    if t[0] == '"' {
      EscapeCons(t, 1);
    } else if t[0] == '\\' {
      var k := if SimpleEscape(t[1]) < 0x10000 then 2 else 6;
      EscapeSequenceAscii(t, k);
      EscapeCons(t, k);
      ScanSameEscape(t, Escape(t), k);
      ScanPreserved(t[k..]);
    } else if t[0] as int < 0x80 {
      ScanPreserved(t[1..]);
      EscapeCons(t, 1);
    } else {
      ScanPreserved(t[1..]);
      ScanEscapedChar(t[0], Escape(t[1..]));
    }
  }

  lemma EscapeSequenceAscii(t: string, k: nat)
    requires ScanString(t).Good? && t[0] == '\\' && |t| > 1 && k == (if SimpleEscape(t[1]) < 0x10000 then 2 else 6)
    ensures k <= |t| && forall i :: 0 <= i < k ==> t[i] as int < 0x80
  {
    if k == 6 {
      assert t[2..][0] == t[2] && t[2..][1] == t[3] && t[2..][2] == t[4] && t[2..][3] == t[5];
    }
  }

  /** For every JSON text the escaped text has the same structure and every string in it the
      same contents. */
  lemma {:induction false} MeaningPreserved(t: string)
    requires Lex(t).Tokens?
    ensures Lex(Escape(t)) == Lex(t)
    decreases |t|
  {
    if t != [] {
      EscapeCons(t, 1);
      if t[0] == '"' {
        ScanPreserved(t[1..]);
        MeaningPreserved(ScanString(t[1..]).rest);
      } else {
        MeaningPreserved(t[1..]);
      }
    }
  }
}
