/** JSON string literals over UTF-16 code units, as JSON.stringify writes them, and why they are uniquely decodable. */
module JsonText {

  newtype Unit = u: int | 0 <= u < 0x1_0000

  type Text = seq<Unit>

  const QUOTE: Unit := 34
  const BACKSLASH: Unit := 92

  predicate IsHigh(u: Unit) {
    0xD800 <= u < 0xDC00
  }

  predicate IsLow(u: Unit) {
    0xDC00 <= u < 0xE000
  }

  predicate IsSurrogate(u: Unit) {
    0xD800 <= u < 0xE000
  }

  /** Lower-case hexadecimal digit. */
  function HexDigit(d: Unit): (c: Unit)
    requires d < 16
  {
    if d < 10 then 48 + d else 87 + d
  }

  function Hex4(u: Unit): Text {
    [HexDigit(u / 4096), HexDigit(u / 256 % 16), HexDigit(u / 16 % 16), HexDigit(u % 16)]
  }

  /** The letter of a two-unit escape, if the unit has one. */
  function ShortEscape(u: Unit): Text {
    if u == QUOTE then [QUOTE]
    else if u == BACKSLASH then [BACKSLASH]
    else if u == 8 then [98]
    else if u == 9 then [116]
    else if u == 10 then [110]
    else if u == 12 then [102]
    else if u == 13 then [114]
    else []
  }

  /** A unit on its own: a short escape, a \u escape for other controls and lone surrogates, or itself. */
  function EscapeUnit(u: Unit): Text {
    if ShortEscape(u) != [] then [BACKSLASH] + ShortEscape(u)
    else if u < 32 || IsSurrogate(u) then [BACKSLASH, 117] + Hex4(u)
    else [u]
  }

  /** Surrogate pairs stay as they are. */
  function Width(s: Text): (k: nat)
    requires s != []
    ensures 1 <= k <= |s|
  {
    if IsHigh(s[0]) && |s| > 1 && IsLow(s[1]) then 2 else 1
  }

  function HeadEscape(s: Text): Text
    requires s != []
  {
    if Width(s) == 2 then s[..2] else EscapeUnit(s[0])
  }

  function Escape(s: Text): Text {
    if s == [] then [] else HeadEscape(s) + Escape(s[Width(s)..])
  }

  function Quote(s: Text): Text {
    [QUOTE] + Escape(s) + [QUOTE]
  }

  /** A lower-case hexadecimal digit of the given value. */
  predicate IsHexDigit(c: Unit, value: int) {
    (48 <= c <= 57 && value == c as int - 48) || (97 <= c <= 102 && value == c as int - 87)
  }

  /** Four such digits, the highest first. */
  ghost predicate IsHex(t: Text, value: int) {
    |t| == 4 && exists a, b, c, d :: IsHexDigit(t[0], a) && IsHexDigit(t[1], b) && IsHexDigit(t[2], c) && IsHexDigit(t[3], d)
                                     && value == a * 4096 + b * 256 + c * 16 + d
  }

  lemma Hex4Says(u: Unit)
    ensures IsHex(Hex4(u), u as int)
  {
    Nibbles(u as int);
    var a, b, c, d := u / 4096, u / 256 % 16, u / 16 % 16, u % 16;
    var t := Hex4(u);
    assert IsHexDigit(t[0], a as int) && IsHexDigit(t[1], b as int) && IsHexDigit(t[2], c as int) && IsHexDigit(t[3], d as int);
  }

  lemma UnitSays(u: Unit)
    ensures u == 8 ==> EscapeUnit(u) == [92, 98]
    ensures u == 9 ==> EscapeUnit(u) == [92, 116]
    ensures u == 10 ==> EscapeUnit(u) == [92, 110]
    ensures u == 12 ==> EscapeUnit(u) == [92, 102]
    ensures u == 13 ==> EscapeUnit(u) == [92, 114]
    ensures u == 34 || u == 92 ==> EscapeUnit(u) == [92, u]
    ensures 0xD800 <= u <= 0xDFFF || (u < 32 && u !in [8, 9, 10, 12, 13]) ==> EscapeUnit(u) == [92, 117] + Hex4(u)
    ensures 32 <= u && u !in [34, 92] && !(0xD800 <= u <= 0xDFFF) ==> EscapeUnit(u) == [u]
  {
    hide Hex4;
  }

  /**
    What is written for the head of a text: backspace, tab, line feed, form feed, return, quote and backslash as two units;
    a high surrogate before a low one together with it, as they are; the other controls, and surrogates without a partner,
    by their number; and everything else as it is.
   */
  lemma EscapeSays(s: Text)
    requires s != []
    ensures var u := s[0];
            var isPair := 0xD800 <= u <= 0xDBFF && |s| > 1 && 0xDC00 <= s[1] <= 0xDFFF;
            && (u == 8 ==> Escape(s) == [92, 98] + Escape(s[1..])) && (u == 9 ==> Escape(s) == [92, 116] + Escape(s[1..]))
            && (u == 10 ==> Escape(s) == [92, 110] + Escape(s[1..])) && (u == 12 ==> Escape(s) == [92, 102] + Escape(s[1..]))
            && (u == 13 ==> Escape(s) == [92, 114] + Escape(s[1..])) && (u == 34 ==> Escape(s) == [92, 34] + Escape(s[1..]))
            && (u == 92 ==> Escape(s) == [92, 92] + Escape(s[1..]))
            && (isPair ==> Escape(s) == s[..2] + Escape(s[2..]))
            && (!isPair && (0xD800 <= u <= 0xDFFF || (u < 32 && u !in [8, 9, 10, 12, 13])) ==>
                  exists t :: IsHex(t, u as int) && Escape(s) == [92, 117] + t + Escape(s[1..]))
            && (32 <= u && u !in [34, 92] && !(0xD800 <= u <= 0xDFFF) ==> Escape(s) == [u] + Escape(s[1..]))
  {
    var rest := Escape(s[Width(s)..]);
    assert Escape(s) == HeadEscape(s) + rest;
    hide Escape, IsHex, Hex4;
    if Width(s) == 1 {
      Hex4Says(s[0]);
      UnitSays(s[0]);
      assert HeadEscape(s) == EscapeUnit(s[0]);
      hide EscapeUnit;
    }
  }

  lemma HexDigitUnique(d: Unit, e: Unit)
    requires d < 16 && e < 16 && HexDigit(d) == HexDigit(e)
    ensures d == e
  {
  }

  lemma Hex4Unique(u: Unit, v: Unit)
    requires Hex4(u) == Hex4(v)
    ensures u == v
  {
    assert Hex4(u)[0] == Hex4(v)[0] && Hex4(u)[1] == Hex4(v)[1] && Hex4(u)[2] == Hex4(v)[2] && Hex4(u)[3] == Hex4(v)[3];
    Nibbles(u as int);
    Nibbles(v as int);
    HexDigitUnique(u / 4096, v / 4096);
    HexDigitUnique(u / 256 % 16, v / 256 % 16);
    HexDigitUnique(u / 16 % 16, v / 16 % 16);
    HexDigitUnique(u % 16, v % 16);
  }

  lemma Nibbles(n: int)
    requires 0 <= n < 0x1_0000
    ensures n == (n / 4096) * 4096 + (n / 256 % 16) * 256 + (n / 16 % 16) * 16 + n % 16
  {
    assert n / 16 / 16 == n / 256 && n / 256 / 16 == n / 4096;
  }

  lemma ShortEscapeUnique(u: Unit, v: Unit)
    requires ShortEscape(u) != [] && ShortEscape(u) == ShortEscape(v)
    ensures u == v
  {
  }

  /** What an escaped head looks like: it never starts with a quote, and a backslash marks an escape. */
  lemma HeadShape(s: Text)
    requires s != []
    ensures var h := HeadEscape(s);
            && |h| >= 1 && h[0] != QUOTE
            && (h[0] == BACKSLASH <==> Width(s) == 1 && (ShortEscape(s[0]) != [] || s[0] < 32 || IsSurrogate(s[0])))
            && (h[0] != BACKSLASH ==> h == s[..Width(s)])
  {
  }

  /** Two escaped heads followed by anything: equal texts have equal heads and equal continuations. */
  lemma HeadUnique(a: Text, b: Text, x: Text, y: Text)
    requires a != [] && b != [] && HeadEscape(a) + x == HeadEscape(b) + y
    ensures Width(a) == Width(b) && a[..Width(a)] == b[..Width(b)] && x == y
  {
    HeadShape(a);
    HeadShape(b);
    var h, k := HeadEscape(a), HeadEscape(b);
    assert (h + x)[0] == h[0] && (k + y)[0] == k[0];
    if h[0] == BACKSLASH {
      EscapesUnique(a[0], b[0], x, y);
    } else {
      RawHeadsUnique(a, b, x, y);
    }
  }

  lemma RawHeadsUnique(a: Text, b: Text, x: Text, y: Text)
    requires a != [] && b != [] && a[..Width(a)] + x == b[..Width(b)] + y
    requires Width(a) == 1 ==> !IsSurrogate(a[0])
    requires Width(b) == 1 ==> !IsSurrogate(b[0])
    ensures Width(a) == Width(b) && a[..Width(a)] == b[..Width(b)] && x == y
  {
    var p, q := a[..Width(a)], b[..Width(b)];
    assert (p + x)[0] == a[0] && (q + y)[0] == b[0];
    assert |p| == |q|;
    assert (p + x)[..|p|] == p && (q + y)[..|q|] == q && (p + x)[|p|..] == x && (q + y)[|q|..] == y;
  }

  lemma EscapesUnique(u: Unit, v: Unit, x: Text, y: Text)
    requires EscapeUnit(u) + x == EscapeUnit(v) + y
    requires (ShortEscape(u) != [] || u < 32 || IsSurrogate(u)) && (ShortEscape(v) != [] || v < 32 || IsSurrogate(v))
    ensures u == v && x == y
  {
    var h, k := EscapeUnit(u), EscapeUnit(v);
    assert (h + x)[1] == h[1] && (k + y)[1] == k[1];
    assert (h[1] == 117) <==> ShortEscape(u) == [];
    assert (k[1] == 117) <==> ShortEscape(v) == [];
    assert |h| == |k|;
    assert (h + x)[..|h|] == h && (k + y)[..|k|] == k && (h + x)[|h|..] == x && (k + y)[|k|..] == y;
    if ShortEscape(u) != [] {
      assert h[1..] == ShortEscape(u) && k[1..] == ShortEscape(v);
      ShortEscapeUnique(u, v);
    } else {
      assert h[2..] == Hex4(u) && k[2..] == Hex4(v);
      Hex4Unique(u, v);
    }
  }

  /** An escaped string, its closing quote, and what follows. */
  function Closed(s: Text, x: Text): Text {
    Escape(s) + [QUOTE] + x
  }

  lemma Regroup(h: Text, e: Text, q: Text, x: Text)
    ensures h + e + q + x == h + (e + q + x)
    ensures h != [] ==> (h + (e + q + x))[0] == h[0]
  {
  }

  lemma ClosedEmpty(x: Text)
    ensures Closed([], x) == [QUOTE] + x && Closed([], x)[0] == QUOTE && Closed([], x)[1..] == x
  {
    assert [] + [QUOTE] == [QUOTE];
    assert ([QUOTE] + x)[1..] == x;
  }

  lemma ClosedStep(s: Text, x: Text)
    ensures s == [] ==> Closed(s, x) == [QUOTE] + x && Closed(s, x)[0] == QUOTE && Closed(s, x)[1..] == x
    ensures s != [] ==> Closed(s, x) == HeadEscape(s) + Closed(s[Width(s)..], x) && Closed(s, x) != [] && Closed(s, x)[0] != QUOTE
  {
    if s == [] {
      ClosedEmpty(x);
    } else {
      HeadShape(s);
      hide HeadEscape, Width;
      Regroup(HeadEscape(s), Escape(s[Width(s)..]), [QUOTE], x);
    }
  }

  lemma {:induction false} EscapeUnique(a: Text, b: Text, x: Text, y: Text)
    requires Closed(a, x) == Closed(b, y)
    ensures a == b && x == y
    decreases |a|
  {
    hide Closed, HeadEscape;
    ClosedStep(a, x);
    ClosedStep(b, y);
    if a != [] && b != [] {
      HeadUnique(a, b, Closed(a[Width(a)..], x), Closed(b[Width(b)..], y));
      EscapeUnique(a[Width(a)..], b[Width(b)..], x, y);
      assert a == a[..Width(a)] + a[Width(a)..] && b == b[..Width(b)] + b[Width(b)..];
    }
  }

  /** String literals form a prefix code. */
  lemma QuoteUnique(a: Text, b: Text, x: Text, y: Text)
    requires Quote(a) + x == Quote(b) + y
    ensures a == b && x == y
  {
    QuoteCloses(a, x);
    QuoteCloses(b, y);
    EscapeUnique(a, b, x, y);
  }

  lemma QuoteCloses(s: Text, x: Text)
    ensures Quote(s) + x == [QUOTE] + Closed(s, x) && (Quote(s) + x)[1..] == Closed(s, x)
  {
    hide Escape;
  }
}
