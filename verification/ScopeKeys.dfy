/**
  Length-prefixed keys: the scope key of an evidence scope, the parser that the position worker runs on stored keys, and
  the key of a source's quality. A character stands for one UTF-16 code unit.
 */
module ScopeKeys {
  import opened Evidence

  datatype Scope =
    | Pair
    | Whirlpool(whirlpoolAddress: string)
    | Wallet(walletAddress: string)
    | Position(walletAddress: string, whirlpoolAddress: string, positionId: string)

  predicate IsDigit(c: char) {
    '0' <= c <= '9'
  }

  predicate AllDigits(s: string) {
    forall i :: 0 <= i < |s| ==> IsDigit(s[i])
  }

  function Digit(d: nat): (c: char)
    requires d < 10
    ensures IsDigit(c) && c as int == '0' as int + d
  {
    ('0' as int + d) as char
  }

  /** What JavaScript prints for a non-negative integer length. */
  function Decimal(n: nat): string {
    if n < 10 then [Digit(n)] else Decimal(n / 10) + [Digit(n % 10)]
  }

  function Value(s: string): nat
    requires AllDigits(s)
  {
    if s == [] then 0 else 10 * Value(s[..|s| - 1]) + (s[|s| - 1] as int - '0' as int)
  }

  /** The longest run of digits at the front. */
  function DigitPrefix(s: string): (k: nat)
    ensures k <= |s| && AllDigits(s[..k]) && (k < |s| ==> !IsDigit(s[k]))
  {
    if s == [] || !IsDigit(s[0]) then 0 else 1 + DigitPrefix(s[1..])
  }

  /**
    parseInt with radix 10 on text that starts with a digit. White space and signs, which parseInt also skips, cannot
    survive the comparison with the printed number that follows every call.
   */
  function ParseInt(s: string): Option<nat> {
    var k := DigitPrefix(s);
    if k == 0 then None else Some(Value(s[..k]))
  }

  lemma {:induction false} DecimalDigits(n: nat)
    ensures AllDigits(Decimal(n)) && |Decimal(n)| > 0 && Value(Decimal(n)) == n
  {
    if n < 10 {
      assert Decimal(n)[..0] == [];
    } else {
      DecimalDigits(n / 10);
      var front := Decimal(n / 10);
      assert Decimal(n) == front + [Digit(n % 10)] && Decimal(n)[..|front|] == front;
    }
  }

  lemma ParseIntDecimal(n: nat)
    ensures ParseInt(Decimal(n)) == Some(n)
  {
    DecimalDigits(n);
    var s := Decimal(n);
    assert DigitPrefix(s) == |s|;
    assert s[..|s|] == s;
  }

  function LengthPrefix(s: string): string {
    Decimal(|s|) + ":" + s
  }

  function EvidenceScopeKey(scope: Scope): string {
    match scope
    case Pair => "pair"
    case Whirlpool(w) => "whirlpool:" + w
    case Wallet(w) => "wallet:" + w
    case Position(w, p, id) => "position:" + LengthPrefix(w) + LengthPrefix(p) + LengthPrefix(id)
  }

  /** Text up to its first colon is determined. */
  lemma UpToColon(a: string, b: string, s: string, t: string)
    requires ':' !in a && ':' !in b && a + ":" + s == b + ":" + t
    ensures a == b && s == t
  {
    var x, y := a + ":" + s, b + ":" + t;
    assert x[|a|] == ':' && y[|b|] == ':';
    assert forall i :: 0 <= i < |a| ==> x[i] == a[i];
    assert forall i :: 0 <= i < |b| ==> y[i] == b[i];
    assert a == x[..|a|] && b == y[..|a|];
    assert s == x[|a| + 1..] && t == y[|a| + 1..];
  }

  /** Length-prefixed strings form a prefix code. */
  lemma LengthPrefixUnique(v: string, w: string, s: string, t: string)
    requires LengthPrefix(v) + s == LengthPrefix(w) + t
    ensures v == w && s == t
  {
    DecimalDigits(|v|);
    DecimalDigits(|w|);
    assert LengthPrefix(v) + s == Decimal(|v|) + ":" + (v + s);
    assert LengthPrefix(w) + t == Decimal(|w|) + ":" + (w + t);
    UpToColon(Decimal(|v|), Decimal(|w|), v + s, w + t);
    assert v == (v + s)[..|v|] && w == (w + t)[..|v|];
    assert s == (v + s)[|v|..] && t == (w + t)[|v|..];
  }

  lemma PositionBodyUnique(w: string, p: string, id: string, w': string, p': string, id': string, s: string, t: string)
    requires PositionBody(w, p, id) + s == PositionBody(w', p', id') + t
    ensures w == w' && p == p' && id == id' && s == t
  {
    var r, r' := LengthPrefix(id) + s, LengthPrefix(id') + t;
    assert LengthPrefix(w) + (LengthPrefix(p) + r) == PositionBody(w, p, id) + s;
    assert LengthPrefix(w') + (LengthPrefix(p') + r') == PositionBody(w', p', id') + t;
    LengthPrefixUnique(w, w', LengthPrefix(p) + r, LengthPrefix(p') + r');
    LengthPrefixUnique(p, p', r, r');
    LengthPrefixUnique(id, id', s, t);
  }

  lemma DropPrefix(prefix: string, s: string)
    ensures (prefix + s)[|prefix|..] == s
  {
  }

  /** The first two characters of a key tell its kind. */
  lemma KeyHead(scope: Scope)
    ensures var k := EvidenceScopeKey(scope);
            && |k| >= 2
            && k[..2] == (match scope case Pair => "pa" case Whirlpool(_) => "wh" case Wallet(_) => "wa" case Position(_, _, _) => "po")
  {
  }

  function PositionBody(w: string, p: string, id: string): string {
    LengthPrefix(w) + LengthPrefix(p) + LengthPrefix(id)
  }

  lemma PositionKey(w: string, p: string, id: string)
    ensures EvidenceScopeKey(Position(w, p, id)) == "position:" + PositionBody(w, p, id)
  {
    hide LengthPrefix;
    assert "position:" + LengthPrefix(w) + LengthPrefix(p) + LengthPrefix(id) == "position:" + (LengthPrefix(w) + LengthPrefix(p) + LengthPrefix(id));
  }

  /** No two scopes, of whatever kinds, share a key. */
  lemma ScopeKeyInjective(a: Scope, b: Scope)
    requires EvidenceScopeKey(a) == EvidenceScopeKey(b)
    ensures a == b
  {
    KeyHead(a);
    KeyHead(b);
    match a
    case Pair =>
    case Whirlpool(w) =>
      DropPrefix("whirlpool:", w);
      DropPrefix("whirlpool:", b.whirlpoolAddress);
    case Wallet(w) =>
      DropPrefix("wallet:", w);
      DropPrefix("wallet:", b.walletAddress);
    case Position(w, p, id) =>
      PositionKey(w, p, id);
      PositionKey(b.walletAddress, b.whirlpoolAddress, b.positionId);
      DropPrefix("position:", PositionBody(w, p, id));
      DropPrefix("position:", PositionBody(b.walletAddress, b.whirlpoolAddress, b.positionId));
      assert PositionBody(w, p, id) + "" == PositionBody(w, p, id);
      assert PositionBody(b.walletAddress, b.whirlpoolAddress, b.positionId) + "" == PositionBody(b.walletAddress, b.whirlpoolAddress, b.positionId);
      PositionBodyUnique(w, p, id, b.walletAddress, b.whirlpoolAddress, b.positionId, "", "");
  }

  /** indexOf(":", from), with None for -1. */
  function ColonAt(s: string, from: nat): (r: Option<nat>)
    requires from <= |s|
    ensures r.Some? ==> from <= r.value < |s| && s[r.value] == ':' && ':' !in s[from..r.value]
    ensures r.None? ==> ':' !in s[from..]
    decreases |s| - from
  {
    if from == |s| then None
    else if s[from] == ':' then Some(from)
    else ColonAt(s, from + 1)
  }

  /** Reads one length-prefixed part at pos and moves past it; on failure pos stays where it is. */
  method ParsePrefix(rest: string, pos: nat) returns (val: Option<string>, next: nat)
    requires pos <= |rest|
    ensures pos <= next <= |rest|
    ensures val.Some? ==> rest[pos..] == LengthPrefix(val.value) + rest[next..]
    ensures val.None? ==> next == pos && forall v, s :: rest[pos..] != LengthPrefix(v) + s
  {
    val, next := None, pos;
    var colon := ColonAt(rest, pos);
    if colon.None? {
      forall v, s
        ensures rest[pos..] != LengthPrefix(v) + s
      {
        assert (LengthPrefix(v) + s)[|Decimal(|v|)|] == ':';
      }
      return;
    }
    var lenStr := rest[pos..colon.value];
    assert rest[pos..] == lenStr + ":" + rest[colon.value + 1..];
    forall v, s | rest[pos..] == LengthPrefix(v) + s
      ensures lenStr == Decimal(|v|) && rest[colon.value + 1..] == v + s
    {
      DecimalDigits(|v|);
      assert LengthPrefix(v) + s == Decimal(|v|) + ":" + (v + s);
      UpToColon(lenStr, Decimal(|v|), rest[colon.value + 1..], v + s);
    }
    var len := ParseInt(lenStr);
    if len.None? || Decimal(len.value) != lenStr {
      forall v, s
        ensures rest[pos..] != LengthPrefix(v) + s
      {
        ParseIntDecimal(|v|);
      }
      return;
    }
    var start := colon.value + 1;
    if start + len.value > |rest| {
      forall v, s
        ensures rest[pos..] != LengthPrefix(v) + s
      {
        ParseIntDecimal(|v|);
      }
      return;
    }
    val, next := Some(rest[start..start + len.value]), start + len.value;
    assert rest[start..] == val.value + rest[next..];
  }

  /** What the three reads, wherever they stopped, found in the text. */
  ghost predicate Read(rest: string, at: nat, val: Option<string>, next: nat) {
    && at <= next <= |rest|
    && (val.Some? ==> rest[at..] == LengthPrefix(val.value) + rest[next..])
    && (val.None? ==> forall v, s :: rest[at..] != LengthPrefix(v) + s)
  }

  lemma ReadFinds(rest: string, at: nat, val: Option<string>, next: nat, v: string, s: string)
    requires Read(rest, at, val, next) && rest[at..] == LengthPrefix(v) + s
    ensures val == Some(v) && rest[next..] == s
  {
    assert val.Some?;
    LengthPrefixUnique(val.value, v, rest[next..], s);
  }

  /** On the body of a position scope all three reads succeed, with its parts, and nothing is left over. */
  lemma ReadsPosition(rest: string, w: string, p: string, id: string, a: Option<string>, i: nat, b: Option<string>,
      j: nat, c: Option<string>, k: nat)
    requires Read(rest, 0, a, i) && Read(rest, i, b, j) && Read(rest, j, c, k)
    requires rest == PositionBody(w, p, id)
    ensures a == Some(w) && b == Some(p) && c == Some(id) && k == |rest|
  {
    assert rest[0..] == LengthPrefix(w) + (LengthPrefix(p) + LengthPrefix(id));
    ReadFinds(rest, 0, a, i, w, LengthPrefix(p) + LengthPrefix(id));
    ReadFinds(rest, i, b, j, p, LengthPrefix(id));
    assert LengthPrefix(id) == LengthPrefix(id) + "";
    ReadFinds(rest, j, c, k, id, "");
  }

  lemma ReadsBody(rest: string, a: string, i: nat, b: string, j: nat, c: string)
    requires Read(rest, 0, Some(a), i) && Read(rest, i, Some(b), j) && Read(rest, j, Some(c), |rest|)
    ensures rest == PositionBody(a, b, c)
  {
    assert rest == rest[0..] && rest[|rest|..] == "";
    assert LengthPrefix(a) + (LengthPrefix(b) + (LengthPrefix(c) + "")) == PositionBody(a, b, c);
  }

  /** The parser is the exact inverse of the printer on position scopes and rejects everything else. */
  method ParsePositionScopeKey(scopeKey: string) returns (scope: Option<Scope>)
    ensures forall s :: scope == Some(s) <==> s.Position? && EvidenceScopeKey(s) == scopeKey
  {
    var prefix := "position:";
    forall w, p, id
      ensures EvidenceScopeKey(Position(w, p, id)) == prefix + PositionBody(w, p, id)
    {
      PositionKey(w, p, id);
    }
    if !(prefix <= scopeKey) {
      return None;
    }
    var rest := scopeKey[|prefix|..];
    var pos := 0;
    var walletAddress, whirlpoolAddress, positionId;
    walletAddress, pos := ParsePrefix(rest, pos);
    ghost var i := pos;
    whirlpoolAddress, pos := ParsePrefix(rest, pos);
    ghost var j := pos;
    positionId, pos := ParsePrefix(rest, pos);
    forall s: Scope | s.Position? && EvidenceScopeKey(s) == scopeKey
      ensures walletAddress == Some(s.walletAddress) && whirlpoolAddress == Some(s.whirlpoolAddress)
      ensures positionId == Some(s.positionId) && pos == |rest|
    {
      DropPrefix(prefix, PositionBody(s.walletAddress, s.whirlpoolAddress, s.positionId));
      ReadsPosition(rest, s.walletAddress, s.whirlpoolAddress, s.positionId, walletAddress, i, whirlpoolAddress, j, positionId, pos);
    }
    if walletAddress.None? || whirlpoolAddress.None? || positionId.None? || pos != |rest| {
      return None;
    }
    scope := Some(Position(walletAddress.value, whirlpoolAddress.value, positionId.value));
    ReadsBody(rest, walletAddress.value, i, whirlpoolAddress.value, j, positionId.value);
    assert scopeKey == prefix + rest;
  }

  /** The key under which a policy stores a source's quality. */
  function SourceQualityKey(publisher: string, sourceId: string): string {
    LengthPrefix(publisher) + ":" + LengthPrefix(sourceId)
  }

  lemma SourceQualityKeyInjective(p: string, s: string, p': string, s': string)
    requires SourceQualityKey(p, s) == SourceQualityKey(p', s')
    ensures p == p' && s == s'
  {
    assert SourceQualityKey(p, s) == LengthPrefix(p) + (":" + LengthPrefix(s));
    assert SourceQualityKey(p', s') == LengthPrefix(p') + (":" + LengthPrefix(s'));
    LengthPrefixUnique(p, p', ":" + LengthPrefix(s), ":" + LengthPrefix(s'));
    DropPrefix(":", LengthPrefix(s));
    DropPrefix(":", LengthPrefix(s'));
    assert LengthPrefix(s) + "" == LengthPrefix(s) && LengthPrefix(s') + "" == LengthPrefix(s');
    LengthPrefixUnique(s, s', "", "");
  }

  lemma PrintedLengths()
    ensures Decimal(1) == "1" && Decimal(2) == "2" && Decimal(10) == "10"
  {
    assert Decimal(10) == Decimal(1) + "0";
  }

  lemma PrintedParts()
    ensures LengthPrefix("ab") == "2:ab" && LengthPrefix("c") == "1:c" && LengthPrefix("lengthy-12") == "10:lengthy-12"
  {
    PrintedLengths();
    hide Decimal;
    assert |"lengthy-12"| == 10;
  }

  /** Keys as they are printed, for one value of each kind. */
  lemma PrintedKeys()
    ensures EvidenceScopeKey(Pair) == "pair" && EvidenceScopeKey(Whirlpool("ab")) == "whirlpool:ab"
    ensures EvidenceScopeKey(Wallet("ab")) == "wallet:ab"
    ensures EvidenceScopeKey(Position("ab", "c", "lengthy-12")) == "position:2:ab1:c10:lengthy-12"
    ensures SourceQualityKey("ab", "c") == "2:ab:1:c"
  {
    PrintedParts();
    hide Decimal, LengthPrefix;
  }
}
