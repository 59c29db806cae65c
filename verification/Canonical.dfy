/**
  Canonical JSON. A finite double is represented by its shortest decimal text, which determines it; keys are compared by
  UTF-16 code units. Two values have the same text exactly when they are equal up to key order and the sign of zero.
 */
module Canonical {
  import opened Evidence
  import opened Sorting
  import opened JsonText

  datatype Number = NonFinite | NegativeZero | Finite(text: Text)

  /** Arrays have no holes; Other stands for every unsupported value. */
  datatype Json = Null | Bool(b: bool) | Num(n: Number) | Str(s: Text) | Arr(items: seq<Json>) | Obj(fields: seq<Field>) | Other

  datatype Field = Field(key: Text, value: Json)

  const COMMA: Unit := 44
  const COLON: Unit := 58
  const OPEN_ARRAY: Unit := 91
  const CLOSE_ARRAY: Unit := 93
  const OPEN_OBJECT: Unit := 123
  const CLOSE_OBJECT: Unit := 125

  /** Digits, minus, plus, dot and e. */
  predicate NumberUnit(u: Unit) {
    48 <= u <= 57 || u == 45 || u == 43 || u == 46 || u == 101
  }

  /** In characters. */
  lemma NumberUnitsAre(u: Unit)
    ensures NumberUnit(u) <==> u in Ascii("0123456789-+.e")
  {
    var all := Ascii("0123456789-+.e");
    assert all == [48, 49, 50, 51, 52, 53, 54, 55, 56, 57, 45, 43, 46, 101];
  }

  predicate NumberText(t: Text) {
    t != [] && forall i :: 0 <= i < |t| ==> NumberUnit(t[i])
  }

  function Keys(fields: seq<Field>): (keys: seq<Text>)
    ensures |keys| == |fields| && forall i :: 0 <= i < |fields| ==> keys[i] == fields[i].key
  {
    seq(|fields|, i requires 0 <= i < |fields| => fields[i].key)
  }

  /** Numbers are written in number units, and an object has each key once. */
  ghost predicate WellFormed(v: Json) {
    match v
    case Num(Finite(t)) => NumberText(t)
    case Arr(items) => forall i :: 0 <= i < |items| ==> WellFormed(items[i])
    case Obj(fields) => NoDuplicates(Keys(fields)) && forall i :: 0 <= i < |fields| ==> WellFormed(fields[i].value)
    case _ => true
  }

  /** No non-finite number and nothing but plain JSON values anywhere inside. */
  predicate Supported(v: Json) {
    match v
    case Num(n) => n != NonFinite
    case Arr(items) => forall i :: 0 <= i < |items| ==> Supported(items[i])
    case Obj(fields) => forall i :: 0 <= i < |fields| ==> Supported(fields[i].value)
    case Other => false
    case _ => true
  }

  predicate UnitLess(a: Unit, b: Unit) {
    a < b
  }

  predicate KeyBefore(a: Text, b: Text) {
    LexLess(UnitLess, a, b)
  }

  function SortKeys(keys: seq<Text>): seq<Text> {
    SortBy(KeyBefore, keys)
  }

  lemma KeyOrder()
    ensures StrictTotal(KeyBefore)
  {
    LexStrictTotal(UnitLess);
    var lex := (a: Text, b: Text) => LexLess(UnitLess, a, b);
    assert forall a, b :: KeyBefore(a, b) == lex(a, b);
  }

  lemma SortedKeys(keys: seq<Text>)
    ensures multiset(SortKeys(keys)) == multiset(keys) && |SortKeys(keys)| == |keys|
    ensures forall k :: k in SortKeys(keys) <==> k in keys
  {
    KeyOrder();
    SortSorts(KeyBefore, keys);
    assert |multiset(keys)| == |multiset(SortKeys(keys))|;
    forall k
      ensures k in SortKeys(keys) <==> k in keys
    {
      assert k in multiset(keys) <==> k in multiset(SortKeys(keys));
    }
  }

  lemma KeysAscend(a: Text, b: Text)
    ensures KeyBefore(a, b) <==> exists n: nat :: n <= |a| && n < |b| && a[..n] == b[..n] && (n == |a| || a[n] < b[n])
  {
    LexDecided(UnitLess, a, b);
    if n: nat :| n <= |a| && n < |b| && a[..n] == b[..n] && (n == |a| || a[n] < b[n]) {
      assert LexAt(UnitLess, a, b, n);
    }
  }

  /** The keys of an object are printed in ascending order of their code units, a proper prefix first. */
  lemma PrintedKeysAscend(fields: seq<Field>, i: nat, j: nat)
    requires NoDuplicates(Keys(fields)) && i < j < |fields| == |SortKeys(Keys(fields))|
    ensures var a, b := SortKeys(Keys(fields))[i], SortKeys(Keys(fields))[j];
            exists n: nat :: n <= |a| && n < |b| && a[..n] == b[..n] && (n == |a| || a[n] < b[n])
  {
    KeyOrder();
    var key := (k: Text) => k;
    SortStrictly(KeyBefore, KeyBefore, key, Keys(fields));
    KeysAscend(SortKeys(Keys(fields))[i], SortKeys(Keys(fields))[j]);
  }

  /** The place of a key. */
  function Find(fields: seq<Field>, key: Text): (i: nat)
    requires key in Keys(fields)
    ensures i < |fields| && fields[i].key == key
  {
    if fields[0].key == key then 0
    else
      assert key in Keys(fields[1..]) by {
        var j :| 0 <= j < |fields| && Keys(fields)[j] == key;
        assert Keys(fields[1..])[j - 1] == key;
      }
      1 + Find(fields[1..], key)
  }

  function Ascii(s: string): Text
    requires forall i :: 0 <= i < |s| ==> s[i] as int < 128
  {
    seq(|s|, i requires 0 <= i < |s| => s[i] as int as Unit)
  }

  /** Array.prototype.join with commas. */
  function Join(parts: seq<Text>): Text {
    if parts == [] then [] else if |parts| == 1 then parts[0] else parts[0] + [COMMA] + Join(parts[1..])
  }

  function FormatNumber(n: Number): Text {
    match n
    case Finite(t) => t
    case NegativeZero => [48]
    case NonFinite => []
  }

  function ItemTexts(items: seq<Json>): (texts: seq<Text>)
    decreases items, 1
    ensures |texts| == |items| && forall i :: 0 <= i < |items| ==> texts[i] == Print(items[i])
  {
    seq(|items|, i requires 0 <= i < |items| => Print(items[i]))
  }

  function EntryTexts(fields: seq<Field>, keys: seq<Text>): (texts: seq<Text>)
    requires forall k :: k in keys ==> k in Keys(fields)
    decreases fields, 1
    ensures |texts| == |keys| && forall i :: 0 <= i < |keys| ==>
        texts[i] == Quote(keys[i]) + [COLON] + Print(fields[Find(fields, keys[i])].value)
  {
    seq(|keys|, i requires 0 <= i < |keys| => Quote(keys[i]) + [COLON] + Print(fields[Find(fields, keys[i])].value))
  }

  /** The text of a supported value. */
  function Print(v: Json): Text
    decreases v, 0
  {
    match v
    case Null => Ascii("null")
    case Bool(b) => if b then Ascii("true") else Ascii("false")
    case Num(n) => FormatNumber(n)
    case Str(s) => Quote(s)
    case Arr(items) => [OPEN_ARRAY] + Join(ItemTexts(items)) + [CLOSE_ARRAY]
    case Obj(fields) =>
      SortedKeys(Keys(fields));
      [OPEN_OBJECT] + Join(EntryTexts(fields, SortKeys(Keys(fields)))) + [CLOSE_OBJECT]
    case Other => []
  }

  /** toCanonicalJson; None stands for the TypeError. */
  function ToCanonicalJson(v: Json): Option<Text> {
    if Supported(v) then Some(Print(v)) else None
  }

  // ---------- Equality that canonical text preserves ----------

  function Zeroed(n: Number): Number {
    if n == NegativeZero then Finite([48]) else n
  }

  /** Equal up to the order of keys and the sign of zero. */
  ghost predicate Same(v: Json, w: Json) {
    match (v, w)
    case (Num(m), Num(n)) => Zeroed(m) == Zeroed(n)
    case (Arr(p), Arr(q)) => |p| == |q| && forall i :: 0 <= i < |p| ==> Same(p[i], q[i])
    case (Obj(f), Obj(g)) =>
      && (forall k :: k in Keys(f) <==> k in Keys(g))
      && forall i, j :: 0 <= i < |f| && 0 <= j < |g| && f[i].key == g[j].key ==> Same(f[i].value, g[j].value)
    case (_, _) => v == w
  }

  // ---------- Prefix codes ----------

  /** What may follow a value. */
  predicate Stops(x: Text) {
    x == [] || x[0] == COMMA || x[0] == CLOSE_ARRAY || x[0] == CLOSE_OBJECT
  }

  /** Two texts, each followed by something that stops it, can only coincide as wholes. */
  ghost predicate Separate(p: Text, q: Text) {
    forall x, y :: Stops(x) && Stops(y) && p + x == q + y ==> p == q && x == y
  }

  predicate Starts(p: Text) {
    p != [] && !Stops(p)
  }

  lemma SameLength(p: Text, q: Text, x: Text, y: Text)
    requires p + x == q + y && |p| == |q|
    ensures p == q && x == y
  {
    assert p == (p + x)[..|p|] && q == (q + y)[..|q|] && x == (p + x)[|p|..] && y == (q + y)[|q|..];
  }

  lemma ShorterDiffers(p: Text, q: Text, x: Text, y: Text)
    requires NumberText(q) && Stops(x) && |p| < |q|
    ensures p + x != q + y
  {
    assert (q + y)[|p|] == q[|p|] && NumberUnit(q[|p|]);
    if x != [] {
      assert (p + x)[|p|] == x[0] && !NumberUnit(x[0]);
    }
  }

  lemma NumbersSeparate(p: Text, q: Text)
    requires NumberText(p) && NumberText(q)
    ensures Separate(p, q)
  {
    forall x, y | Stops(x) && Stops(y) && p + x == q + y
      ensures p == q && x == y
    {
      if |p| < |q| {
        ShorterDiffers(p, q, x, y);
      } else if |q| < |p| {
        ShorterDiffers(q, p, y, x);
      } else {
        SameLength(p, q, x, y);
      }
    }
  }

  lemma QuotesSeparate(s: Text, t: Text)
    ensures Separate(Quote(s), Quote(t))
  {
    forall x, y | Stops(x) && Stops(y) && Quote(s) + x == Quote(t) + y
      ensures Quote(s) == Quote(t) && x == y
    {
      QuoteUnique(s, t, x, y);
    }
  }

  lemma EntriesSeparate(k: Text, p: Text, l: Text, q: Text)
    requires Separate(p, q)
    ensures Separate(Quote(k) + [COLON] + p, Quote(l) + [COLON] + q)
    ensures Quote(k) + [COLON] + p == Quote(l) + [COLON] + q ==> k == l && p == q
  {
    hide Quote;
    forall x, y | Stops(x) && Stops(y) && Quote(k) + [COLON] + p + x == Quote(l) + [COLON] + q + y
      ensures Quote(k) + [COLON] + p == Quote(l) + [COLON] + q && x == y && k == l && p == q
    {
      EntryUnique(k, p, l, q, x, y);
    }
    if Quote(k) + [COLON] + p == Quote(l) + [COLON] + q {
      assert Quote(k) + [COLON] + p + [] == Quote(l) + [COLON] + q + [];
    }
  }

  lemma EntryUnique(k: Text, p: Text, l: Text, q: Text, x: Text, y: Text)
    requires Separate(p, q) && Stops(x) && Stops(y) && Quote(k) + [COLON] + p + x == Quote(l) + [COLON] + q + y
    ensures k == l && p == q && x == y
  {
    hide Quote;
    Regroup(Quote(k), [COLON], p, x);
    Regroup(Quote(l), [COLON], q, y);
    QuoteUnique(k, l, [COLON] + p + x, [COLON] + q + y);
    assert ([COLON] + p + x)[1..] == p + x && ([COLON] + q + y)[1..] == q + y;
  }

  lemma Associate(a: Text, b: Text, c: Text)
    ensures a + b + c == a + (b + c)
  {
  }

  lemma AssociateAll(a: Text, b: Text, c: Text, d: Text, e: Text)
    ensures a + b + c + d + e == a + (b + (c + d + e))
  {
    Associate(a + b, c, d);
    Associate(a + b, c + d, e);
    Associate(a, b, c + d + e);
  }

  /** The parts of a list, its closing bracket, and what follows. */
  function Listed(parts: seq<Text>, close: Unit, x: Text): Text
    decreases parts, 1
  {
    if parts == [] then [close] + x else parts[0] + Rest(parts, close, x)
  }

  function Rest(parts: seq<Text>, close: Unit, x: Text): Text
    requires parts != []
    decreases parts, 0
  {
    if |parts| == 1 then [close] + x else [COMMA] + Listed(parts[1..], close, x)
  }

  lemma {:induction false} JoinListed(parts: seq<Text>, close: Unit, x: Text)
    ensures Join(parts) + [close] + x == Listed(parts, close, x)
  {
    if parts == [] {
      assert Join(parts) + [close] == [close];
    } else if |parts| == 1 {
      Associate(parts[0], [close], x);
    } else {
      var first, j := parts[0], Join(parts[1..]);
      assert Join(parts) == first + [COMMA] + j;
      JoinListed(parts[1..], close, x);
      hide Join, Listed;
      AssociateAll(first, [COMMA], j, [close], x);
      assert Listed(parts, close, x) == first + ([COMMA] + (j + [close] + x)) by {
        ListedSplit(parts, close, x);
      }
    }
  }

  lemma ListedSplit(parts: seq<Text>, close: Unit, x: Text)
    requires |parts| > 1
    ensures Listed(parts, close, x) == parts[0] + ([COMMA] + Listed(parts[1..], close, x))
  {
  }

  /** A closed, comma-separated list determines its parts. */
  lemma {:induction false} ListUnique(ps: seq<Text>, qs: seq<Text>, close: Unit, x: Text, y: Text)
    requires close == CLOSE_ARRAY || close == CLOSE_OBJECT
    requires Listed(ps, close, x) == Listed(qs, close, y)
    requires forall i :: 0 <= i < |ps| ==> Starts(ps[i])
    requires forall i :: 0 <= i < |qs| ==> Starts(qs[i])
    requires forall i :: 0 <= i < |ps| && i < |qs| ==> Separate(ps[i], qs[i])
    ensures ps == qs && x == y
    decreases |ps|
  {
    hide Separate, Starts, Listed, Rest;
    if ps == [] && qs == [] {
      BothClosed(close, x, y);
    } else if ps == [] {
      EmptyNotListed(qs, close, x, y);
    } else if qs == [] {
      EmptyNotListed(ps, close, y, x);
    } else {
      RestStops(ps, close, x);
      RestStops(qs, close, y);
      SplitFirst(ps[0], qs[0], Rest(ps, close, x), Rest(qs, close, y));
      RestUnique(ps, qs, close, x, y);
      if |ps| > 1 {
        ListUnique(ps[1..], qs[1..], close, x, y);
        assert ps == [ps[0]] + ps[1..] && qs == [qs[0]] + qs[1..];
      }
    }
  }

  lemma BothClosed(close: Unit, x: Text, y: Text)
    requires Listed([], close, x) == Listed([], close, y)
    ensures x == y
  {
    SameLength([close], [close], x, y);
  }

  lemma RestStops(parts: seq<Text>, close: Unit, x: Text)
    requires parts != [] && (close == CLOSE_ARRAY || close == CLOSE_OBJECT)
    ensures Stops(Rest(parts, close, x)) && Listed(parts, close, x) == parts[0] + Rest(parts, close, x)
  {
  }

  lemma SplitFirst(p: Text, q: Text, x: Text, y: Text)
    requires Separate(p, q) && p + x == q + y && Stops(x) && Stops(y)
    ensures p == q && x == y
  {
  }

  lemma EmptyNotListed(qs: seq<Text>, close: Unit, x: Text, y: Text)
    requires close == CLOSE_ARRAY || close == CLOSE_OBJECT
    requires qs != [] && Starts(qs[0])
    ensures Listed([], close, x) != Listed(qs, close, y)
  {
    assert Listed([], close, x)[0] == close;
    assert Listed(qs, close, y)[0] == qs[0][0];
  }

  lemma RestUnique(ps: seq<Text>, qs: seq<Text>, close: Unit, x: Text, y: Text)
    requires close == CLOSE_ARRAY || close == CLOSE_OBJECT
    requires ps != [] && qs != [] && Rest(ps, close, x) == Rest(qs, close, y)
    ensures |ps| == 1 <==> |qs| == 1
    ensures |ps| == 1 ==> x == y
    ensures |ps| > 1 ==> Listed(ps[1..], close, x) == Listed(qs[1..], close, y)
  {
    hide Listed;
    assert Rest(ps, close, x)[0] == if |ps| == 1 then close else COMMA;
    assert Rest(qs, close, y)[0] == if |qs| == 1 then close else COMMA;
    assert Rest(ps, close, x)[1..] == Rest(qs, close, y)[1..];
  }

  // ---------- Values ----------

  /** The first unit tells the kind of a value. */
  predicate Opens(v: Json, u: Unit) {
    match v
    case Null => u == 110
    case Bool(b) => u == if b then 116 else 102
    case Num(_) => NumberUnit(u)
    case Str(_) => u == QUOTE
    case Arr(_) => u == OPEN_ARRAY
    case Obj(_) => u == OPEN_OBJECT
    case Other => false
  }

  lemma PrintOpens(v: Json)
    requires Supported(v) && WellFormed(v)
    ensures Starts(Print(v)) && Opens(v, Print(v)[0])
  {
    hide SortKeys, Escape, Join;
  }

  lemma OpensSameKind(v: Json, w: Json, u: Unit)
    requires Opens(v, u) && Opens(w, u)
    ensures v.Null? == w.Null? && v.Bool? == w.Bool? && v.Num? == w.Num? && v.Str? == w.Str? && v.Arr? == w.Arr?
    ensures v.Obj? == w.Obj?
    ensures v.Bool? ==> v == w
  {
  }

  lemma EntryStarts(k: Text, p: Text)
    ensures Starts(Quote(k) + [COLON] + p)
  {
    hide Escape;
    assert (Quote(k) + [COLON] + p)[0] == QUOTE;
  }

  /** The parts of an object's text, in key order. */
  function Parts(fields: seq<Field>): (parts: seq<Text>)
    ensures |parts| == |fields|
  {
    SortedKeys(Keys(fields));
    EntryTexts(fields, SortKeys(Keys(fields)))
  }

  lemma Bracketed(ps: seq<Text>, open: Unit, close: Unit, x: Text)
    ensures [open] + Join(ps) + [close] + x == [open] + Listed(ps, close, x)
  {
    JoinListed(ps, close, x);
    hide Join, Listed;
    Associate([open], Join(ps), [close]);
    Associate([open], Join(ps) + [close], x);
  }

  lemma BracketUnique(ps: seq<Text>, qs: seq<Text>, open: Unit, close: Unit, x: Text, y: Text)
    requires close == CLOSE_ARRAY || close == CLOSE_OBJECT
    requires forall i :: 0 <= i < |ps| ==> Starts(ps[i])
    requires forall i :: 0 <= i < |qs| ==> Starts(qs[i])
    requires forall i :: 0 <= i < |ps| && i < |qs| ==> Separate(ps[i], qs[i])
    requires [open] + Join(ps) + [close] + x == [open] + Join(qs) + [close] + y
    ensures ps == qs && x == y
  {
    hide Join, Starts, Listed, Separate;
    Bracketed(ps, open, close, x);
    Bracketed(qs, open, close, y);
    SameLength([open], [open], Listed(ps, close, x), Listed(qs, close, y));
    ListUnique(ps, qs, close, x, y);
  }

  lemma BracketedSeparate(ps: seq<Text>, qs: seq<Text>, open: Unit, close: Unit)
    requires close == CLOSE_ARRAY || close == CLOSE_OBJECT
    requires forall i :: 0 <= i < |ps| ==> Starts(ps[i])
    requires forall i :: 0 <= i < |qs| ==> Starts(qs[i])
    requires forall i :: 0 <= i < |ps| && i < |qs| ==> Separate(ps[i], qs[i])
    ensures Separate([open] + Join(ps) + [close], [open] + Join(qs) + [close])
    ensures [open] + Join(ps) + [close] == [open] + Join(qs) + [close] ==> ps == qs
  {
    hide Join, Starts;
    var p, q := [open] + Join(ps) + [close], [open] + Join(qs) + [close];
    forall x, y | p + x == q + y
      ensures p == q && x == y && ps == qs
    {
      BracketUnique(ps, qs, open, close, x, y);
    }
    if p == q {
      assert p + [] == q + [];
    }
  }

  /** The texts of any two values are separate: canonical text is uniquely decodable. */
  lemma {:induction false} PrintsSeparate(v: Json, w: Json)
    requires Supported(v) && WellFormed(v) && Supported(w) && WellFormed(w)
    ensures Separate(Print(v), Print(w))
    decreases v
  {
    hide Print, Separate;
    PrintOpens(v);
    PrintOpens(w);
    if !SameKind(v, w) {
      DifferentKindsSeparate(v, w);
    } else {
      match v
      case Arr(p) => ArraysSeparate(v, w);
      case Obj(f) => ObjectsSeparate(v, w);
      case Num(_) => NumbersApart(v, w);
      case Str(s) => StringsApart(v, w);
      case _ => EqualSeparate(v, w);
    }
  }

  predicate SameKind(v: Json, w: Json) {
    v.Null? == w.Null? && v.Bool? == w.Bool? && v.Num? == w.Num? && v.Str? == w.Str? && v.Arr? == w.Arr? && v.Obj? == w.Obj? && (v.Bool? ==> v == w)
  }

  lemma DifferentKindsSeparate(v: Json, w: Json)
    requires Starts(Print(v)) && Opens(v, Print(v)[0]) && Starts(Print(w)) && Opens(w, Print(w)[0]) && !SameKind(v, w)
    ensures Separate(Print(v), Print(w))
  {
    hide Print;
    forall x, y
      ensures Print(v) + x != Print(w) + y
    {
      assert (Print(v) + x)[0] == Print(v)[0] && (Print(w) + y)[0] == Print(w)[0];
      if Print(v)[0] == Print(w)[0] {
        OpensSameKind(v, w, Print(v)[0]);
      }
    }
  }

  lemma EqualSeparate(v: Json, w: Json)
    requires v == w
    ensures Separate(Print(v), Print(w))
  {
    hide Print;
    forall x, y | Print(v) + x == Print(w) + y
      ensures x == y
    {
      SameLength(Print(v), Print(w), x, y);
    }
  }

  lemma NumbersApart(v: Json, w: Json)
    requires v.Num? && w.Num? && Supported(v) && WellFormed(v) && Supported(w) && WellFormed(w)
    ensures Separate(Print(v), Print(w))
  {
    NumbersSeparate(Print(v), Print(w));
  }

  lemma StringsApart(v: Json, w: Json)
    requires v.Str? && w.Str?
    ensures Separate(Print(v), Print(w))
  {
    QuotesSeparate(v.s, w.s);
  }

  lemma {:induction false} ArraysSeparate(v: Json, w: Json)
    requires v.Arr? && w.Arr? && Supported(v) && WellFormed(v) && Supported(w) && WellFormed(w)
    ensures Separate(Print(v), Print(w))
    ensures Print(v) == Print(w) ==> ItemTexts(v.items) == ItemTexts(w.items)
    decreases v, 0
  {
    var ps, qs := ItemTexts(v.items), ItemTexts(w.items);
    ArrayText(v);
    ArrayText(w);
    forall i | 0 <= i < |ps|
      ensures Starts(ps[i])
    {
      PrintOpens(v.items[i]);
    }
    forall i | 0 <= i < |qs|
      ensures Starts(qs[i])
    {
      PrintOpens(w.items[i]);
    }
    hide Print, Separate, Starts;
    forall i | 0 <= i < |ps| && i < |qs|
      ensures Separate(ps[i], qs[i])
    {
      PrintsSeparate(v.items[i], w.items[i]);
    }
    BracketedSeparate(ps, qs, OPEN_ARRAY, CLOSE_ARRAY);
  }

  lemma ArrayText(v: Json)
    requires v.Arr?
    ensures Print(v) == [OPEN_ARRAY] + Join(ItemTexts(v.items)) + [CLOSE_ARRAY]
  {
  }

  lemma ObjectText(v: Json)
    requires v.Obj?
    ensures Print(v) == [OPEN_OBJECT] + Join(Parts(v.fields)) + [CLOSE_OBJECT]
  {
    hide Join, SortKeys;
  }

  /** The i-th key in order, and the value it belongs to. */
  function KeyAt(fields: seq<Field>, i: nat): (k: Text)
    requires i < |fields|
    ensures k in Keys(fields)
  {
    SortedKeys(Keys(fields));
    SortKeys(Keys(fields))[i]
  }

  function ValueAt(fields: seq<Field>, i: nat): (v: Json)
    requires i < |fields|
    ensures exists j :: 0 <= j < |fields| && v == fields[j].value && fields[j].key == KeyAt(fields, i)
    ensures v < Obj(fields)
  {
    hide KeyAt;
    var j := Find(fields, KeyAt(fields, i));
    assert fields[j].key == KeyAt(fields, i);
    fields[j].value
  }

  lemma PartAt(fields: seq<Field>, i: nat)
    requires i < |fields|
    ensures Parts(fields)[i] == Quote(KeyAt(fields, i)) + [COLON] + Print(ValueAt(fields, i))
  {
    hide Print, Quote;
  }

  lemma ValueSupported(v: Json, i: nat)
    requires v.Obj? && Supported(v) && WellFormed(v) && i < |v.fields|
    ensures Supported(ValueAt(v.fields, i)) && WellFormed(ValueAt(v.fields, i))
  {
  }

  lemma {:induction false} ObjectsSeparate(v: Json, w: Json)
    requires v.Obj? && w.Obj? && Supported(v) && WellFormed(v) && Supported(w) && WellFormed(w)
    ensures Separate(Print(v), Print(w))
    ensures Print(v) == Print(w) ==> Parts(v.fields) == Parts(w.fields)
    decreases v, 0
  {
    var ps, qs := Parts(v.fields), Parts(w.fields);
    ObjectText(v);
    ObjectText(w);
    hide Print, Separate, Starts, Parts, Quote, KeyAt, ValueAt;
    forall i | 0 <= i < |ps|
      ensures Starts(ps[i])
    {
      PartAt(v.fields, i);
      EntryStarts(KeyAt(v.fields, i), Print(ValueAt(v.fields, i)));
    }
    forall i | 0 <= i < |qs|
      ensures Starts(qs[i])
    {
      PartAt(w.fields, i);
      EntryStarts(KeyAt(w.fields, i), Print(ValueAt(w.fields, i)));
    }
    forall i | 0 <= i < |ps| && i < |qs|
      ensures Separate(ps[i], qs[i])
    {
      ValueSupported(v, i);
      ValueSupported(w, i);
      PrintsSeparate(ValueAt(v.fields, i), ValueAt(w.fields, i));
      PartAt(v.fields, i);
      PartAt(w.fields, i);
      EntriesSeparate(KeyAt(v.fields, i), Print(ValueAt(v.fields, i)), KeyAt(w.fields, i), Print(ValueAt(w.fields, i)));
    }
    BracketedSeparate(ps, qs, OPEN_OBJECT, CLOSE_OBJECT);
  }

  // ---------- Equal texts, equal values ----------

  lemma KeyAtDistinct(fields: seq<Field>, i: nat, j: nat)
    requires NoDuplicates(Keys(fields)) && i < j < |fields|
    ensures KeyAt(fields, i) != KeyAt(fields, j)
  {
    KeyOrder();
    var key := (k: Text) => k;
    SortDistinct(KeyBefore, key, Keys(fields));
    assert key(SortKeys(Keys(fields))[i]) != key(SortKeys(Keys(fields))[j]);
  }

  /** Every field is found at its key's place. */
  lemma FieldAt(fields: seq<Field>, j: nat) returns (i: nat)
    requires NoDuplicates(Keys(fields)) && j < |fields|
    ensures i < |fields| && KeyAt(fields, i) == fields[j].key && ValueAt(fields, i) == fields[j].value
  {
    SortedKeys(Keys(fields));
    assert Keys(fields)[j] in Keys(fields);
    i :| 0 <= i < |fields| && SortKeys(Keys(fields))[i] == fields[j].key;
    var m := Find(fields, KeyAt(fields, i));
    assert Keys(fields)[m] == Keys(fields)[j];
  }

  lemma EqualKeysEverywhere(f: seq<Field>, g: seq<Field>)
    requires |f| == |g| && forall i :: 0 <= i < |f| ==> KeyAt(f, i) == KeyAt(g, i)
    ensures forall k :: k in Keys(f) <==> k in Keys(g)
  {
    SortedKeys(Keys(f));
    SortedKeys(Keys(g));
    assert forall i :: 0 <= i < |f| ==> SortKeys(Keys(f))[i] == KeyAt(f, i) && SortKeys(Keys(g))[i] == KeyAt(g, i);
    assert SortKeys(Keys(f)) == SortKeys(Keys(g));
  }

  lemma PartsAgree(f: seq<Field>, g: seq<Field>, v: Json, w: Json, i: nat)
    requires v == Obj(f) && w == Obj(g) && Supported(v) && WellFormed(v) && Supported(w) && WellFormed(w)
    requires |f| == |g| && i < |f| && Parts(f) == Parts(g)
    ensures KeyAt(f, i) == KeyAt(g, i) && Print(ValueAt(f, i)) == Print(ValueAt(g, i))
  {
    hide Print, Quote, KeyAt, ValueAt, Parts, Separate;
    PartAt(f, i);
    PartAt(g, i);
    ValueSupported(v, i);
    ValueSupported(w, i);
    PrintsSeparate(ValueAt(f, i), ValueAt(g, i));
    EntriesSeparate(KeyAt(f, i), Print(ValueAt(f, i)), KeyAt(g, i), Print(ValueAt(g, i)));
  }

  /** Values with the same text are the same up to key order and the sign of zero. */
  lemma {:induction false} EqualTextsSame(v: Json, w: Json)
    requires Supported(v) && WellFormed(v) && Supported(w) && WellFormed(w) && Print(v) == Print(w)
    ensures Same(v, w)
    decreases v
  {
    PrintOpens(v);
    PrintOpens(w);
    OpensSameKind(v, w, Print(v)[0]);
    match v
    case Num(_) =>
    case Str(s) => assert Quote(s) + [] == Quote(w.s) + []; QuoteUnique(s, w.s, [], []);
    case Arr(p) =>
      ArraysSeparate(v, w);
      hide Print;
      forall i | 0 <= i < |p|
        ensures Same(p[i], w.items[i])
      {
        assert ItemTexts(p)[i] == ItemTexts(w.items)[i];
        EqualTextsSame(p[i], w.items[i]);
      }
    case Obj(f) =>
      hide Print, Parts, KeyAt, ValueAt;
      var g := w.fields;
      ObjectsSeparate(v, w);
      assert |Parts(f)| == |Parts(g)|;
      forall i | 0 <= i < |f|
        ensures KeyAt(f, i) == KeyAt(g, i) && Print(ValueAt(f, i)) == Print(ValueAt(g, i))
      {
        PartsAgree(f, g, v, w, i);
      }
      EqualKeysEverywhere(f, g);
      forall i, j | 0 <= i < |f| && 0 <= j < |g| && f[i].key == g[j].key
        ensures Same(f[i].value, g[j].value)
      {
        var a := FieldAt(f, i);
        var b := FieldAt(g, j);
        SamePlace(f, g, a, b);
        EqualTextsSame(f[i].value, g[j].value);
      }
    case _ =>
  }

  lemma SamePlace(f: seq<Field>, g: seq<Field>, a: nat, b: nat)
    requires |f| == |g| && a < |f| && b < |g| && NoDuplicates(Keys(f)) && KeyAt(f, a) == KeyAt(g, b)
    requires forall i :: 0 <= i < |f| ==> KeyAt(f, i) == KeyAt(g, i)
    ensures a == b
  {
    hide KeyAt;
    if a < b {
      KeyAtDistinct(f, a, b);
    } else if b < a {
      KeyAtDistinct(f, b, a);
    }
  }

  lemma SameKeysSorted(f: seq<Field>, g: seq<Field>)
    requires NoDuplicates(Keys(f)) && NoDuplicates(Keys(g)) && forall k :: k in Keys(f) <==> k in Keys(g)
    ensures SortKeys(Keys(f)) == SortKeys(Keys(g)) && |f| == |g|
  {
    KeyOrder();
    var key := (k: Text) => k;
    SortIgnoresOrder(KeyBefore, KeyBefore, key, Keys(f), Keys(g));
    SortedKeys(Keys(f));
    SortedKeys(Keys(g));
  }

  /** Values that are the same up to key order and the sign of zero have the same text. */
  lemma {:induction false} SameEqualTexts(v: Json, w: Json)
    requires WellFormed(v) && WellFormed(w) && Same(v, w)
    ensures Print(v) == Print(w) && (Supported(v) <==> Supported(w))
    decreases v
  {
    match v
    case Arr(p) =>
      hide Print;
      forall i | 0 <= i < |p|
        ensures ItemTexts(p)[i] == ItemTexts(w.items)[i] && (Supported(p[i]) <==> Supported(w.items[i]))
      {
        SameEqualTexts(p[i], w.items[i]);
      }
      ArrayText(v);
      ArrayText(w);
      assert ItemTexts(p) == ItemTexts(w.items);
    case Obj(f) =>
      hide Print, Quote, KeyAt, ValueAt, Parts, SortKeys;
      var g := w.fields;
      SameKeysSorted(f, g);
      forall i | 0 <= i < |f|
        ensures Parts(f)[i] == Parts(g)[i] && (Supported(ValueAt(f, i)) <==> Supported(ValueAt(g, i)))
      {
        SameValueAt(f, g, i);
        SameEqualTexts(ValueAt(f, i), ValueAt(g, i));
        PartAt(f, i);
        PartAt(g, i);
      }
      assert Parts(f) == Parts(g);
      ObjectText(v);
      ObjectText(w);
      SupportedValues(f);
      SupportedValues(g);
    case _ =>
  }

  lemma ObjectSupported(fields: seq<Field>)
    ensures Supported(Obj(fields)) <==> forall j :: 0 <= j < |fields| ==> Supported(fields[j].value)
  {
  }

  /** An object is supported when the values at all its key places are. */
  lemma SupportedValues(fields: seq<Field>)
    requires NoDuplicates(Keys(fields))
    ensures Supported(Obj(fields)) <==> forall i :: 0 <= i < |fields| ==> Supported(ValueAt(fields, i))
  {
    hide KeyAt, ValueAt, Supported, Keys;
    ObjectSupported(fields);
    if forall i :: 0 <= i < |fields| ==> Supported(ValueAt(fields, i)) {
      forall j | 0 <= j < |fields|
        ensures Supported(fields[j].value)
      {
        var i := FieldAt(fields, j);
      }
    }
    if Supported(Obj(fields)) {
      forall i | 0 <= i < |fields|
        ensures Supported(ValueAt(fields, i))
      {
        var v := ValueAt(fields, i);
      }
    }
  }

  lemma SameValueAt(f: seq<Field>, g: seq<Field>, i: nat)
    requires |f| == |g| && i < |f| && SortKeys(Keys(f)) == SortKeys(Keys(g)) && WellFormed(Obj(f))
    requires WellFormed(Obj(g)) && Same(Obj(f), Obj(g))
    ensures KeyAt(f, i) == KeyAt(g, i) && Same(ValueAt(f, i), ValueAt(g, i)) && WellFormed(ValueAt(f, i))
    ensures WellFormed(ValueAt(g, i))
  {
    hide SortKeys;
    var v, w := ValueAt(f, i), ValueAt(g, i);
  }

  /**
    The canonical text determines the value up to key order and the sign of zero, and nothing else; a value without a
    canonical text is never the same as one that has one.
   */
  lemma CanonicalTextIsCanonical(v: Json, w: Json)
    requires WellFormed(v) && WellFormed(w)
    ensures ToCanonicalJson(v).Some? && ToCanonicalJson(v) == ToCanonicalJson(w) <==> Supported(v) && Same(v, w)
  {
    hide Print, Same, Supported, WellFormed;
    if Supported(v) && Supported(w) && Print(v) == Print(w) {
      EqualTextsSame(v, w);
    }
    if Same(v, w) {
      SameEqualTexts(v, w);
    }
  }
}
