/**
  A reader of JSON texts, written from the grammar and not from the printer. Reading what the printer writes gives the value
  back, up to key order and the sign of zero; this pins every literal, separator and escape of the canonical text.
 */
module JsonReader {
  import opened Evidence
  import opened JsonText
  import opened Canonical

  datatype Reading<T> = Got(value: T, rest: Text) | Bad

  // ---------- Strings ----------

  function HexValue(u: Unit): Option<Unit> {
    if 48 <= u <= 57 then Some(u - 48)
    else if 97 <= u <= 102 then Some(u - 87)
    else if 65 <= u <= 70 then Some(u - 55)
    else None
  }

  function HexUnit(s: Text): Option<Unit> {
    if |s| < 4 then None
    else
      match (HexValue(s[0]), HexValue(s[1]), HexValue(s[2]), HexValue(s[3]))
      case (Some(a), Some(b), Some(c), Some(d)) =>
        var n := a as int * 4096 + b as int * 256 + c as int * 16 + d as int;
        if 0 <= n < 0x1_0000 then Some(n as Unit) else None
      case _ => None
  }

  /** The unit that a letter after a backslash stands for. */
  function Unescaped(letter: Unit): Option<Unit> {
    if letter == 34 || letter == 92 || letter == 47 then Some(letter)
    else if letter == 98 then Some(8)
    else if letter == 116 then Some(9)
    else if letter == 110 then Some(10)
    else if letter == 102 then Some(12)
    else if letter == 114 then Some(13)
    else None
  }

  function Prepend(u: Unit, r: Reading<Text>): Reading<Text> {
    match r
    case Got(s, rest) => Got([u] + s, rest)
    case Bad => Bad
  }

  /** What stands before the closing quote. */
  function ReadString(s: Text): (r: Reading<Text>)
    ensures r.Got? ==> |r.rest| < |s|
  {
    if s == [] || s[0] < 32 then Bad
    else if s[0] == 34 then Got([], s[1..])
    else if s[0] != 92 then Prepend(s[0], ReadString(s[1..]))
    else if |s| < 2 then Bad
    else if s[1] == 117 then
      var u := HexUnit(s[2..]);
      if u.Some? then Prepend(u.value, ReadString(s[6..])) else Bad
    else
      var u := Unescaped(s[1]);
      if u.Some? then Prepend(u.value, ReadString(s[2..])) else Bad
  }

  // ---------- Values ----------

  /** The length of the number at the start. */
  function NumberSpan(s: Text): (n: nat)
    ensures n <= |s| && (forall i :: 0 <= i < n ==> NumberUnit(s[i])) && (n < |s| ==> !NumberUnit(s[n]))
  {
    if s == [] || !NumberUnit(s[0]) then 0 else 1 + NumberSpan(s[1..])
  }

  predicate StartsWith(s: Text, word: Text) {
    |s| >= |word| && s[..|word|] == word
  }

  function ReadValue(s: Text): (r: Reading<Json>)
    decreases |s|, 0
    ensures r.Got? ==> |r.rest| < |s|
  {
    if s == [] then Bad
    else if s[0] == 34 then
      match ReadString(s[1..])
      case Got(t, rest) => Got(Str(t), rest)
      case Bad => Bad
    else if s[0] == 91 then
      if |s| > 1 && s[1] == 93 then Got(Arr([]), s[2..])
      else
        match ReadItems(s[1..])
        case Got(items, rest) => Got(Arr(items), rest)
        case Bad => Bad
    else if s[0] == 123 then
      if |s| > 1 && s[1] == 125 then Got(Obj([]), s[2..])
      else
        match ReadEntries(s[1..])
        case Got(fields, rest) => Got(Obj(fields), rest)
        case Bad => Bad
    else if StartsWith(s, [110, 117, 108, 108]) then Got(Null, s[4..])
    else if StartsWith(s, [116, 114, 117, 101]) then Got(Bool(true), s[4..])
    else if StartsWith(s, [102, 97, 108, 115, 101]) then Got(Bool(false), s[5..])
    else if NumberSpan(s) > 0 then Got(Num(Finite(s[..NumberSpan(s)])), s[NumberSpan(s)..])
    else Bad
  }

  /** One or more values, separated by commas, up to the closing bracket. */
  function ReadItems(s: Text): (r: Reading<seq<Json>>)
    decreases |s|, 1
    ensures r.Got? ==> |r.rest| < |s|
  {
    match ReadValue(s)
    case Bad => Bad
    case Got(v, rest) =>
      if rest == [] then Bad
      else if rest[0] == 93 then Got([v], rest[1..])
      else if rest[0] != 44 then Bad
      else
        match ReadItems(rest[1..])
        case Got(items, rest') => Got([v] + items, rest')
        case Bad => Bad
  }

  function ReadEntry(s: Text): (r: Reading<Field>)
    decreases |s|, 1
    ensures r.Got? ==> |r.rest| < |s|
  {
    if s == [] || s[0] != 34 then Bad
    else
      match ReadString(s[1..])
      case Bad => Bad
      case Got(key, rest) =>
        if rest == [] || rest[0] != 58 then Bad
        else
          match ReadValue(rest[1..])
          case Got(v, rest') => Got(Field(key, v), rest')
          case Bad => Bad
  }

  function ReadEntries(s: Text): (r: Reading<seq<Field>>)
    decreases |s|, 2
    ensures r.Got? ==> |r.rest| < |s|
  {
    match ReadEntry(s)
    case Bad => Bad
    case Got(f, rest) =>
      if rest == [] then Bad
      else if rest[0] == 125 then Got([f], rest[1..])
      else if rest[0] != 44 then Bad
      else
        match ReadEntries(rest[1..])
        case Got(fields, rest') => Got([f] + fields, rest')
        case Bad => Bad
  }

  // ---------- Reading an escaped string ----------

  lemma HexDigitRead(d: Unit)
    requires d < 16
    ensures HexValue(HexDigit(d)) == Some(d)
  {
  }

  lemma Hex4Read(u: Unit, x: Text)
    ensures HexUnit(Hex4(u) + x) == Some(u)
  {
    var h := Hex4(u) + x;
    assert h[0] == HexDigit(u / 4096) && h[1] == HexDigit(u / 256 % 16) && h[2] == HexDigit(u / 16 % 16) && h[3] == HexDigit(u % 16);
    HexDigitRead(u / 4096);
    HexDigitRead(u / 256 % 16);
    HexDigitRead(u / 16 % 16);
    HexDigitRead(u % 16);
    Nibbles(u as int);
  }

  lemma EscapeUnitRead(u: Unit, x: Text)
    ensures ReadString(EscapeUnit(u) + x) == Prepend(u, ReadString(x))
  {
    var e := EscapeUnit(u) + x;
    if ShortEscape(u) != [] {
      assert e[0] == 92 && e[1] == ShortEscape(u)[0] && e[2..] == x;
    } else if u < 32 || IsSurrogate(u) {
      assert e[0] == 92 && e[1] == 117 && e[2..] == Hex4(u) + x && e[6..] == x;
      Hex4Read(u, x);
    } else {
      assert e[0] == u && e[1..] == x;
    }
  }

  lemma HeadRead(s: Text, x: Text)
    requires s != []
    ensures ReadString(HeadEscape(s) + x) == if Width(s) == 2 then Prepend(s[0], Prepend(s[1], ReadString(x))) else Prepend(s[0], ReadString(x))
  {
    if Width(s) == 2 {
      var e := HeadEscape(s) + x;
      assert e[0] == s[0] && e[1..][0] == s[1] && e[1..][1..] == x;
    } else {
      EscapeUnitRead(s[0], x);
    }
  }

  lemma {:induction false} EscapeRead(s: Text, x: Text)
    ensures ReadString(Closed(s, x)) == Got(s, x)
  {
    ClosedStep(s, x);
    if s != [] {
      HeadRead(s, Closed(s[Width(s)..], x));
      EscapeRead(s[Width(s)..], x);
      hide ReadString, Closed;
      assert Width(s) == 2 ==> s == [s[0]] + ([s[1]] + s[2..]);
      assert Width(s) == 1 ==> s == [s[0]] + s[1..];
    }
  }

  lemma QuoteRead(s: Text, x: Text)
    ensures (Quote(s) + x)[0] == 34 && ReadString((Quote(s) + x)[1..]) == Got(s, x)
  {
    QuoteCloses(s, x);
    EscapeRead(s, x);
  }

  // ---------- Reading what the printer writes ----------

  lemma {:induction false} NumberRead(t: Text, x: Text)
    requires (forall i :: 0 <= i < |t| ==> NumberUnit(t[i])) && Stops(x)
    ensures NumberSpan(t + x) == |t|
  {
    if t == [] {
      assert t + x == x;
    } else {
      assert (t + x)[0] == t[0] && (t + x)[1..] == t[1..] + x;
      NumberRead(t[1..], x);
    }
  }

  /** Reading p followed by x gives a value that is the same as v, and leaves x. */
  ghost predicate Reads(p: Text, v: Json) {
    forall x :: Stops(x) ==> ReadValue(p + x).Got? && ReadValue(p + x).rest == x && Same(v, ReadValue(p + x).value)
  }

  lemma WordRead(v: Json)
    requires v.Null? || v.Bool?
    ensures Reads(Print(v), v)
  {
    forall x | Stops(x)
      ensures ReadValue(Print(v) + x) == Got(v, x)
    {
      var s := Print(v) + x;
      assert s[..|Print(v)|] == Print(v) && s[|Print(v)|..] == x;
      match v
      case Null => assert Print(v) == [110, 117, 108, 108];
      case Bool(b) => assert Print(v) == if b then [116, 114, 117, 101] else [102, 97, 108, 115, 101];
    }
  }

  lemma WordFirst(s: Text, word: Text)
    requires word != []
    ensures StartsWith(s, word) ==> s != [] && s[0] == word[0]
  {
    if StartsWith(s, word) {
      assert s[..|word|][0] == s[0];
    }
  }

  lemma NumberTextRead(t: Text, x: Text)
    requires NumberText(t) && Stops(x)
    ensures ReadValue(t + x) == Got(Num(Finite(t)), x)
  {
    NumberRead(t, x);
    var s := t + x;
    assert s[..|t|] == t && s[|t|..] == x && s[0] == t[0] && NumberUnit(t[0]);
    hide NumberSpan, NumberText, Stops, ReadString, ReadItems, ReadEntries;
    WordFirst(s, [110, 117, 108, 108]);
    WordFirst(s, [116, 114, 117, 101]);
    WordFirst(s, [102, 97, 108, 115, 101]);
  }

  lemma NumberValueRead(v: Json)
    requires v.Num? && Supported(v) && WellFormed(v)
    ensures Reads(Print(v), v)
  {
    var t := Print(v);
    assert NumberText(t) && Same(v, Num(Finite(t)));
    hide Print, Same, ReadValue, NumberText;
    forall x | Stops(x)
      ensures ReadValue(t + x) == Got(Num(Finite(t)), x)
    {
      NumberTextRead(t, x);
    }
  }

  lemma StringValueRead(v: Json)
    requires v.Str?
    ensures Reads(Print(v), v)
  {
    forall x | Stops(x)
      ensures ReadValue(Print(v) + x) == Got(v, x)
    {
      assert Print(v) == Quote(v.s);
      hide Quote, ReadString, Print;
      QuoteRead(v.s, x);
      assert (Quote(v.s) + x) != [];
    }
  }

  // ---------- Lists ----------

  lemma ItemFits(v: Json, i: nat)
    requires v.Arr? && Supported(v) && WellFormed(v) && i < |v.items|
    ensures Supported(v.items[i]) && WellFormed(v.items[i])
  {
  }

  /** From the i-th item on, the items are read up to the closing bracket. */
  lemma {:induction false} ItemsRead(v: Json, i: nat, x: Text)
    requires v.Arr? && Supported(v) && WellFormed(v) && i < |v.items|
    ensures var r := ReadItems(Listed(ItemTexts(v.items)[i..], CLOSE_ARRAY, x));
            r.Got? && r.rest == x && |r.value| == |v.items| - i && forall k :: 0 <= k < |r.value| ==> Same(v.items[i + k], r.value[k])
    decreases v, 0, |v.items| - i
  {
    hide Print, Same, Reads, Listed, Rest, ReadValue, WellFormed, Supported;
    ItemFits(v, i);
    var parts := ItemTexts(v.items)[i..];
    var rest := Rest(parts, CLOSE_ARRAY, x);
    RestStops(parts, CLOSE_ARRAY, x);
    PrintRead(v.items[i]);
    ReadsAt(Print(v.items[i]), v.items[i], rest);
    RestShape(parts, CLOSE_ARRAY, x);
    if |parts| > 1 {
      assert parts[1..] == ItemTexts(v.items)[i + 1..];
      ItemsRead(v, i + 1, x);
    }
  }

  lemma ReadsAt(p: Text, v: Json, x: Text)
    requires Reads(p, v) && Stops(x)
    ensures ReadValue(p + x).Got? && ReadValue(p + x).rest == x && Same(v, ReadValue(p + x).value)
  {
  }

  lemma RestShape(parts: seq<Text>, close: Unit, x: Text)
    requires parts != []
    ensures Rest(parts, close, x) != []
    ensures |parts| == 1 ==> Rest(parts, close, x)[0] == close && Rest(parts, close, x)[1..] == x
    ensures |parts| > 1 ==> Rest(parts, close, x)[0] == COMMA && Rest(parts, close, x)[1..] == Listed(parts[1..], close, x)
  {
    hide Listed;
  }

  lemma {:induction false} ArrayRead(v: Json)
    requires v.Arr? && Supported(v) && WellFormed(v)
    ensures Reads(Print(v), v)
    decreases v, 1
  {
    var parts := ItemTexts(v.items);
    ArrayText(v);
    forall x | Stops(x)
      ensures var r := ReadValue(Print(v) + x); r.Got? && r.rest == x && Same(v, r.value)
    {
      Bracketed(parts, OPEN_ARRAY, CLOSE_ARRAY, x);
      var listed := Listed(parts, CLOSE_ARRAY, x);
      assert ([OPEN_ARRAY] + listed)[1..] == listed;
      if v.items == [] {
        assert listed == [CLOSE_ARRAY] + x && ([OPEN_ARRAY] + listed)[2..] == x;
      } else {
        PrintOpens(v.items[0]);
        ListedFirst(parts, CLOSE_ARRAY, x);
        assert parts[0..] == parts;
        ItemsRead(v, 0, x);
      }
    }
  }

  lemma ListedFirst(parts: seq<Text>, close: Unit, x: Text)
    requires parts != [] && Starts(parts[0])
    ensures Listed(parts, close, x) != [] && Listed(parts, close, x)[0] == parts[0][0] && parts[0][0] != 93 && parts[0][0] != 125
  {
  }

  // ---------- Objects ----------

  lemma EntryRead(k: Text, p: Text, v: Json, x: Text)
    requires Reads(p, v) && Stops(x)
    ensures var r := ReadEntry(Quote(k) + [COLON] + p + x);
            r.Got? && r.rest == x && r.value.key == k && Same(v, r.value.value)
  {
    hide Quote, ReadString, ReadValue, Same, Reads;
    Regroup(Quote(k), [COLON], p, x);
    QuoteRead(k, [COLON] + p + x);
    assert ([COLON] + p + x)[1..] == p + x;
    ReadsAt(p, v, x);
  }

  /** From the i-th key on, the entries are read in key order up to the closing bracket. */
  lemma {:induction false} EntriesRead(v: Json, i: nat, x: Text)
    requires v.Obj? && Supported(v) && WellFormed(v) && i < |v.fields|
    ensures var r := ReadEntries(Listed(Parts(v.fields)[i..], CLOSE_OBJECT, x));
            && r.Got? && r.rest == x && |r.value| == |v.fields| - i
            && forall k :: 0 <= k < |r.value| ==> r.value[k].key == KeyAt(v.fields, i + k) && Same(ValueAt(v.fields, i + k), r.value[k].value)
    decreases v, 0, |v.fields| - i
  {
    hide Print, Same, Reads, Listed, Rest, Quote, KeyAt, ValueAt, Parts, ReadEntry, WellFormed, Supported;
    var parts := Parts(v.fields)[i..];
    var rest := Rest(parts, CLOSE_OBJECT, x);
    RestStops(parts, CLOSE_OBJECT, x);
    PartAt(v.fields, i);
    ValueSupported(v, i);
    var value := ValueAt(v.fields, i);
    PrintRead(value);
    EntryRead(KeyAt(v.fields, i), Print(value), value, rest);
    RestShape(parts, CLOSE_OBJECT, x);
    if |parts| > 1 {
      assert parts[1..] == Parts(v.fields)[i + 1..];
      EntriesRead(v, i + 1, x);
    }
  }

  /** Fields read back in key order make the same object. */
  lemma FieldsSame(f: seq<Field>, g: seq<Field>)
    requires NoDuplicates(Keys(f)) && |g| == |f|
    requires forall k :: 0 <= k < |g| ==> g[k].key == KeyAt(f, k) && Same(ValueAt(f, k), g[k].value)
    ensures Same(Obj(f), Obj(g))
  {
    hide KeyAt, ValueAt;
    forall k
      ensures k in Keys(f) <==> k in Keys(g)
    {
      if k in Keys(f) {
        var j :| 0 <= j < |f| && Keys(f)[j] == k;
        var i := FieldAt(f, j);
        assert Keys(g)[i] == k;
      }
      if k in Keys(g) {
        var i :| 0 <= i < |g| && Keys(g)[i] == k;
        assert g[i].key in Keys(f);
      }
    }
    forall i, j | 0 <= i < |f| && 0 <= j < |g| && f[i].key == g[j].key
      ensures Same(f[i].value, g[j].value)
    {
      var a := FieldAt(f, i);
      if a < j {
        KeyAtDistinct(f, a, j);
      } else if j < a {
        KeyAtDistinct(f, j, a);
      }
    }
  }

  lemma EmptyObjectRead(x: Text)
    ensures ReadValue([OPEN_OBJECT] + ([CLOSE_OBJECT] + x)) == Got(Obj([]), x)
  {
    assert ([OPEN_OBJECT] + ([CLOSE_OBJECT] + x))[2..] == x;
  }

  lemma ListedObjectRead(listed: Text)
    requires listed != [] && listed[0] != CLOSE_OBJECT && ReadEntries(listed).Got?
    ensures ReadValue([OPEN_OBJECT] + listed) == Got(Obj(ReadEntries(listed).value), ReadEntries(listed).rest)
  {
    hide ReadEntries, ReadString, ReadItems;
    assert ([OPEN_OBJECT] + listed)[1..] == listed;
  }

  lemma {:induction false} ObjectRead(v: Json)
    requires v.Obj? && Supported(v) && WellFormed(v)
    ensures Reads(Print(v), v)
    decreases v, 1
  {
    ObjectText(v);
    forall x | Stops(x)
      ensures var r := ReadValue(Print(v) + x); r.Got? && r.rest == x && Same(v, r.value)
    {
      hide KeyAt, ValueAt, Parts, Same, Print, ReadValue, ReadEntries, WellFormed, Supported, Join, Listed;
      var parts := Parts(v.fields);
      Bracketed(parts, OPEN_OBJECT, CLOSE_OBJECT, x);
      if v.fields == [] {
        EmptyListed(parts, CLOSE_OBJECT, x);
        EmptyObjectRead(x);
        EmptySame();
      } else {
        PartAt(v.fields, 0);
        EntryStarts(KeyAt(v.fields, 0), Print(ValueAt(v.fields, 0)));
        ListedFirst(parts, CLOSE_OBJECT, x);
        assert parts[0..] == parts;
        EntriesRead(v, 0, x);
        var listed := Listed(parts, CLOSE_OBJECT, x);
        ListedObjectRead(listed);
        DistinctKeysOf(v);
        FieldsSame(v.fields, ReadEntries(listed).value);
      }
    }
  }

  lemma EmptyListed(parts: seq<Text>, close: Unit, x: Text)
    requires parts == []
    ensures Listed(parts, close, x) == [close] + x
  {
  }

  lemma EmptySame()
    ensures Same(Obj([]), Obj([]))
  {
  }

  lemma DistinctKeysOf(v: Json)
    requires v.Obj? && WellFormed(v)
    ensures NoDuplicates(Keys(v.fields))
  {
  }

  /** Every printed value is read back, whatever may follow it. */
  lemma {:induction false} PrintRead(v: Json)
    requires Supported(v) && WellFormed(v)
    ensures Reads(Print(v), v)
    decreases v, 2
  {
    hide Print, Reads;
    match v
    case Null => WordRead(v);
    case Bool(_) => WordRead(v);
    case Num(_) => NumberValueRead(v);
    case Str(_) => StringValueRead(v);
    case Arr(_) => ArrayRead(v);
    case Obj(_) => ObjectRead(v);
  }

  /** Reading a canonical text gives the value back, up to key order and the sign of zero. */
  lemma CanonicalTextIsRead(v: Json)
    requires WellFormed(v) && ToCanonicalJson(v).Some?
    ensures var r := ReadValue(ToCanonicalJson(v).value);
            r.Got? && r.rest == [] && Same(v, r.value)
  {
    hide Reads;
    PrintRead(v);
    ReadsAt(Print(v), v, []);
    assert Print(v) + [] == Print(v);
  }
}
