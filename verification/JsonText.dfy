/** The compact text of a JSON value, as `serde_json::to_string` writes it, and that different values have
    different texts. */
module JsonText {
  import opened Json

  // ---------- Strings ----------

  function HexDigit(n: nat): char
    requires n < 16
  {
    "0123456789abcdef"[n]
  }

  /** Quotes, backslashes and control characters are escaped. */
  function EscapeChar(c: char): string {
    if c == '"' then "\\\""
    else if c == '\\' then "\\\\"
    else if c == '\U{0008}' then "\\b"
    else if c == '\t' then "\\t"
    else if c == '\n' then "\\n"
    else if c == '\U{000C}' then "\\f"
    else if c == '\r' then "\\r"
    else if c < ' ' then "\\u00" + [HexDigit(c as int / 16), HexDigit(c as int % 16)]
    else [c]
  }

  function Escape(s: string): string {
    if s == "" then "" else EscapeChar(s[0]) + Escape(s[1..])
  }

  function Quote(s: string): string {
    "\"" + Escape(s) + "\""
  }

  lemma HexDigitsDiffer(m: nat, n: nat)
    requires m < 16 && n < 16 && HexDigit(m) == HexDigit(n)
    ensures m == n
  {
    var digits := "0123456789abcdef";
    assert forall i :: 0 <= i < 16 ==> digits[i] as int == if i < 10 then '0' as int + i else 'a' as int + i - 10;
  }

  lemma EscapeCharFacts(c: char)
    ensures EscapeChar(c) != "" && EscapeChar(c)[0] != '"'
    ensures |EscapeChar(c)| == 1 <==> EscapeChar(c) == [c] && c != '\\'
    ensures |EscapeChar(c)| > 1 <==> EscapeChar(c)[0] == '\\'
  {
  }

  /** Escaped characters can be told apart at the start of any text. */
  lemma EscapeCharUnique(c: char, d: char, x: string, y: string)
    requires EscapeChar(c) + x == EscapeChar(d) + y
    ensures c == d && x == y
  {
    var p, q := EscapeChar(c), EscapeChar(d);
    EscapeCharFacts(c);
    EscapeCharFacts(d);
    assert p[0] == (p + x)[0] == q[0];
    if |p| > 1 {
      assert p[1] == (p + x)[1] == q[1];
      EscapeLength(c);
      EscapeLength(d);
      assert |p| == |q|;
    }
    assert |p| == |q|;
    assert p == (p + x)[..|p|] == q;
    assert x == (p + x)[|p|..] == y;
    SameEscape(c, d);
  }

  lemma EscapeLength(c: char)
    requires |EscapeChar(c)| > 1
    ensures |EscapeChar(c)| == if EscapeChar(c)[1] == 'u' then 6 else 2
  {
  }

  lemma SameEscape(c: char, d: char)
    requires EscapeChar(c) == EscapeChar(d)
    ensures c == d
  {
    EscapeCharFacts(c);
    if |EscapeChar(c)| == 6 {
      assert EscapeChar(c)[4] == EscapeChar(d)[4] && EscapeChar(c)[5] == EscapeChar(d)[5];
      HexDigitsDiffer(c as int / 16, d as int / 16);
      HexDigitsDiffer(c as int % 16, d as int % 16);
    } else if |EscapeChar(c)| == 2 {
      assert EscapeChar(c)[1] == EscapeChar(d)[1];
    }
  }

  /** The closing quote comes first only after an empty string. */
  lemma EscapedFirst(s: string, x: string)
    ensures (Escape(s) + "\"" + x)[0] == '"' <==> s == ""
  {
    if s != "" {
      EscapeCharFacts(s[0]);
      hide EscapeChar;
      assert (Escape(s) + "\"" + x)[0] == EscapeChar(s[0])[0];
    }
  }

  lemma {:induction false} EscapeUnique(s: string, t: string, x: string, y: string)
    requires Escape(s) + "\"" + x == Escape(t) + "\"" + y
    ensures s == t && x == y
  {
    var a, b := Escape(s) + "\"" + x, Escape(t) + "\"" + y;
    hide EscapeChar;
    EscapedFirst(s, x);
    EscapedFirst(t, y);
    if s == "" {
      assert a[1..] == x && b[1..] == y;
    } else {
      var restA, restB := Escape(s[1..]) + "\"" + x, Escape(t[1..]) + "\"" + y;
      assert a == EscapeChar(s[0]) + restA && b == EscapeChar(t[0]) + restB;
      EscapeCharUnique(s[0], t[0], restA, restB);
      EscapeUnique(s[1..], t[1..], x, y);
      assert s == [s[0]] + s[1..] && t == [t[0]] + t[1..];
    }
  }

  lemma QuoteUnique(s: string, t: string, x: string, y: string)
    requires Quote(s) + x == Quote(t) + y
    ensures s == t && x == y
  {
    assert (Quote(s) + x)[1..] == Escape(s) + "\"" + x;
    assert (Quote(t) + y)[1..] == Escape(t) + "\"" + y;
    EscapeUnique(s, t, x, y);
  }

  // ---------- Values ----------

  function Serialize(value: Json): string
    decreases value, 1
  {
    match value
    case Null => "null"
    case Bool(b) => if b then "true" else "false"
    case Number(text) => text
    case Str(s) => Quote(s)
    case Arr(items) => "[" + SerializeItems(items)
    case Obj(fields) => "{" + SerializeFields(fields)
  }

  /** The items and the closing bracket. */
  function SerializeItems(items: seq<Json>): string
    decreases items, 2
  {
    if items == [] then "]"
    else Serialize(items[0]) + (if |items| == 1 then "]" else "," + SerializeItems(items[1..]))
  }

  function SerializeFields(fields: seq<Field>): string
    decreases fields, 2
  {
    if fields == [] then "}"
    else
      Quote(fields[0].key) + ":" + Serialize(fields[0].value)
      + (if |fields| == 1 then "}" else "," + SerializeFields(fields[1..]))
  }

  /** What may follow a value. */
  predicate Ends(x: string) {
    x == "" || x[0] == ',' || x[0] == ']' || x[0] == '}'
  }

  /** The number characters at the start of a text. */
  function NumberPrefix(x: string): string {
    if x == "" || !IsNumberChar(x[0]) then "" else [x[0]] + NumberPrefix(x[1..])
  }

  lemma {:induction false} NumberPrefixOf(text: string, x: string)
    requires (forall i :: 0 <= i < |text| ==> IsNumberChar(text[i])) && Ends(x)
    ensures NumberPrefix(text + x) == text
  {
    if text == "" {
      assert text + x == x;
    } else {
      assert (text + x)[1..] == text[1..] + x;
      NumberPrefixOf(text[1..], x);
    }
  }

  lemma FirstChar(value: Json)
    requires NumbersOk(value)
    ensures Serialize(value) != ""
    ensures match value {
              case Null => Serialize(value)[0] == 'n'
              case Bool(b) => Serialize(value)[0] == if b then 't' else 'f'
              case Number(_) => IsNumberChar(Serialize(value)[0])
              case Str(_) => Serialize(value)[0] == '"'
              case Arr(_) => Serialize(value)[0] == '['
              case Obj(_) => Serialize(value)[0] == '{'
            }
  {
    hide Escape, SerializeItems, SerializeFields;
  }

  /** Texts of values that agree have values of the same kind. */
  lemma SameKind(a: Json, b: Json, x: string, y: string)
    requires NumbersOk(a) && NumbersOk(b) && Serialize(a) + x == Serialize(b) + y
    ensures (a.Null? <==> b.Null?) && (a.Bool? <==> b.Bool?) && (a.Number? <==> b.Number?) && (a.Str? <==> b.Str?)
    ensures (a.Arr? <==> b.Arr?) && (a.Obj? <==> b.Obj?)
    ensures a.Bool? ==> a == b
  {
    FirstChar(a);
    FirstChar(b);
    hide Serialize, NumbersOk;
    assert Serialize(a)[0] == (Serialize(a) + x)[0] == Serialize(b)[0];
  }

  lemma CutPrefix(p: string, x: string, y: string)
    requires p + x == p + y
    ensures x == y
  {
    assert (p + x)[|p|..] == x && (p + y)[|p|..] == y;
  }

  /** The text of a value determines the value and where it ends. */
  lemma {:induction false} SerializeUnique(a: Json, b: Json, x: string, y: string)
    requires NumbersOk(a) && NumbersOk(b) && Ends(x) && Ends(y)
    requires Serialize(a) + x == Serialize(b) + y
    ensures a == b && x == y
    decreases a, 1
  {
    SameKind(a, b, x, y);
    match (a, b)
    case (Number(s), Number(t)) =>
      NumberPrefixOf(s, x);
      NumberPrefixOf(t, y);
      CutPrefix(s, x, y);
    case (Str(s), Str(t)) => QuoteUnique(s, t, x, y);
    case (Arr(xs), Arr(ys)) =>
      CutBracket("[", SerializeItems(xs), x, SerializeItems(ys), y);
      ItemsUnique(xs, ys, x, y);
    case (Obj(fs), Obj(gs)) =>
      CutBracket("{", SerializeFields(fs), x, SerializeFields(gs), y);
      FieldsUnique(fs, gs, x, y);
    case _ => CutPrefix(Serialize(a), x, y);
  }

  lemma CutBracket(open: string, p: string, x: string, q: string, y: string)
    requires (open + p) + x == (open + q) + y
    ensures p + x == q + y
  {
    assert (open + p) + x == open + (p + x) && (open + q) + y == open + (q + y);
    CutPrefix(open, p + x, q + y);
  }

  /** What follows the first item: a bracket, or a comma and the other items. */
  function ItemsTail(items: seq<Json>): string
    requires items != []
  {
    if |items| == 1 then "]" else "," + SerializeItems(items[1..])
  }

  function FieldsTail(fields: seq<Field>): string
    requires fields != []
  {
    if |fields| == 1 then "}" else "," + SerializeFields(fields[1..])
  }

  lemma ItemsFirst(items: seq<Json>, x: string)
    requires NumbersOkItems(items)
    ensures (SerializeItems(items) + x)[0] == ']' <==> items == []
  {
    hide Serialize;
    if items != [] {
      FirstChar(items[0]);
      assert (SerializeItems(items) + x)[0] == Serialize(items[0])[0];
    }
  }

  lemma ItemsText(items: seq<Json>, x: string)
    requires items != []
    ensures SerializeItems(items) + x == Serialize(items[0]) + (ItemsTail(items) + x)
    ensures Ends(ItemsTail(items) + x)
  {
    hide Serialize;
  }

  lemma ItemsTailCut(xs: seq<Json>, ys: seq<Json>, x: string, y: string)
    requires xs != [] && ys != [] && ItemsTail(xs) + x == ItemsTail(ys) + y
    ensures |xs| == 1 <==> |ys| == 1
    ensures if |xs| == 1 then x == y else SerializeItems(xs[1..]) + x == SerializeItems(ys[1..]) + y
  {
    hide SerializeItems;
    assert (ItemsTail(xs) + x)[0] == (ItemsTail(ys) + y)[0];
    if |xs| == 1 {
      CutPrefix("]", x, y);
    } else {
      CutBracket(",", SerializeItems(xs[1..]), x, SerializeItems(ys[1..]), y);
    }
  }

  lemma {:induction false} ItemsUnique(xs: seq<Json>, ys: seq<Json>, x: string, y: string)
    requires NumbersOkItems(xs) && NumbersOkItems(ys)
    requires SerializeItems(xs) + x == SerializeItems(ys) + y
    ensures xs == ys && x == y
    decreases xs, 2
  {
    ItemsFirst(xs, x);
    ItemsFirst(ys, y);
    if xs == [] {
      CutPrefix("]", x, y);
    } else {
      hide Serialize, SerializeItems, NumbersOk, ItemsTail;
      ItemsText(xs, x);
      ItemsText(ys, y);
      SerializeUnique(xs[0], ys[0], ItemsTail(xs) + x, ItemsTail(ys) + y);
      ItemsTailCut(xs, ys, x, y);
      if |xs| > 1 {
        ItemsUnique(xs[1..], ys[1..], x, y);
      }
      assert xs == [xs[0]] + xs[1..] && ys == [ys[0]] + ys[1..];
    }
  }

  lemma FieldsFirst(fields: seq<Field>, x: string)
    ensures (SerializeFields(fields) + x)[0] == '}' <==> fields == []
  {
    hide Serialize, Escape;
    if fields != [] {
      assert (SerializeFields(fields) + x)[0] == Quote(fields[0].key)[0];
    }
  }

  lemma FieldsText(fields: seq<Field>, x: string)
    requires fields != []
    ensures SerializeFields(fields) + x ==
            Quote(fields[0].key) + (":" + (Serialize(fields[0].value) + (FieldsTail(fields) + x)))
    ensures Ends(FieldsTail(fields) + x)
  {
    hide Serialize, Quote;
    var key, value, tail := Quote(fields[0].key), Serialize(fields[0].value), FieldsTail(fields);
    assert SerializeFields(fields) == key + ":" + value + tail;
    hide SerializeFields, FieldsTail;
    RegroupField(key, value, tail, x);
  }

  lemma RegroupField(key: string, value: string, tail: string, x: string)
    ensures (key + ":" + value + tail) + x == key + (":" + (value + (tail + x)))
  {
  }

  lemma FieldsTailCut(fs: seq<Field>, gs: seq<Field>, x: string, y: string)
    requires fs != [] && gs != [] && FieldsTail(fs) + x == FieldsTail(gs) + y
    ensures |fs| == 1 <==> |gs| == 1
    ensures if |fs| == 1 then x == y else SerializeFields(fs[1..]) + x == SerializeFields(gs[1..]) + y
  {
    hide SerializeFields;
    assert (FieldsTail(fs) + x)[0] == (FieldsTail(gs) + y)[0];
    if |fs| == 1 {
      CutPrefix("}", x, y);
    } else {
      CutBracket(",", SerializeFields(fs[1..]), x, SerializeFields(gs[1..]), y);
    }
  }

  lemma {:induction false} FieldsUnique(fs: seq<Field>, gs: seq<Field>, x: string, y: string)
    requires NumbersOkFields(fs) && NumbersOkFields(gs)
    requires SerializeFields(fs) + x == SerializeFields(gs) + y
    ensures fs == gs && x == y
    decreases fs, 2
  {
    FieldsFirst(fs, x);
    FieldsFirst(gs, y);
    if fs == [] {
      CutPrefix("}", x, y);
    } else {
      hide Serialize, SerializeFields, NumbersOk, FieldsTail, Quote;
      FieldsText(fs, x);
      FieldsText(gs, y);
      var p, q := FieldsTail(fs) + x, FieldsTail(gs) + y;
      var v, w := Serialize(fs[0].value) + p, Serialize(gs[0].value) + q;
      QuoteUnique(fs[0].key, gs[0].key, ":" + v, ":" + w);
      CutPrefix(":", v, w);
      SerializeUnique(fs[0].value, gs[0].value, p, q);
      FieldsTailCut(fs, gs, x, y);
      if |fs| > 1 {
        FieldsUnique(fs[1..], gs[1..], x, y);
      }
      assert fs == [fs[0]] + fs[1..] && gs == [gs[0]] + gs[1..];
    }
  }

  /** Different values have different texts. */
  lemma SerializeInjective(a: Json, b: Json)
    requires NumbersOk(a) && NumbersOk(b) && Serialize(a) == Serialize(b)
    ensures a == b
  {
    hide Serialize, NumbersOk;
    assert Serialize(a) + "" == Serialize(b) + "";
    SerializeUnique(a, b, "", "");
  }
}
