/** JSON values, the text `json.dumps(..., ensure_ascii=False)` writes for them, and two
    ways of charging for that text: its length, and the weight behind the offline token
    estimate (a CJK character weighs four, any other character one). */
module JsonText {

  datatype Json =
    | Null
    | Bool(b: bool)
    | Num(text: string)          // a number, as the digits it is written with
    | Str(s: string)
    | Arr(items: seq<Json>)
    | Obj(fields: seq<Field>)    // insertion order, as a Python dict

  datatype Field = Field(key: string, value: Json)

  /** What a piece of text is charged. */
  datatype Mode = Length | Tokens

  predicate IsCjk(c: char) {
    '\U{3400}' <= c <= '\U{9fff}' || '\U{ff00}' <= c <= '\U{ffef}'
  }

  const WIDE: char := '\U{516c}'   // the filler character of the worst case
  const BELL: char := '\U{7}'      // a control character, written as a six-character escape

  function CharCost(mode: Mode, c: char): (cost: nat)
    ensures 1 <= cost <= 4
    ensures !IsCjk(c) ==> cost == 1
  {
    if mode.Tokens? && IsCjk(c) then 4 else 1
  }

  function Cost(mode: Mode, text: string): nat {
    if text == "" then 0 else CharCost(mode, text[0]) + Cost(mode, text[1..])
  }

  lemma {:induction false} CostConcat(mode: Mode, a: string, b: string)
    ensures Cost(mode, a + b) == Cost(mode, a) + Cost(mode, b)
  {
    if a == "" {
      assert a + b == b;
    } else {
      assert (a + b)[1..] == a[1..] + b;
      CostConcat(mode, a[1..], b);
    }
  }

  lemma {:induction false} CostOfLength(text: string)
    ensures Cost(Length, text) == |text|
  {
    if text == "" {
    } else {
      CostOfLength(text[1..]);
    }
  }

  function Repeat(c: char, n: nat): (text: string)
    ensures |text| == n
    ensures forall i :: 0 <= i < n ==> text[i] == c
  {
    if n == 0 then "" else [c] + Repeat(c, n - 1)
  }

  lemma {:induction false} CostRepeat(mode: Mode, c: char, n: nat)
    ensures Cost(mode, Repeat(c, n)) == n * CharCost(mode, c)
  {
    if n == 0 {
    } else {
      assert Repeat(c, n)[1..] == Repeat(c, n - 1);
      CostRepeat(mode, c, n - 1);
    }
  }

  // ----- serialization

  predicate NeedsEscape(c: char) {
    c == '"' || c == '\\' || c < ' '
  }

  function HexDigit(n: nat): char
    requires n < 16
  {
    "0123456789abcdef"[n]
  }

  function EscapeChar(c: char): string {
    if c == '"' then "\\\""
    else if c == '\\' then "\\\\"
    else if c == '\n' then "\\n"
    else if c == '\r' then "\\r"
    else if c == '\t' then "\\t"
    else if c == '\U{8}' then "\\b"
    else if c == '\U{c}' then "\\f"
    else if c < ' ' then "\\u00" + [HexDigit(c as int / 16), HexDigit(c as int % 16)]
    else [c]
  }

  function Escape(s: string): string {
    if s == "" then "" else EscapeChar(s[0]) + Escape(s[1..])
  }

  // ----- reading a string back

  function HexValue(c: char): nat {
    if '0' <= c <= '9' then c as int - '0' as int
    else if 'a' <= c <= 'f' then c as int - 'a' as int + 10
    else 0
  }

  /** The character an escape stands for, by its second character. */
  function Meaning(c: char): char {
    match c
    case 'n' => '\n'
    case 'r' => '\r'
    case 't' => '\t'
    case 'b' => '\U{8}'
    case 'f' => '\U{c}'
    case _ => c
  }

  /** What a JSON reader makes of the text between two quotes, for escapes of characters below 256. */
  function ReadEscaped(s: string): string
    decreases |s|
  {
    if |s| < 2 || s[0] != '\\' then (if s == "" then "" else [s[0]] + ReadEscaped(s[1..]))
    else if s[1] == 'u' && |s| >= 6 then [(16 * HexValue(s[4]) + HexValue(s[5])) as char] + ReadEscaped(s[6..])
    else [Meaning(s[1])] + ReadEscaped(s[2..])
  }

  lemma HexReads(n: nat)
    requires n < 16
    ensures HexValue(HexDigit(n)) == n
  {
  }

  lemma ReadCode(c: char, rest: string)
    requires c < ' '
    ensures ReadEscaped("\\u00" + [HexDigit(c as int / 16), HexDigit(c as int % 16)] + rest) == [c] + ReadEscaped(rest)
  {
    var e := "\\u00" + [HexDigit(c as int / 16), HexDigit(c as int % 16)];
    HexReads(c as int / 16);
    HexReads(c as int % 16);
    assert (e + rest)[6..] == rest && (e + rest)[4] == e[4] && (e + rest)[5] == e[5];
  }

  lemma ReadPair(x: char, rest: string)
    requires x != 'u'
    ensures ReadEscaped("\\" + [x] + rest) == [Meaning(x)] + ReadEscaped(rest)
  {
    assert ("\\" + [x] + rest)[2..] == rest;
  }

  lemma EscapeShapes(c: char)
    ensures var e := EscapeChar(c);
            || (e == [c] && c != '\\')
            || (|e| == 2 && e == "\\" + [e[1]] && e[1] != 'u' && Meaning(e[1]) == c)
            || (c < ' ' && e == "\\u00" + [HexDigit(c as int / 16), HexDigit(c as int % 16)])
  {
  }

  lemma ReadEscapedChar(c: char, rest: string)
    ensures ReadEscaped(EscapeChar(c) + rest) == [c] + ReadEscaped(rest)
  {
    var e := EscapeChar(c);
    EscapeShapes(c);
    if e == [c] {
      assert ([c] + rest)[1..] == rest;
    } else if |e| == 2 {
      ReadPair(e[1], rest);
    } else {
      ReadCode(c, rest);
    }
  }

  /** Escaping loses nothing. */
  lemma {:induction false} EscapeReadsBack(s: string)
    ensures ReadEscaped(Escape(s)) == s
  {
    if s == "" {
    } else {
      EscapeReadsBack(s[1..]);
      ReadEscapedChar(s[0], Escape(s[1..]));
    }
  }

  function Quoted(s: string): string {
    "\"" + Escape(s) + "\""
  }

  function Dump(v: Json): string
    decreases v, 0
  {
    match v
    case Null => "null"
    case Bool(b) => if b then "true" else "false"
    case Num(text) => text
    case Str(s) => Quoted(s)
    case Arr(items) => "[" + DumpItems(items) + "]"
    case Obj(fields) => "{" + DumpFields(fields) + "}"
  }

  function DumpItems(items: seq<Json>): string
    decreases items, 0
  {
    if |items| == 0 then ""
    else if |items| == 1 then Dump(items[0])
    else Dump(items[0]) + ", " + DumpItems(items[1..])
  }

  function DumpField(f: Field): string
    decreases f, 1
  {
    Quoted(f.key) + ": " + Dump(f.value)
  }

  function DumpFields(fields: seq<Field>): string
    decreases fields, 0
  {
    if |fields| == 0 then ""
    else if |fields| == 1 then DumpField(fields[0])
    else DumpField(fields[0]) + ", " + DumpFields(fields[1..])
  }

  function DumpCost(mode: Mode, v: Json): nat {
    Cost(mode, Dump(v))
  }

  function KeyCost(mode: Mode, key: string): nat {
    Cost(mode, Quoted(key))
  }

  /** The cost of `n` pieces that total `sum`, joined by the two-character separator. */
  function Joined(n: nat, sum: nat): nat {
    if n == 0 then 0 else sum + 2 * (n - 1)
  }

  function ItemsCost(mode: Mode, items: seq<Json>): nat {
    if items == [] then 0 else DumpCost(mode, items[0]) + ItemsCost(mode, items[1..])
  }

  function FieldCost(mode: Mode, f: Field): nat {
    KeyCost(mode, f.key) + 2 + DumpCost(mode, f.value)
  }

  function FieldsCost(mode: Mode, fields: seq<Field>): nat {
    if fields == [] then 0 else FieldCost(mode, fields[0]) + FieldsCost(mode, fields[1..])
  }

  lemma SeparatorCost(mode: Mode)
    ensures Cost(mode, ", ") == 2 && Cost(mode, ": ") == 2
  {
    assert Cost(mode, ", "[1..]) == 1;
    assert Cost(mode, ": "[1..]) == 1;
  }

  lemma {:induction false} DumpItemsCost(mode: Mode, items: seq<Json>)
    ensures Cost(mode, DumpItems(items)) == Joined(|items|, ItemsCost(mode, items))
  {
    if |items| == 1 {
      assert items[1..] == [];
    } else if |items| > 1 {
      DumpItemsCost(mode, items[1..]);
      SeparatorCost(mode);
      CostConcat(mode, Dump(items[0]) + ", ", DumpItems(items[1..]));
      CostConcat(mode, Dump(items[0]), ", ");
    }
  }

  lemma DumpFieldCost(mode: Mode, f: Field)
    ensures Cost(mode, DumpField(f)) == FieldCost(mode, f)
  {
    SeparatorCost(mode);
    CostConcat(mode, Quoted(f.key) + ": ", Dump(f.value));
    CostConcat(mode, Quoted(f.key), ": ");
  }

  lemma {:induction false} DumpFieldsCost(mode: Mode, fields: seq<Field>)
    ensures Cost(mode, DumpFields(fields)) == Joined(|fields|, FieldsCost(mode, fields))
  {
    if |fields| == 1 {
      DumpFieldCost(mode, fields[0]);
      assert fields[1..] == [];
    } else if |fields| > 1 {
      DumpFieldCost(mode, fields[0]);
      DumpFieldsCost(mode, fields[1..]);
      SeparatorCost(mode);
      CostConcat(mode, DumpField(fields[0]) + ", ", DumpFields(fields[1..]));
      CostConcat(mode, DumpField(fields[0]), ", ");
    }
  }

  lemma Bracketed(mode: Mode, open: char, text: string, close: char)
    requires !IsCjk(open) && !IsCjk(close)
    ensures Cost(mode, [open] + text + [close]) == Cost(mode, text) + 2
  {
    CostConcat(mode, [open] + text, [close]);
    CostConcat(mode, [open], text);
    assert Cost(mode, [open][1..]) == 0 && Cost(mode, [close][1..]) == 0;
  }

  lemma ArrayCost(mode: Mode, items: seq<Json>)
    ensures DumpCost(mode, Arr(items)) == 2 + Joined(|items|, ItemsCost(mode, items))
  {
    DumpItemsCost(mode, items);
    Bracketed(mode, '[', DumpItems(items), ']');
  }

  lemma ObjectCost(mode: Mode, fields: seq<Field>)
    ensures DumpCost(mode, Obj(fields)) == 2 + Joined(|fields|, FieldsCost(mode, fields))
  {
    DumpFieldsCost(mode, fields);
    Bracketed(mode, '{', DumpFields(fields), '}');
  }

  // ----- strings

  lemma {:induction false} EscapeCharCost(mode: Mode, c: char)
    ensures NeedsEscape(c) ==> Cost(mode, EscapeChar(c)) <= 6
    ensures !NeedsEscape(c) ==> Cost(mode, EscapeChar(c)) == CharCost(mode, c)
  {
    var e := EscapeChar(c);
    assert |e| <= 6;
    if NeedsEscape(c) {
      PlainCost(mode, e);
    } else {
      assert e == [c] && Cost(mode, e[1..]) == 0;
    }
  }

  lemma {:induction false} PlainCost(mode: Mode, text: string)
    requires forall i :: 0 <= i < |text| ==> !IsCjk(text[i])
    ensures Cost(mode, text) == |text|
  {
    if text == "" {
    } else {
      PlainCost(mode, text[1..]);
    }
  }

  lemma QuotedCost(mode: Mode, s: string)
    ensures Cost(mode, Quoted(s)) == Cost(mode, Escape(s)) + 2
  {
    Bracketed(mode, '"', Escape(s), '"');
  }
}
