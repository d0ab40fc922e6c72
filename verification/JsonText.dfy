/**
 The JSON tree of cJSON and the text its printers produce.

 A C string is a sequence of characters without NUL; the terminator that ends it in memory is
 implicit.  Every character stands for one byte.
 */
module JsonText {

  const NUL: char := '\0'

  predicate NulFree(s: string) {
    forall i :: 0 <= i < |s| ==> s[i] != NUL
  }

  type CString = s: string | NulFree(s)

  /** The values of a C `int` on this target. */
  type Int32 = n: int | -0x8000_0000 <= n < 0x8000_0000

  datatype Json =
    | JNull
    | JFalse
    | JTrue
    | JNumber(n: Int32)
    | JString(s: CString)
    | JArray(items: seq<Json>)
    | JObject(members: seq<Member>)

  datatype Member = Member(name: CString, value: Json)

  // ----- numbers: sprintf("%d", n) -----

  function Digit(d: nat): (c: char)
    requires d < 10
  {
    ('0' as int + d) as char
  }

  function Digits(n: nat): (s: string) {
    if n < 10 then [Digit(n)] else Digits(n / 10) + [Digit(n % 10)]
  }

  function PrintNumber(n: int): (s: string) {
    if n < 0 then "-" + Digits(-n) else Digits(n)
  }

  // ----- string literals -----

  function HexDigit(d: nat): (c: char)
    requires d < 16
  {
    if d < 10 then ('0' as int + d) as char else ('a' as int + d - 10) as char
  }

  /** Characters that print_string_ptr copies through unchanged. */
  predicate Plain(c: char) {
    c as int > 31 && c != '\"' && c != '\\'
  }

  /** The characters with a two-character escape, each with its letter. */
  function ShortEscape(c: char): (e: char) {
    match c
    case '\\' => '\\'
    case '\"' => '\"'
    case '\U{0008}' => 'b'
    case '\U{000C}' => 'f'
    case '\n' => 'n'
    case '\r' => 'r'
    case '\t' => 't'
    case _ => 'u'
  }

  function EscapeChar(c: char): (s: string)
  {
    if Plain(c) then [c]
    else if ShortEscape(c) != 'u' then ['\\', ShortEscape(c)]
    else if c as int < 32 then ['\\', 'u', '0', '0', HexDigit(c as int / 16), HexDigit(c as int % 16)]
    else [c]
  }

  // ----- values -----
  //
  // `XThen(x, u)` is the text of `x` followed by `u`: each character is put in front of the text that
  // comes next, which is how a reader of the text meets it.

  function Cons(c: char, u: string): (r: string) {
    [c] + u
  }

  function ConsIf(b: bool, c: char, u: string): (r: string) {
    if b then Cons(c, u) else u
  }

  function TabsThen(n: int, u: string): (r: string)
    decreases n
  {
    if n <= 0 then u else Cons('\t', TabsThen(n - 1, u))
  }

  function EscapeThen(s: string, u: string): (r: string) {
    if s == [] then u else EscapeChar(s[0]) + EscapeThen(s[1..], u)
  }

  function StringThen(s: string, u: string): (r: string) {
    Cons('\"', EscapeThen(s, Cons('\"', u)))
  }

  /** The text of a value at nesting depth `depth`, formatted or not. */
  function ValueThen(v: Json, depth: nat, fmt: bool, u: string): (r: string)
    decreases v, 1
  {
    match v
    case JNull => "null" + u
    case JFalse => "false" + u
    case JTrue => "true" + u
    case JNumber(n) => PrintNumber(n) + u
    case JString(s) => StringThen(s, u)
    case JArray(items) =>
      Cons('[', if items == [] then Cons(']', u) else ItemsThen(items, depth + 1, fmt, u))
    case JObject(members) =>
      // an empty object closes one tab short of where a filled one would
      Cons('{', ConsIf(fmt, '\n',
        if members == [] then TabsThen(if fmt then depth - 1 else 0, Cons('}', u))
        else MembersThen(members, depth + 1, fmt, u)))
  }

  /** What follows an array element: the closing bracket, or a comma and the other elements. */
  function AfterItem(items: seq<Json>, depth: nat, fmt: bool, u: string): (r: string)
    decreases items, 2
  {
    if items == [] then Cons(']', u)
    else Cons(',', ConsIf(fmt, ' ', ItemsThen(items, depth, fmt, u)))
  }

  /** The elements of an array and its closing bracket. */
  function ItemsThen(items: seq<Json>, depth: nat, fmt: bool, u: string): (r: string)
    requires items != []
    decreases items, 0
  {
    ValueThen(items[0], depth, fmt, AfterItem(items[1..], depth, fmt, u))
  }

  function MemberThen(m: Member, depth: nat, fmt: bool, u: string): (r: string)
    decreases m, 2
  {
    TabsThen(if fmt then depth else 0,
      StringThen(m.name, Cons(':', ConsIf(fmt, '\t', ValueThen(m.value, depth, fmt, u)))))
  }

  /** What follows an object member; formatted output puts each member on a line of its own. */
  function AfterMember(members: seq<Member>, depth: nat, fmt: bool, u: string): (r: string)
    decreases members, 2
  {
    if members == [] then ConsIf(fmt, '\n', TabsThen(if fmt then depth - 1 else 0, Cons('}', u)))
    else Cons(',', ConsIf(fmt, '\n', MembersThen(members, depth, fmt, u)))
  }

  /** The members of an object and its closing brace. */
  function MembersThen(members: seq<Member>, depth: nat, fmt: bool, u: string): (r: string)
    requires members != []
    decreases members, 0
  {
    MemberThen(members[0], depth, fmt, AfterMember(members[1..], depth, fmt, u))
  }

  /** cJSON_Print and cJSON_PrintUnformatted. */
  function Print(v: Json, depth: nat, fmt: bool): (s: string) {
    ValueThen(v, depth, fmt, "")
  }

  function PrintString(s: string): (r: string) {
    StringThen(s, "")
  }

  // ----- what follows a text does not change it -----

  lemma {:induction false} TabsAppend(n: int, a: string, b: string)
    ensures TabsThen(n, a + b) == TabsThen(n, a) + b
    decreases n
  {
    if n > 0 { TabsAppend(n - 1, a, b); }
  }

  lemma {:induction false} EscapeAppend(s: string, a: string, b: string)
    ensures EscapeThen(s, a + b) == EscapeThen(s, a) + b
  {
    if s != [] {
      EscapeAppend(s[1..], a, b);
      ConcatAssociative(EscapeChar(s[0]), EscapeThen(s[1..], a), b);
    }
  }

  lemma ConcatAssociative(a: string, b: string, c: string)
    ensures a + b + c == a + (b + c)
  {
  }

  lemma StringAppend(s: string, a: string, b: string)
    ensures StringThen(s, a + b) == StringThen(s, a) + b
  {
    assert Cons('\"', a + b) == Cons('\"', a) + b;
    EscapeAppend(s, Cons('\"', a), b);
  }

  lemma {:induction false} ValueAppend(v: Json, depth: nat, fmt: bool, a: string, b: string)
    ensures ValueThen(v, depth, fmt, a + b) == ValueThen(v, depth, fmt, a) + b
    decreases v, 1
  {
    hide TabsThen, ItemsThen, MembersThen, StringThen, PrintNumber;
    match v
    case JNull => ConcatAssociative("null", a, b);
    case JFalse => ConcatAssociative("false", a, b);
    case JTrue => ConcatAssociative("true", a, b);
    case JNumber(n) => ConcatAssociative(PrintNumber(n), a, b);
    case JString(s) => StringAppend(s, a, b);
    case JArray(items) =>
      if items != [] { ItemsAppend(items, depth + 1, fmt, a, b); }
    case JObject(members) =>
      if members == [] {
        ConcatAssociative("}", a, b);
        TabsAppend(if fmt then depth - 1 else 0, Cons('}', a), b);
      } else {
        MembersAppend(members, depth + 1, fmt, a, b);
      }
  }

  lemma {:induction false} ItemsAppend(items: seq<Json>, depth: nat, fmt: bool, a: string, b: string)
    requires items != []
    ensures ItemsThen(items, depth, fmt, a + b) == ItemsThen(items, depth, fmt, a) + b
    decreases items, 0
  {
    var next := AfterItem(items[1..], depth, fmt, a);
    if |items| == 1 {
      ConcatAssociative("]", a, b);
    } else {
      ItemsAppend(items[1..], depth, fmt, a, b);
    }
    assert AfterItem(items[1..], depth, fmt, a + b) == next + b;
    ValueAppend(items[0], depth, fmt, next, b);
  }

  lemma {:induction false} MemberAppend(m: Member, depth: nat, fmt: bool, a: string, b: string)
    ensures MemberThen(m, depth, fmt, a + b) == MemberThen(m, depth, fmt, a) + b
    decreases m, 2
  {
    var value := ConsIf(fmt, '\t', ValueThen(m.value, depth, fmt, a));
    ValueAppend(m.value, depth, fmt, a, b);
    assert ConsIf(fmt, '\t', ValueThen(m.value, depth, fmt, a + b)) == value + b;
    ConcatAssociative(":", value, b);
    StringAppend(m.name, Cons(':', value), b);
    TabsAppend(if fmt then depth else 0, StringThen(m.name, Cons(':', value)), b);
  }

  lemma {:induction false} MembersAppend(members: seq<Member>, depth: nat, fmt: bool, a: string, b: string)
    requires members != []
    ensures MembersThen(members, depth, fmt, a + b) == MembersThen(members, depth, fmt, a) + b
    decreases members, 0
  {
    hide MemberThen;
    var next := AfterMember(members[1..], depth, fmt, a);
    if |members| == 1 {
      ConcatAssociative("}", a, b);
      TabsAppend(if fmt then depth - 1 else 0, Cons('}', a), b);
    } else {
      MembersAppend(members[1..], depth, fmt, a, b);
    }
    assert AfterMember(members[1..], depth, fmt, a + b) == next + b;
    MemberAppend(members[0], depth, fmt, next, b);
  }

  /** A value's text stands in front of what follows it. */
  lemma ValueThenIsPrint(v: Json, depth: nat, fmt: bool, u: string)
    ensures ValueThen(v, depth, fmt, u) == Print(v, depth, fmt) + u
  {
    ValueAppend(v, depth, fmt, "", u);
    assert "" + u == u;
  }

  // ----- no printer output holds a NUL -----

  lemma {:induction false} DigitsAreDigits(n: nat)
    ensures |Digits(n)| >= 1
    ensures forall i :: 0 <= i < |Digits(n)| ==> '0' <= Digits(n)[i] <= '9'
  {
    if n >= 10 { DigitsAreDigits(n / 10); }
  }

  lemma {:induction false} TabsNulFree(n: int, u: CString)
    ensures NulFree(TabsThen(n, u))
    decreases n
  {
    if n > 0 { TabsNulFree(n - 1, u); }
  }

  lemma {:induction false} EscapeNulFree(s: CString, u: CString)
    ensures NulFree(EscapeThen(s, u))
  {
    if s != [] { EscapeNulFree(s[1..], u); }
  }

  lemma StringNulFree(s: CString, u: CString)
    ensures NulFree(StringThen(s, u))
  {
    EscapeNulFree(s, Cons('\"', u));
  }

  lemma {:induction false} ValueNulFree(v: Json, depth: nat, fmt: bool, u: CString)
    ensures NulFree(ValueThen(v, depth, fmt, u))
    decreases v, 1
  {
    match v
    case JNull | JFalse | JTrue =>
    case JNumber(n) => var k: int := n; DigitsAreDigits(if k < 0 then -k else k);
    case JString(s) => StringNulFree(s, u);
    case JArray(items) =>
      if items != [] { ItemsNulFree(items, depth + 1, fmt, u); }
    case JObject(members) =>
      if members == [] {
        TabsNulFree(if fmt then depth - 1 else 0, Cons('}', u));
      } else {
        MembersNulFree(members, depth + 1, fmt, u);
      }
  }

  lemma {:induction false} ItemsNulFree(items: seq<Json>, depth: nat, fmt: bool, u: CString)
    requires items != []
    ensures NulFree(ItemsThen(items, depth, fmt, u))
    decreases items, 0
  {
    if |items| > 1 { ItemsNulFree(items[1..], depth, fmt, u); }
    ValueNulFree(items[0], depth, fmt, AfterItem(items[1..], depth, fmt, u));
  }

  lemma {:induction false} MemberNulFree(m: Member, depth: nat, fmt: bool, u: CString)
    ensures NulFree(MemberThen(m, depth, fmt, u))
    decreases m, 2
  {
    ValueNulFree(m.value, depth, fmt, u);
    var colon := Cons(':', ConsIf(fmt, '\t', ValueThen(m.value, depth, fmt, u)));
    StringNulFree(m.name, colon);
    TabsNulFree(if fmt then depth else 0, StringThen(m.name, colon));
  }

  lemma {:induction false} MembersNulFree(members: seq<Member>, depth: nat, fmt: bool, u: CString)
    requires members != []
    ensures NulFree(MembersThen(members, depth, fmt, u))
    decreases members, 0
  {
    if |members| == 1 {
      TabsNulFree(if fmt then depth - 1 else 0, Cons('}', u));
    } else {
      MembersNulFree(members[1..], depth, fmt, u);
    }
    MemberNulFree(members[0], depth, fmt, AfterMember(members[1..], depth, fmt, u));
  }
}
