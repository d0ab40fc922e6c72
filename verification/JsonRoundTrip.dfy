/**
 What cJSON prints is a text of the grammar, laid out in a certain way; so parsing it gives back the tree,
 formatted or not, whatever text follows.
 */
module JsonRoundTrip {
  import opened JsonText
  import opened JsonParse
  import opened JsonUnicode
  import opened JsonGrammar

  // ----- the layout -----

  function Tabs(n: int): (t: string) {
    seq(if n < 0 then 0 else n, _ => '\t')
  }

  /** In formatted text a new line begins with as many tabs as the depth says. */
  function NewLine(fmt: bool, depth: int): (t: string) {
    if fmt then "\n" + Tabs(depth) else ""
  }

  /** A tree as it is laid out at a depth: members on lines of their own, elements in one line. */
  function Layout(v: Json, depth: nat, fmt: bool): (x: Syntax)
    decreases v, 1
  {
    match v
    case JNull => Word("null")
    case JFalse => Word("false")
    case JTrue => Word("true")
    case JNumber(n) => Integer(n < 0, Digits(Magnitude(n)))
    case JString(s) => Text(EscapeThen(s, ""), s)
    case JArray(items) => if items == [] then EmptyList("") else List(ItemsLayout(items, depth + 1, fmt, true))
    case JObject(members) =>
      // an empty object closes one tab short of where a filled one would
      if members == [] then EmptyDict(NewLine(fmt, depth - 1)) else Dict(MembersLayout(members, depth + 1, fmt))
  }

  function Magnitude(n: int): (m: nat) {
    if n < 0 then -n else n
  }

  /** Every element but the first has a space in front of it. */
  function ItemsLayout(items: seq<Json>, depth: nat, fmt: bool, first: bool): (es: seq<Element>)
    ensures |es| == |items|
    decreases items, 0
  {
    if items == [] then []
    else [Element(if fmt && !first then " " else "", Layout(items[0], depth, fmt), "")]
         + ItemsLayout(items[1..], depth, fmt, false)
  }

  /** Every member begins a line, has a tab behind its colon, and the last has the closing line behind it. */
  function MembersLayout(members: seq<Member>, depth: nat, fmt: bool): (es: seq<Entry>)
    ensures |es| == |members|
    decreases members, 0
  {
    if members == [] then []
    else [MemberLayout(members[0], depth, fmt, |members| == 1)] + MembersLayout(members[1..], depth, fmt)
  }

  function MemberLayout(m: Member, depth: nat, fmt: bool, last: bool): (e: Entry)
    decreases m, 2
  {
    var value := Element(if fmt then "\t" else "", Layout(m.value, depth, fmt),
                         if last then NewLine(fmt, depth - 1) else "");
    Entry(NewLine(fmt, depth), EscapeThen(m.name, ""), m.name, "", value)
  }

  // ----- the printers write it -----

  lemma {:induction false} TabsThenIs(n: int, u: string)
    ensures TabsThen(n, u) == Tabs(n) + u
    decreases n
  {
    if n > 0 {
      TabsThenIs(n - 1, u);
      assert Tabs(n) == ['\t'] + Tabs(n - 1);
      ConcatAssociative(['\t'], Tabs(n - 1), u);
    }
  }

  lemma NewLineThen(fmt: bool, n: int, u: string)
    ensures ConsIf(fmt, '\n', TabsThen(if fmt then n else 0, u)) == NewLine(fmt, n) + u
  {
    hide TabsThen;
    TabsThenIs(n, u);
    TabsThenIs(0, u);
    if fmt { ConcatAssociative("\n", Tabs(n), u); }
  }

  lemma StringThenIs(s: string, u: string)
    ensures StringThen(s, u) == "\"" + (EscapeThen(s, "") + ("\"" + u))
  {
    EscapeAppend(s, "", "\"" + u);
    assert "" + ("\"" + u) == "\"" + u;
  }

  /** The text of any tree, formatted or not, is its layout written out. */
  lemma {:induction false} PrintsLayout(v: Json, depth: nat, fmt: bool, u: string)
    ensures ValueThen(v, depth, fmt, u) == SpellThen(Layout(v, depth, fmt), u)
    decreases v, 1
  {
    match v
    case JNull =>
    case JFalse =>
    case JTrue =>
    case JNumber(n) => ConcatAssociative(if n < 0 then "-" else "", Digits(Magnitude(n)), u);
    case JString(s) => StringThenIs(s, u);
    case JArray(items) => if items != [] { PrintsItems(items, depth + 1, fmt, true, u); }
    case JObject(members) =>
      if members == [] { NewLineThen(fmt, depth - 1, Cons('}', u)); }
      else { PrintsMembers(members, depth + 1, fmt, u); }
  }

  lemma {:induction false} PrintsItems(items: seq<Json>, depth: nat, fmt: bool, first: bool, u: string)
    requires items != []
    ensures ItemsSpell(ItemsLayout(items, depth, fmt, first), u) ==
            ConsIf(fmt && !first, ' ', ItemsThen(items, depth, fmt, u))
    decreases items, 0
  {
    hide ValueThen, SpellThen, Layout;
    var es, next := ItemsLayout(items, depth, fmt, first), AfterItem(items[1..], depth, fmt, u);
    var tail := if |es| == 1 then "]" + u else "," + ItemsSpell(es[1..], u);
    assert es[1..] == ItemsLayout(items[1..], depth, fmt, false);
    if |items| > 1 { PrintsItems(items[1..], depth, fmt, false, u); }
    assert tail == next;
    PrintsLayout(items[0], depth, fmt, next);
    assert "" + tail == tail;
    assert "" + SpellThen(es[0].value, tail) == SpellThen(es[0].value, tail);
  }

  lemma {:induction false} PrintsMembers(members: seq<Member>, depth: nat, fmt: bool, u: string)
    requires members != []
    ensures EntriesSpell(MembersLayout(members, depth, fmt), u) ==
            ConsIf(fmt, '\n', MembersThen(members, depth, fmt, u))
    decreases members, 0
  {
    hide MemberThen, EntrySpell, MemberLayout;
    var es, next := MembersLayout(members, depth, fmt), AfterMember(members[1..], depth, fmt, u);
    var last := |members| == 1;
    var tail := if |es| == 1 then "}" + u else "," + EntriesSpell(es[1..], u);
    assert es[1..] == MembersLayout(members[1..], depth, fmt);
    if last { NewLineThen(fmt, depth - 1, Cons('}', u)); }
    else {
      PrintsMembers(members[1..], depth, fmt, u);
      assert "" + tail == tail;
    }
    assert next == (if last then NewLine(fmt, depth - 1) else "") + tail;
    PrintsMember(members[0], depth, fmt, last, tail, next);
  }

  lemma {:induction false} PrintsMember(m: Member, depth: nat, fmt: bool, last: bool, tail: string, next: string)
    requires next == (if last then NewLine(fmt, depth - 1) else "") + tail
    ensures EntrySpell(MemberLayout(m, depth, fmt, last), tail) == ConsIf(fmt, '\n', MemberThen(m, depth, fmt, next))
    decreases m, 2
  {
    hide ValueThen, SpellThen, Layout, EscapeThen, TabsThen, NewLine;
    var value := ValueThen(m.value, depth, fmt, next);
    PrintsLayout(m.value, depth, fmt, next);
    var behind := ConsIf(fmt, '\t', value);
    var e := MemberLayout(m, depth, fmt, last);
    assert "" + value == value;
    assert ElementSpell(e.element, tail) == behind;
    assert "" + (":" + behind) == ":" + behind;
    StringThenIs(m.name, ":" + behind);
    NewLineThen(fmt, depth, StringThen(m.name, ":" + behind));
  }

  // ----- the layout is a text of the grammar, and means the tree -----

  lemma NewLineBlank(fmt: bool, n: int)
    ensures Blank(NewLine(fmt, n))
  {
  }

  lemma {:induction false} PrintedDigits(n: nat)
    ensures var d := Digits(n);
            d != [] && AllDigits(d) && (d[0] == '0' ==> |d| == 1) && DecimalValue(d) == n
  {
    DigitValue(Digit(n % 10));
    var d := Digits(n);
    if n >= 10 {
      PrintedDigits(n / 10);
      assert d[..|d| - 1] == Digits(n / 10);
      NoLeadingZero(n / 10);
    } else {
      assert d[..0] == [];
    }
  }

  lemma {:induction false} NoLeadingZero(n: nat)
    requires n > 0
    ensures Digits(n) != [] && Digits(n)[0] != '0'
  {
    if n >= 10 { NoLeadingZero(n / 10); }
  }

  /** print_string_ptr writes a literal that spells the string. */
  lemma {:induction false} PrintedSpells(s: CString)
    ensures Spells(EscapeThen(s, ""), s)
  {
    if s != [] {
      PrintedSpells(s[1..]);
      EscapeSpells(s, EscapeThen(s[1..], ""));
    }
  }

  lemma EscapeSpells(s: CString, t: string)
    requires s != [] && Spells(t, s[1..])
    ensures Spells(EscapeChar(s[0]) + t, s)
  {
    hide DecodeOne, EscapesTo;
    var c := s[0];
    var w := EscapeChar(c) + t;
    if Plain(c) {
      assert w[1..] == t;
    } else if ShortEscape(c) != 'u' {
      assert w[2..] == t;
    } else {
      ControlEscapes(s, t);
      assert w[6..] == t;
    }
  }

  lemma ControlEscapes(s: CString, t: string)
    requires s != [] && s[0] as int < 32 && !Plain(s[0]) && ShortEscape(s[0]) == 'u'
    ensures DecodeOne(s) == Point(s[0] as int, s[1..])
    ensures EscapesTo(EscapeChar(s[0]) + t, s[0] as int)
  {
    var n := s[0] as int;
    var w := EscapeChar(s[0]) + t;
    assert Utf8(n) == [s[0]] && s == Utf8(n) + s[1..];
    Utf8Decodes(n, s[1..]);
    hide DecodeOne, Utf8, Hex4;
    assert w[..2] == "\\u" && w[2..] == ['0', '0', HexDigit(n / 16), HexDigit(n % 16)] + t;
    LowHex(n, t);
  }

  lemma LowHex(n: nat, t: string)
    requires n < 256
    ensures Hex4(['0', '0', HexDigit(n / 16), HexDigit(n % 16)] + t, n)
  {
    assert n / 0x1000 == 0 && n / 0x100 % 16 == 0 && n / 0x10 % 16 == n / 16;
    HexDigitIs(0);
    HexDigitIs(n / 16);
    HexDigitIs(n % 16);
    assert HexDigit(0) == '0';
    hide HexOf, HexDigit;
  }

  lemma HexDigitIs(d: nat)
    requires d < 16
    ensures HexOf(HexDigit(d), d)
  {
    HexOfIs(HexDigit(d), d);
  }

  /** A string without control characters, quotes and backslashes is written as it is. */
  lemma {:induction false} PlainAsItIs(s: string, u: string)
    requires forall i :: 0 <= i < |s| ==> s[i] as int >= 32 && s[i] != '\"' && s[i] != '\\'
    ensures EscapeThen(s, u) == s + u
  {
    if s != [] {
      PlainAsItIs(s[1..], u);
      assert [s[0]] + (s[1..] + u) == s + u;
    } else {
      assert s + u == u;
    }
  }

  lemma {:induction false} LayoutMeans(v: Json, depth: nat, fmt: bool)
    ensures WellFormed(Layout(v, depth, fmt)) && Meaning(Layout(v, depth, fmt)) == v
    decreases v, 1
  {
    hide Spells, Digits, DecimalValue;
    match v
    case JNull =>
    case JFalse =>
    case JTrue =>
    case JNumber(n) => PrintedDigits(Magnitude(n));
    case JString(s) => PrintedSpells(s);
    case JArray(items) => if items != [] { ItemsMean(items, depth + 1, fmt, true); }
    case JObject(members) =>
      if members == [] { NewLineBlank(fmt, depth - 1); } else { MembersMean(members, depth + 1, fmt); }
  }

  lemma {:induction false} ItemsMean(items: seq<Json>, depth: nat, fmt: bool, first: bool)
    ensures var es := ItemsLayout(items, depth, fmt, first);
            (forall i :: 0 <= i < |es| ==> WellFormedElement(es[i])) && ItemMeanings(es) == items
    decreases items, 0
  {
    hide Layout;
    if items != [] {
      var es := ItemsLayout(items, depth, fmt, first);
      LayoutMeans(items[0], depth, fmt);
      ItemsMean(items[1..], depth, fmt, false);
      assert WellFormedElement(es[0]);
      assert es[1..] == ItemsLayout(items[1..], depth, fmt, false) && items == [items[0]] + items[1..];
    }
  }

  lemma {:induction false} MembersMean(members: seq<Member>, depth: nat, fmt: bool)
    ensures var es := MembersLayout(members, depth, fmt);
            (forall i :: 0 <= i < |es| ==> WellFormedEntry(es[i])) && EntryMeanings(es) == members
    decreases members, 0
  {
    hide Layout, MemberLayout, WellFormedEntry, EntryMeaning;
    if members != [] {
      var es := MembersLayout(members, depth, fmt);
      MemberMeans(members[0], depth, fmt, |members| == 1);
      MembersMean(members[1..], depth, fmt);
      assert es[1..] == MembersLayout(members[1..], depth, fmt) && members == [members[0]] + members[1..];
    }
  }

  lemma {:induction false} MemberMeans(m: Member, depth: nat, fmt: bool, last: bool)
    ensures WellFormedEntry(MemberLayout(m, depth, fmt, last))
    ensures EntryMeaning(MemberLayout(m, depth, fmt, last)) == m
    decreases m, 2
  {
    hide Layout, Spells, NewLine;
    LayoutMeans(m.value, depth, fmt);
    PrintedSpells(m.name);
    NewLineBlank(fmt, depth);
    NewLineBlank(fmt, depth - 1);
    assert WellFormedElement(MemberLayout(m, depth, fmt, last).element);
  }

  // ----- so parsing inverts printing -----

  /** Text that may follow a printed value; only numbers care. */
  predicate MayFollow(v: Json, u: string) {
    v.JNumber? ==> EndsNumber(u)
  }

  lemma RoundTrip(v: Json, depth: nat, fmt: bool, u: string)
    requires MayFollow(v, u)
    ensures ParseValue(ValueThen(v, depth, fmt, u)) == Ok(v, u)
  {
    var x := Layout(v, depth, fmt);
    assert x.Integer? ==> v.JNumber?;
    hide ParseValue, ValueThen, SpellThen, Layout, WellFormed, Meaning;
    PrintsLayout(v, depth, fmt, u);
    LayoutMeans(v, depth, fmt);
    Reads(x, u);
  }

  /** A printed document surrounded by blanks parses to its tree, with nothing left over. */
  lemma DocumentRoundTrip(v: Json, fmt: bool, before: string, after: string)
    requires Blank(before) && Blank(after)
    ensures ParseDocument(before + (Print(v, 0, fmt) + after), true) == Ok(v, "")
  {
    hide ParseDocument, ValueThen, SpellThen, WellFormed, Meaning;
    ValueThenIsPrint(v, 0, fmt, after);
    PrintsLayout(v, 0, fmt, after);
    LayoutMeans(v, 0, fmt);
    DocumentReads(Layout(v, 0, fmt), before, after);
  }

  /** No two trees print alike, in either format or across formats. */
  lemma PrintInjective(v: Json, w: Json, fmt: bool, fmt': bool)
    requires Print(v, 0, fmt) == Print(w, 0, fmt')
    ensures v == w
  {
    hide ParseValue, ValueThen;
    RoundTrip(v, 0, fmt, "");
    RoundTrip(w, 0, fmt', "");
  }
}
