/**
 The texts of RFC 8259 as syntax trees, with blanks wherever they may stand: parse_value reads each of them
 as what it means.  Numbers are integers that an `int` can hold.
 */
module JsonGrammar {
  import opened JsonText
  import opened JsonParse
  import opened JsonUnicode

  // ----- what stands around a value -----

  /** Text that does not go on with a number: no digit, fraction or exponent comes first. */
  predicate EndsNumber(u: string) {
    && !IsDigit(Peek(u))
    && Peek(u) != 'e' && Peek(u) != 'E'
    && !(Peek(u) == '.' && IsDigit(Peek(u[1..])))
  }

  predicate Blank(s: string) {
    forall i :: 0 <= i < |s| ==> 0 < s[i] as int <= 32
  }

  lemma {:induction false} SkipBlank(ws: string, u: string)
    requires Blank(ws)
    ensures Skip(ws + u) == Skip(u)
  {
    if ws == [] {
      assert ws + u == u;
    } else {
      SkipBlank(ws[1..], u);
      assert (ws + u)[1..] == ws[1..] + u;
    }
  }

  lemma ConsTail(c: char, u: string)
    ensures Peek(Cons(c, u)) == c && Cons(c, u)[1..] == u
  {
  }

  lemma SkipCons(c: char, u: string)
    requires c != NUL
    ensures Skip(Cons(c, u)) == if c as int <= 32 then Skip(u) else Cons(c, u)
  {
    ConsTail(c, u);
  }

  lemma {:induction false} SkipTwice(t: string)
    ensures Skip(Skip(t)) == Skip(t)
  {
    if Peek(t) != NUL && Peek(t) as int <= 32 { SkipTwice(t[1..]); }
  }

  /** parse_value chooses by the first character. */
  lemma Dispatch(t: string)
    ensures Peek(t) == '[' ==> ParseValue(t) == ParseArray(t)
    ensures Peek(t) == '{' ==> ParseValue(t) == ParseObject(t)
    ensures Peek(t) == '-' || IsDigit(Peek(t)) ==> ParseValue(t) == ParseNumber(t)
    ensures Peek(t) == '\"' ==> ParseValue(t) == match ParseString(t)
                                                case Ok(s, rest) => Ok(JString(s), rest)
                                                case Malformed => Malformed
                                                case Overrun => Overrun
                                                case Unsupported => Unsupported
  {
    hide ParseArray, ParseObject, ParseNumber, ParseString;
    assert forall w | w in {"null", "false", "true"} && StartsWith(t, w) :: Peek(t) == w[0];
  }

  // ----- texts as trees -----

  datatype Syntax =
    | Word(word: string)
    | Integer(negative: bool, digits: string)
    | Text(body: string, s: string)
    | EmptyList(gap: string)
    | List(items: seq<Element>)
    | EmptyDict(gap: string)
    | Dict(entries: seq<Entry>)

  /** A value between its blanks. */
  datatype Element = Element(before: string, value: Syntax, after: string)

  /** A name between its blanks, and what stands behind the colon. */
  datatype Entry = Entry(before: string, name: string, s: string, gap: string, element: Element)

  // ----- which trees are texts -----

  predicate AllDigits(d: string) {
    forall i :: 0 <= i < |d| ==> d[i] in "0123456789"
  }

  /** The last digit counts one, the others ten times what they count without it. */
  function DecimalValue(d: string): (n: nat)
    requires AllDigits(d)
  {
    if d == [] then 0 else DecimalValue(d[..|d| - 1]) * 10 + (d[|d| - 1] as int - '0' as int)
  }

  function SignedValue(negative: bool, d: string): (n: int)
    requires AllDigits(d)
  {
    var n: int := DecimalValue(d);
    if negative then -n else n
  }

  predicate WellFormed(x: Syntax)
    decreases x, 1
  {
    match x
    case Word(w) => w in {"null", "false", "true"}
    case Integer(negative, d) =>
      && d != [] && AllDigits(d) && (d[0] == '0' ==> |d| == 1)
      && -0x8000_0000 <= SignedValue(negative, d) < 0x8000_0000
    case Text(body, s) => Spells(body, s)
    case EmptyList(gap) => Blank(gap)
    case List(items) => items != [] && forall i :: 0 <= i < |items| ==> WellFormedElement(items[i])
    case EmptyDict(gap) => Blank(gap)
    case Dict(entries) => entries != [] && forall i :: 0 <= i < |entries| ==> WellFormedEntry(entries[i])
  }

  predicate WellFormedElement(e: Element)
    decreases e, 2
  {
    Blank(e.before) && WellFormed(e.value) && Blank(e.after)
  }

  predicate WellFormedEntry(e: Entry)
    decreases e, 3
  {
    Blank(e.before) && Spells(e.name, e.s) && Blank(e.gap) && WellFormedElement(e.element)
  }

  // ----- what they mean -----

  function Meaning(x: Syntax): (v: Json)
    requires WellFormed(x)
    decreases x, 1
  {
    match x
    case Word(w) => if w == "null" then JNull else if w == "false" then JFalse else JTrue
    case Integer(negative, d) => JNumber(SignedValue(negative, d))
    case Text(body, s) =>
      SpelledChars(body, s, "");
      JString(s)
    case EmptyList(_) => JArray([])
    case List(items) => JArray(ItemMeanings(items))
    case EmptyDict(_) => JObject([])
    case Dict(entries) => JObject(EntryMeanings(entries))
  }

  function ItemMeanings(items: seq<Element>): (vs: seq<Json>)
    requires forall i :: 0 <= i < |items| ==> WellFormedElement(items[i])
    decreases items, 0
  {
    if items == [] then []
    else
      assert WellFormedElement(items[0]);
      [Meaning(items[0].value)] + ItemMeanings(items[1..])
  }

  function EntryMeanings(entries: seq<Entry>): (ms: seq<Member>)
    requires forall i :: 0 <= i < |entries| ==> WellFormedEntry(entries[i])
    decreases entries, 0
  {
    if entries == [] then [] else [EntryMeaning(entries[0])] + EntryMeanings(entries[1..])
  }

  function EntryMeaning(e: Entry): (m: Member)
    requires WellFormedEntry(e)
    decreases e, 1
  {
    assert WellFormedElement(e.element);
    SpelledChars(e.name, e.s, "");
    Member(e.s, Meaning(e.element.value))
  }

  // ----- how they are written -----

  /** The text of a tree, with `u` behind it. */
  function SpellThen(x: Syntax, u: string): (t: string)
    decreases x, 1
  {
    match x
    case Word(w) => w + u
    case Integer(negative, d) => (if negative then "-" else "") + (d + u)
    case Text(body, s) => "\"" + (body + ("\"" + u))
    case EmptyList(gap) => "[" + (gap + ("]" + u))
    case List(items) => "[" + ItemsSpell(items, u)
    case EmptyDict(gap) => "{" + (gap + ("}" + u))
    case Dict(entries) => "{" + EntriesSpell(entries, u)
  }

  function ItemsSpell(items: seq<Element>, u: string): (t: string)
    decreases items, 0
  {
    if items == [] then u
    else ElementSpell(items[0], if |items| == 1 then "]" + u else "," + ItemsSpell(items[1..], u))
  }

  function ElementSpell(e: Element, u: string): (t: string)
    decreases e, 2
  {
    e.before + SpellThen(e.value, e.after + u)
  }

  function EntriesSpell(entries: seq<Entry>, u: string): (t: string)
    decreases entries, 0
  {
    if entries == [] then u
    else EntrySpell(entries[0], if |entries| == 1 then "}" + u else "," + EntriesSpell(entries[1..], u))
  }

  function EntrySpell(e: Entry, u: string): (t: string)
    decreases e, 3
  {
    e.before + ("\"" + (e.name + ("\"" + (e.gap + (":" + ElementSpell(e.element, u))))))
  }

  // ----- numbers -----

  lemma DigitValue(c: char)
    ensures c in "0123456789" <==> IsDigit(c)
  {
    var d := "0123456789";
    assert IsDigit(c) ==> c == d[c as int - '0' as int];
  }

  lemma DigitRead(n: int, c: char, u: string)
    requires IsDigit(c)
    ensures ReadDigits(n, [c] + u) == ReadDigits(n * 10 + (c as int - '0' as int), u)
  {
    assert ([c] + u)[1..] == u;
  }

  lemma {:induction false} DigitsRead(d: string, u: string)
    requires AllDigits(d)
    ensures ReadDigits(0, d + u) == ReadDigits(DecimalValue(d), u)
    decreases |d|
  {
    hide ReadDigits;
    if d == [] {
      assert d + u == u;
    } else {
      var init, last := d[..|d| - 1], d[|d| - 1];
      DigitsRead(init, [last] + u);
      assert init + ([last] + u) == d + u;
      DigitValue(last);
      DigitRead(DecimalValue(init), last, u);
    }
  }

  lemma UnsignedReads(d: string, u: string)
    requires d != [] && AllDigits(d) && (d[0] == '0' ==> |d| == 1) && EndsNumber(u)
    ensures ReadUnsigned(d + u) == (DecimalValue(d), u) && IsDigit(Peek(d + u))
  {
    var t := d + u;
    DigitValue(d[0]);
    if d[0] == '0' {
      assert t[1..] == u && d[..0] == [];
    } else {
      DigitsRead(d, u);
    }
  }

  lemma IntegerReads(negative: bool, d: string, u: string)
    requires WellFormed(Integer(negative, d)) && EndsNumber(u)
    ensures var t := SpellThen(Integer(negative, d), u);
            && (Peek(t) == '-' || IsDigit(Peek(t)))
            && ParseNumber(t) == Ok(JNumber(SignedValue(negative, d)), u)
  {
    hide ReadUnsigned, DecimalValue;
    UnsignedReads(d, u);
    var t := SpellThen(Integer(negative, d), u);
    assert if negative then t[1..] == d + u else t == d + u;
  }

  /** Outside the grammar: one zero may lead, a second one ends the number, and a sign alone reads as zero. */
  lemma LenientNumbers(d: string, u: string)
    requires EndsNumber(u)
    ensures d != [] && AllDigits(d) && d[0] != '0' ==> ReadUnsigned("0" + (d + u)) == (DecimalValue(d), u)
    ensures ReadUnsigned("00" + u) == (0, "0" + u)
    ensures ParseNumber("-" + u) == Ok(JNumber(0), u)
  {
    assert ("0" + (d + u))[1..] == d + u && ("00" + u)[1..] == "0" + u && ("-" + u)[1..] == u;
    if d != [] && AllDigits(d) && d[0] != '0' {
      DigitValue(d[0]);
      DigitsRead(d, u);
    }
  }

  // ----- values -----

  /** Text that may stand behind a tree; only numbers care. */
  predicate MayStandBehind(x: Syntax, u: string) {
    x.Integer? ==> EndsNumber(u)
  }

  /** A text begins with a character that no blank, separator or bracket can be mistaken for. */
  lemma SpellHead(x: Syntax, u: string)
    requires WellFormed(x)
    ensures Peek(SpellThen(x, u)) as int > 32 && Peek(SpellThen(x, u)) !in {',', ']', '}', ':'}
    ensures Skip(SpellThen(x, u)) == SpellThen(x, u)
  {
    if x.Integer? { DigitValue(x.digits[0]); }
  }

  lemma WordReads(w: string, u: string)
    requires WellFormed(Word(w))
    ensures ParseValue(SpellThen(Word(w), u)) == Ok(Meaning(Word(w)), u)
  {
    var t := w + u;
    assert StartsWith(t, w) && t[|w|..] == u && t[0] == w[0];
    assert StartsWith(t, "null") ==> t[..4][0] == 'n';
    assert StartsWith(t, "false") ==> t[..5][0] == 'f';
  }

  lemma TextReads(body: string, s: string, u: string)
    requires Spells(body, s)
    ensures var t := "\"" + (body + ("\"" + u));
            Peek(t) == '\"' && NulFree(s) && ParseString(t) == Ok(s, u)
  {
    hide Spells;
    SpelledString(body, s, u);
    assert "\"" + (body + ("\"" + u)) == "\"" + body + "\"" + u;
  }

  /** Blanks and a separator or bracket end a number. */
  lemma EndsAtMark(b: string, c: string, u: string)
    requires Blank(b) && c in {",", "]", "}"}
    ensures EndsNumber(b + (c + u)) && Skip(b + (c + u)) == c + u && (c + u)[1..] == u
  {
    SkipBlank(b, c + u);
    assert Peek(b + (c + u)) == if b == [] then c[0] else b[0];
  }

  /** parse_value reads every text of the grammar as what it means. */
  lemma {:induction false} Reads(x: Syntax, u: string)
    requires WellFormed(x) && MayStandBehind(x, u)
    ensures ParseValue(SpellThen(x, u)) == Ok(Meaning(x), u)
    decreases x, 1
  {
    hide ParseValue, ParseArray, ParseObject, ParseNumber, ParseString, Skip;
    var t := SpellThen(x, u);
    Dispatch(t);
    match x
    case Word(w) => WordReads(w, u);
    case Integer(negative, d) => IntegerReads(negative, d, u);
    case Text(body, s) => TextReads(body, s, u);
    case EmptyList(gap) => EmptyReads(gap, "]", u);
    case List(items) => ListReads(items, u);
    case EmptyDict(gap) => EmptyReads(gap, "}", u);
    case Dict(entries) => DictReads(entries, u);
  }

  lemma EmptyReads(gap: string, close: string, u: string)
    requires Blank(gap) && close in {"]", "}"}
    ensures close == "]" ==> ParseArray("[" + (gap + (close + u))) == Ok(JArray([]), u)
    ensures close == "}" ==> ParseObject("{" + (gap + (close + u))) == Ok(JObject([]), u)
  {
    EndsAtMark(gap, close, u);
    hide Skip;
    assert ("[" + (gap + (close + u)))[1..] == gap + (close + u);
    assert ("{" + (gap + (close + u)))[1..] == gap + (close + u);
  }

  lemma {:induction false} ListReads(items: seq<Element>, u: string)
    requires items != [] && forall i :: 0 <= i < |items| ==> WellFormedElement(items[i])
    ensures ParseArray("[" + ItemsSpell(items, u)) == Ok(JArray(ItemMeanings(items)), u)
    decreases items, 1
  {
    hide Skip, ElementSpell, ParseItems, ItemMeanings, WellFormedElement;
    var body := ItemsSpell(items, u);
    assert ("[" + body)[1..] == body;
    SkipTwice(body);
    ItemsReads(items, Skip(body), u);
    ElementHead(items[0], if |items| == 1 then "]" + u else "," + ItemsSpell(items[1..], u));
  }

  lemma ElementHead(e: Element, u: string)
    requires WellFormedElement(e)
    ensures Skip(ElementSpell(e, u)) == SpellThen(e.value, e.after + u)
    ensures Peek(Skip(ElementSpell(e, u))) !in {',', ']', '}', ':'}
  {
    hide SpellThen, Skip;
    SpellHead(e.value, e.after + u);
    SkipBlank(e.before, SpellThen(e.value, e.after + u));
  }

  lemma {:induction false} ElementReads(e: Element, c: string, u: string)
    requires WellFormedElement(e) && c in {",", "]", "}"}
    ensures var r := ParseValue(Skip(ElementSpell(e, c + u)));
            r.Ok? && r.value == Meaning(e.value) && Skip(r.rest) == c + u
    decreases e, 2
  {
    hide SpellThen, Skip, ParseValue;
    ElementHead(e, c + u);
    EndsAtMark(e.after, c, u);
    Reads(e.value, e.after + (c + u));
  }

  lemma {:induction false} ItemsReads(items: seq<Element>, t: string, u: string)
    requires items != [] && forall i :: 0 <= i < |items| ==> WellFormedElement(items[i])
    requires Skip(t) == Skip(ItemsSpell(items, u))
    ensures ParseItems(t) == Ok(ItemMeanings(items), u)
    decreases items, 0
  {
    hide ParseValue, Skip, ElementSpell, Meaning, ParseItems;
    var close := if |items| == 1 then "]" else ",";
    var more := if |items| == 1 then u else ItemsSpell(items[1..], u);
    assert ItemsSpell(items, u) == ElementSpell(items[0], close + more);
    hide ItemsSpell;
    ElementReads(items[0], close, more);
    ItemsStep(t, close, more);
    assert WellFormedElement(items[0]);
    if |items| > 1 { ItemsReads(items[1..], more, u); } else {
      assert items[1..] == [];
      assert ItemMeanings(items) == [Meaning(items[0].value)];
    }
  }

  lemma ItemsStep(t: string, close: string, more: string)
    requires var r := ParseValue(Skip(t)); r.Ok? && Skip(r.rest) == close + more
    requires close in {"]", ","}
    ensures close == "]" ==> ParseItems(t) == Ok([ParseValue(Skip(t)).value], more)
    ensures close == "," && ParseItems(more).Ok? ==>
              ParseItems(t) == Ok([ParseValue(Skip(t)).value] + ParseItems(more).value, ParseItems(more).rest)
  {
    hide ParseValue, Skip;
    assert (close + more)[1..] == more;
  }

  lemma {:induction false} DictReads(entries: seq<Entry>, u: string)
    requires entries != [] && forall i :: 0 <= i < |entries| ==> WellFormedEntry(entries[i])
    ensures ParseObject("{" + EntriesSpell(entries, u)) == Ok(JObject(EntryMeanings(entries)), u)
    decreases entries, 1
  {
    hide Skip, EntrySpell, ParseMembers, EntryMeanings, WellFormedEntry;
    var body := EntriesSpell(entries, u);
    assert ("{" + body)[1..] == body;
    EntryHead(entries[0], if |entries| == 1 then "}" + u else "," + EntriesSpell(entries[1..], u));
    SkipTwice(body);
    EntriesReads(entries, Skip(body), u);
  }

  lemma EntryHead(e: Entry, u: string)
    requires WellFormedEntry(e)
    ensures Skip(EntrySpell(e, u)) == "\"" + (e.name + ("\"" + (e.gap + (":" + ElementSpell(e.element, u)))))
    ensures Peek(Skip(EntrySpell(e, u))) == '\"'
  {
    hide ElementSpell, Spells, WellFormedElement;
    var t := "\"" + (e.name + ("\"" + (e.gap + (":" + ElementSpell(e.element, u)))));
    SkipBlank(e.before, t);
  }

  lemma {:induction false} EntryReads(e: Entry, t: string, close: string, u: string)
    requires WellFormedEntry(e) && close in {",", "}"}
    requires Skip(t) == Skip(EntrySpell(e, close + u))
    ensures var r := ParseMember(t); r.Ok? && r.value == EntryMeaning(e) && Skip(r.rest) == close + u
    decreases e, 3
  {
    hide Skip, ParseString, ParseValue, Meaning, ElementSpell, Spells, Blank, WellFormedElement;
    var element := ElementSpell(e.element, close + u);
    EntryHead(e, close + u);
    TextReads(e.name, e.s, e.gap + (":" + element));
    SkipBlank(e.gap, ":" + element);
    SkipCons(':', element);
    assert ":" + element == Cons(':', element);
    assert (":" + element)[1..] == element;
    ElementReads(e.element, close, u);
  }

  lemma {:induction false} EntriesReads(entries: seq<Entry>, t: string, u: string)
    requires entries != [] && forall i :: 0 <= i < |entries| ==> WellFormedEntry(entries[i])
    requires Skip(t) == Skip(EntriesSpell(entries, u))
    ensures ParseMembers(t) == Ok(EntryMeanings(entries), u)
    decreases entries, 0
  {
    hide ParseMember, Skip, EntrySpell, EntryMeaning, ParseMembers, WellFormedEntry;
    var close := if |entries| == 1 then "}" else ",";
    var more := if |entries| == 1 then u else EntriesSpell(entries[1..], u);
    assert EntriesSpell(entries, u) == EntrySpell(entries[0], close + more);
    hide EntriesSpell;
    EntryReads(entries[0], t, close, more);
    MembersStep(t, close, more);
    if |entries| > 1 { EntriesReads(entries[1..], more, u); } else {
      assert entries[1..] == [];
      assert EntryMeanings(entries) == [EntryMeaning(entries[0])];
    }
  }

  lemma MembersStep(t: string, close: string, more: string)
    requires var r := ParseMember(t); r.Ok? && Skip(r.rest) == close + more
    requires close in {"}", ","}
    ensures close == "}" ==> ParseMembers(t) == Ok([ParseMember(t).value], more)
    ensures close == "," && ParseMembers(more).Ok? ==>
              ParseMembers(t) == Ok([ParseMember(t).value] + ParseMembers(more).value, ParseMembers(more).rest)
  {
    hide ParseMember, Skip;
    assert (close + more)[1..] == more;
  }

  /** A document between blanks, with nothing left over. */
  lemma DocumentReads(x: Syntax, before: string, after: string)
    requires WellFormed(x) && Blank(before) && Blank(after)
    ensures ParseDocument(before + SpellThen(x, after), true) == Ok(Meaning(x), "")
  {
    hide ParseValue, SpellThen, WellFormed, Meaning;
    SkipBlank(before, SpellThen(x, after));
    SpellHead(x, after);
    Reads(x, after);
    SkipBlank(after, "");
    assert after + "" == after;
  }
}
