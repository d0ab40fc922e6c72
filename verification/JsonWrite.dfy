/** What both of cJSON's printers share: the pieces of the text, their lengths and the copying loops. */
module JsonWrite {
  import opened Buffers
  import opened JsonText

  // ----- lengths the code works out in advance -----

  predicate NeedsEscape(c: char) {
    0 < c as int < 32 || c == '\"' || c == '\\'
  }

  /** Without a character to escape, the text between the quotes is the string itself. */
  lemma {:induction false} NothingToEscape(s: string, u: string)
    requires forall i :: 0 <= i < |s| ==> s[i] != NUL && !NeedsEscape(s[i])
    ensures EscapeThen(s, u) == s + u
  {
    if s == [] {
      assert s + u == u;
    } else {
      NothingToEscape(s[1..], u);
      assert s + u == [s[0]] + (s[1..] + u);
    }
  }

  lemma {:induction false} EscapeSnoc(s: string, c: char, u: string)
    ensures EscapeThen(s + [c], u) == EscapeThen(s, EscapeChar(c) + u)
  {
    if s == [] {
      assert s + [c] == [c] && [c][1..] == [];
    } else {
      EscapeSnoc(s[1..], c, u);
      assert (s + [c])[1..] == s[1..] + [c];
    }
  }

  /** Escaping one more character adds its escape at the end. */
  lemma EscapeGrows(s: string, i: nat)
    requires i < |s|
    ensures EscapeThen(s[..i + 1], "") == EscapeThen(s[..i], "") + EscapeChar(s[i])
  {
    assert s[..i + 1] == s[..i] + [s[i]];
    EscapeSnoc(s[..i], s[i], "");
    EscapeAppend(s[..i], "", EscapeChar(s[i]));
    assert "" + EscapeChar(s[i]) == EscapeChar(s[i]) + "" == EscapeChar(s[i]);
  }

  /** A prefix of the string never escapes to more than the whole. */
  lemma {:induction false} EscapePrefixFits(s: string, i: nat)
    requires i <= |s|
    ensures |EscapeThen(s[..i], "")| <= |EscapeThen(s, "")|
    decreases |s| - i
  {
    if i == |s| {
      assert s[..i] == s;
    } else {
      EscapeGrows(s, i);
      EscapePrefixFits(s, i + 1);
    }
  }

  lemma {:induction false} DigitCount(n: nat, k: nat, limit: nat)
    requires k > 0 && limit == Power10(k) && n < limit
    ensures |Digits(n)| <= k
    decreases k
  {
    if n >= 10 { DigitCount(n / 10, k - 1, Power10(k - 1)); }
  }

  function Power10(k: nat): (p: nat) {
    if k == 0 then 1 else 10 * Power10(k - 1)
  }

  /** "%d" needs at most eleven characters, so it fits the 21 bytes asked for. */
  lemma NumberFits(n: Int32)
    ensures |PrintNumber(n)| <= 11
  {
    var k: int := n;
    assert Power10(10) == 10_000_000_000;
    DigitCount(if k < 0 then -k else k, 10, Power10(10));
  }

  lemma {:induction false} TabsLength(n: int, u: string)
    ensures |TabsThen(n, u)| == |u| + if n > 0 then n else 0
    decreases n
  {
    if n > 0 { TabsLength(n - 1, u); }
  }

  /** The copying loop over a string that needs escapes; two bytes stay free for the closing quote. */
  method WriteEscaped(p: array<char>, start: nat, s: string)
    requires start + |EscapeThen(s, "")| + 2 <= p.Length
    modifies p
    ensures p[..start + |EscapeThen(s, "")|] == old(p[..start]) + EscapeThen(s, "")
  {
    var at := start;
    for i := 0 to |s|
      invariant at == start + |EscapeThen(s[..i], "")| <= p.Length
      invariant p[..at] == old(p[..start]) + EscapeThen(s[..i], "")
    {
      EscapeGrows(s, i);
      EscapePrefixFits(s, i + 1);
      var e := EscapeChar(s[i]);
      ConcatAssociative(old(p[..start]), EscapeThen(s[..i], ""), e);
      if |e| == 6 {
        WriteLongEscape(p, at, e);
      } else {
        Poke(p, at, e);
      }
      at := at + |e|;
    }
    assert s[..|s|] == s;
  }

  /** sprintf leaves its own terminator behind the escape. */
  method WriteLongEscape(p: array<char>, at: nat, e: string)
    requires at + |e| < p.Length
    modifies p
    ensures p[..at + |e|] == old(p[..at]) + e
  {
    PokeEnded(p, at, e);
  }

  /** The length a first pass over the string works out for it. */
  method EscapedLength(s: CString) returns (len: nat)
    ensures len == |EscapeThen(s, "")|
  {
    len := 0;
    for i := 0 to |s|
      invariant len == |EscapeThen(s[..i], "")|
    {
      EscapeGrows(s, i);
      len := len + 1;
      if s[i] in "\"\\\U{0008}\U{000C}\n\r\t" {
        len := len + 1;
      } else if s[i] as int < 32 {
        len := len + 5;
      }
    }
    assert s[..|s|] == s;
  }

  lemma QuotedText(s: string, base: string)
    ensures base + "\"" + EscapeThen(s, "") + ("\"" + [NUL]) == base + PrintString(s) + [NUL]
  {
    EscapeAppend(s, "", "\"");
    assert "" + "\"" == "\"" + "";
  }

  /** The literal of a string that needs escapes, and a terminator. */
  method WriteQuoted(p: array<char>, at: nat, s: CString, len: nat)
    requires len == |EscapeThen(s, "")| && at + len + 3 <= p.Length
    modifies p
    ensures |PrintString(s)| == len + 2
    ensures p[..at + len + 3] == old(p[..at]) + PrintString(s) + [NUL]
  {
    hide EscapeThen, PrintString;
    ghost var base := p[..at];
    QuotedText(s, base);
    Poke(p, at, "\"");
    WriteEscaped(p, at + 1, s);
    Poke(p, at + 1 + len, "\"" + [NUL]);
  }

  /** What is still to be written of an array's text when `items` are left. */
  ghost function ItemsLeft(items: seq<Json>, depth: nat, fmt: bool): (s: string) {
    if items == [] then "]" else ItemsThen(items, depth, fmt, "")
  }

  /** What is still to be written of an object's text when `members` are left. */
  ghost function MembersLeft(members: seq<Member>, depth: nat, fmt: bool): (s: string) {
    if members == [] then TabsThen(if fmt then depth - 1 else 0, "}") else MembersThen(members, depth, fmt, "")
  }

  lemma ItemsLeftStep(items: seq<Json>, k: nat, depth: nat, fmt: bool)
    requires k < |items|
    ensures ItemsLeft(items[k..], depth, fmt)
         == Print(items[k], depth, fmt)
            + ((if k + 1 == |items| then "" else if fmt then ", " else ",") + ItemsLeft(items[k + 1..], depth, fmt))
  {
    hide ValueThen;
    assert items[k..][0] == items[k] && items[k..][1..] == items[k + 1..];
    ValueThenIsPrint(items[k], depth, fmt, AfterItem(items[k + 1..], depth, fmt, ""));
  }

  function MemberSuffix(last: bool, fmt: bool): (s: string)
    ensures |s| == (if last then 0 else 1) + (if fmt then 1 else 0)
  {
    (if last then "" else ",") + (if fmt then "\n" else "")
  }

  lemma AfterMemberParts(members: seq<Member>, depth: nat, fmt: bool)
    ensures AfterMember(members, depth, fmt, "") == MemberSuffix(members == [], fmt) + MembersLeft(members, depth, fmt)
  {
    hide MembersThen, TabsThen;
    assert Cons('}', "") == "}";
  }

  lemma MembersLeftStep(members: seq<Member>, k: nat, depth: nat, fmt: bool)
    requires k < |members|
    ensures MembersLeft(members[k..], depth, fmt)
         == MemberThen(members[k], depth, fmt, "")
            + (MemberSuffix(k + 1 == |members|, fmt) + MembersLeft(members[k + 1..], depth, fmt))
  {
    hide MemberThen, AfterMember, MemberSuffix;
    assert members[k..][0] == members[k] && members[k..][1..] == members[k + 1..];
    var after := AfterMember(members[k + 1..], depth, fmt, "");
    MemberAppend(members[k], depth, fmt, "", after);
    assert "" + after == after;
    AfterMemberParts(members[k + 1..], depth, fmt);
  }

  lemma LeafText(depth: nat, fmt: bool)
    ensures Print(JNull, depth, fmt) == "null"
    ensures Print(JFalse, depth, fmt) == "false"
    ensures Print(JTrue, depth, fmt) == "true"
  {
  }

  lemma NumberText(n: Int32, depth: nat, fmt: bool)
    ensures Print(JNumber(n), depth, fmt) == PrintNumber(n)
  {
  }

  lemma StringText(s: CString, depth: nat, fmt: bool)
    ensures Print(JString(s), depth, fmt) == PrintString(s)
  {
  }

  lemma EmptyArrayText(depth: nat, fmt: bool)
    ensures Print(JArray([]), depth, fmt) == "[]"
  {
    assert Cons('[', Cons(']', "")) == "[]";
  }

  lemma EmptyObjectText(depth: nat, fmt: bool)
    ensures Print(JObject([]), depth, fmt) == if fmt then "{\n" + TabsThen(depth - 1, "}") else "{}"
  {
    assert Cons('}', "") == "}";
  }

  lemma MemberParts(m: Member, depth: nat, fmt: bool)
    ensures MemberThen(m, depth, fmt, "")
         == TabsThen(if fmt then depth else 0, "") + PrintString(m.name)
            + (if fmt then ":\t" else ":") + Print(m.value, depth, fmt)
  {
    hide ValueThen, StringThen;
    var colon := Cons(':', ConsIf(fmt, '\t', Print(m.value, depth, fmt)));
    StringAppend(m.name, "", colon);
    assert "" + colon == colon;
    TabsAppend(if fmt then depth else 0, "", PrintString(m.name) + colon);
    assert "" + (PrintString(m.name) + colon) == PrintString(m.name) + colon;
  }

  lemma MemberText(base: string, a: string, b: string, c: string, d: string)
    ensures base + a + b + c + d == base + (a + b + c + d)
    ensures base + a + b + c == base + (a + (b + c))
    ensures a + (b + (c + d)) == a + (b + c) + d
  {
  }

  lemma ArrayText(items: seq<Json>, depth: nat, fmt: bool)
    requires items != []
    ensures Print(JArray(items), depth, fmt) == "[" + ItemsLeft(items[0..], depth + 1, fmt)
  {
    assert items[0..] == items;
  }

  lemma ObjectText(members: seq<Member>, depth: nat, fmt: bool)
    requires members != []
    ensures Print(JObject(members), depth, fmt)
         == (if fmt then "{\n" else "{") + MembersLeft(members[0..], depth + 1, fmt)
  {
    assert members[0..] == members;
  }

  lemma NoItemsLeft(items: seq<Json>, depth: nat, fmt: bool)
    ensures ItemsLeft(items[|items|..], depth, fmt) == "]"
  {
  }

  lemma NoMembersLeft(members: seq<Member>, depth: nat, fmt: bool)
    ensures MembersLeft(members[|members|..], depth, fmt) == TabsThen(if fmt then depth - 1 else 0, "}")
  {
  }

  /** All the pieces of a member's text, in front of what is left after it. */
  lemma MembersLeftPieces(members: seq<Member>, k: nat, depth: nat, fmt: bool)
    requires k < |members|
    ensures MembersLeft(members[k..], depth, fmt)
         == TabsThen(if fmt then depth else 0, "") + PrintString(members[k].name) + (if fmt then ":\t" else ":")
            + Print(members[k].value, depth, fmt) + MemberSuffix(k + 1 == |members|, fmt)
            + MembersLeft(members[k + 1..], depth, fmt)
  {
    hide ValueThen, StringThen, TabsThen, MemberSuffix, MemberThen, MembersLeft;
    MembersLeftStep(members, k, depth, fmt);
    MemberParts(members[k], depth, fmt);
    ConcatAssociative(MemberThen(members[k], depth, fmt, ""), MemberSuffix(k + 1 == |members|, fmt),
                      MembersLeft(members[k + 1..], depth, fmt));
  }
}
