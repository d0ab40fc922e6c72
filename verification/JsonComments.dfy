/**
 What cJSON_Minify makes of the texts of the grammar with blanks and comments in them: the same text without.

 In particular, minifying a formatted print gives the unformatted print of the same tree.
 */
module JsonComments {
  import opened JsonText
  import opened JsonParse
  import opened JsonGrammar
  import opened JsonUnicode
  import opened JsonMinify
  import opened JsonRoundTrip

  // ----- literals -----

  /** The minifier ends a literal where it is closed. */
  lemma {:induction false} SpelledLength(body: string, s: string, t: string)
    requires Spells(body, s)
    ensures LiteralLength(body + ("\"" + t)) == |body| + 1
    decreases |body|
  {
    hide DecodeOne, EscapesTo, LiteralLength;
    var e := body + ("\"" + t);
    if body == [] {
      QuoteLength(t);
      assert e == "\"" + t;
    } else if body[0] != '\\' {
      SpelledLength(body[1..], s[1..], t);
      PlainLength([body[0]], body[1..] + ("\"" + t));
      assert e == [body[0]] + (body[1..] + ("\"" + t));
    } else if |body| >= 2 && body[1] in TWO_CHARACTERS {
      SpelledLength(body[2..], s[1..], t);
      BackslashLength(body[1], body[2..] + ("\"" + t));
      assert e == ['\\', body[1]] + (body[2..] + ("\"" + t));
    } else {
      var d := DecodeOne(s);
      var n := EscapeWidth(d.uc);
      LetterU(body, d.uc);
      SpelledLength(body[n..], d.rest, t);
      EscapeLength(body, d.uc, body[n..] + ("\"" + t));
      assert e == body[..n] + (body[n..] + ("\"" + t));
    }
  }

  lemma EscapeLength(e: string, uc: nat, t: string)
    requires EscapesTo(e, uc)
    ensures LiteralLength(e[..EscapeWidth(uc)] + t) == Plus(EscapeWidth(uc), LiteralLength(t))
  {
    hide Hex4;
    assert e[..2] == [e[0], e[1]];
    if uc < 0x10000 {
      HexLength(e[2..], uc, t);
      assert e[..6] + t == "\\u" + (e[2..][..4] + t);
      BackslashLength('u', e[2..][..4] + t);
    } else {
      var high, low := 0xD800 + (uc - 0x10000) / 0x400, 0xDC00 + (uc - 0x10000) % 0x400;
      HexLength(e[8..], low, t);
      var second := "\\u" + (e[8..][..4] + t);
      BackslashLength('u', e[8..][..4] + t);
      HexLength(e[2..], high, second);
      assert e[..12] + t == "\\u" + (e[2..][..4] + second);
      BackslashLength('u', e[2..][..4] + second);
    }
  }

  lemma QuoteLength(t: string)
    ensures LiteralLength("\"" + t) == 1
  {
  }

  lemma BackslashLength(c: char, t: string)
    requires c != NUL
    ensures LiteralLength(['\\', c] + t) == Plus(2, LiteralLength(t))
  {
    var e := ['\\', c] + t;
    assert e[1..] == [c] + t && e[2..] == t;
  }

  lemma HexLength(h: string, n: nat, t: string)
    requires Hex4(h, n)
    ensures LiteralLength(h[..4] + t) == Plus(4, LiteralLength(t))
  {
    HexOfIs(h[0], n / 0x1000);
    HexOfIs(h[1], n / 0x100 % 16);
    HexOfIs(h[2], n / 0x10 % 16);
    HexOfIs(h[3], n % 16);
    hide HexOf;
    PlainLength(h[..4], t);
  }

  lemma GivesText(body: string, s: string, t: string, w: string)
    requires Spells(body, s) && Gives(t, w)
    ensures Gives("\"" + (body + ("\"" + t)), "\"" + (body + ("\"" + w)))
  {
    hide Spells, LiteralLength;
    SpelledLength(body, s, t);
    var text, literal := "\"" + (body + ("\"" + t)), "\"" + (body + "\"");
    assert text[1..] == body + ("\"" + t);
    assert text[..|body| + 2] == literal && text[|body| + 2..] == t;
    assert literal + w == "\"" + (body + ("\"" + w));
  }

  // ----- comments -----

  /** Two slashes, and anything up to the end of the line. */
  predicate LineComment(c: string) {
    && |c| >= 3 && c[0] == '/' && c[1] == '/' && c[|c| - 1] == '\n'
    && forall i :: 2 <= i < |c| - 1 ==> c[i] != '\n' && c[i] != NUL
  }

  /** Anything between a slash with a star and the next star with a slash; the two stars may not be one. */
  predicate BlockComment(c: string) {
    && |c| >= 4 && c[0] == '/' && c[1] == '*' && c[|c| - 2] == '*' && c[|c| - 1] == '/' && NUL !in c
    && forall i :: 1 <= i < |c| - 2 ==> c[i] != '*' || c[i + 1] != '/'
  }

  /** Blanks and comments. */
  ghost predicate Commentary(g: string)
    decreases |g|
  {
    || g == []
    || (Whitespace(g[0]) && Commentary(g[1..]))
    || exists n :: 0 < n <= |g| && (LineComment(g[..n]) || BlockComment(g[..n])) && Commentary(g[n..])
  }

  lemma {:induction false} LineEnds(c: string, t: string)
    requires forall i :: 0 <= i < |c| ==> c[i] != '\n' && c[i] != NUL
    ensures LineLength(c + ("\n" + t)) == |c|
  {
    if c != [] {
      LineEnds(c[1..], t);
      assert (c + ("\n" + t))[1..] == c[1..] + ("\n" + t);
    }
  }

  lemma GivesLine(c: string, t: string, w: string)
    requires LineComment(c) && Gives(t, w)
    ensures Gives(c + t, w)
  {
    var line, text := c[..|c| - 1], c + t;
    assert forall i :: 0 <= i < |line| ==> line[i] != '\n' && line[i] != NUL;
    LineEnds(line, t);
    hide LineLength;
    assert text == line + ("\n" + t) && text[|line|..] == Cons('\n', t);
    assert NextRound(text) == Drop(|line|);
    GivesBlank('\n', t, w);
  }

  lemma {:induction false} CommentEnds(c: string, t: string)
    requires NUL !in c && forall i :: 0 <= i < |c| ==> c[i] != '*' || (if i + 1 < |c| then c[i + 1] else '*') != '/'
    ensures CommentLength(c + ("*/" + t)) == |c| + 2
  {
    var text := c + ("*/" + t);
    if c == [] {
      assert text[1..] == "/" + t;
    } else {
      assert text[1..] == c[1..] + ("*/" + t);
      CommentEnds(c[1..], t);
    }
  }

  lemma GivesBlock(c: string, t: string, w: string)
    requires BlockComment(c) && Gives(t, w)
    ensures Gives(c + t, w)
  {
    var inner, text := c[..|c| - 2], c + t;
    CommentEnds(inner, t);
    hide CommentLength;
    assert text == inner + ("*/" + t) && text[1..][0] == '*' && text[|c|..] == t;
    assert NextRound(text) == Drop(|c|);
  }

  /** cJSON_Minify takes blanks and comments out. */
  lemma {:induction false} GivesGap(g: string, t: string, w: string)
    requires Commentary(g) && Gives(t, w)
    ensures Gives(g + t, w)
    decreases |g|
  {
    hide Gives, LineComment, BlockComment;
    if g == [] {
      assert g + t == t;
    } else if Whitespace(g[0]) && Commentary(g[1..]) {
      GivesGap(g[1..], t, w);
      GivesBlank(g[0], g[1..] + t, w);
      assert g + t == Cons(g[0], g[1..] + t);
    } else {
      var n :| 0 < n <= |g| && (LineComment(g[..n]) || BlockComment(g[..n])) && Commentary(g[n..]);
      GivesGap(g[n..], t, w);
      if LineComment(g[..n]) { GivesLine(g[..n], g[n..] + t, w); } else { GivesBlock(g[..n], g[n..] + t, w); }
      assert g + t == g[..n] + (g[n..] + t);
    }
  }
  // ----- whole texts -----

  /** The tree without what stands between its parts. */
  function Bare(x: Syntax): (y: Syntax)
    decreases x, 1
  {
    match x
    case EmptyList(_) => EmptyList("")
    case List(items) => List(BareItems(items))
    case EmptyDict(_) => EmptyDict("")
    case Dict(entries) => Dict(BareEntries(entries))
    case _ => x
  }

  function BareItems(items: seq<Element>): (r: seq<Element>)
    ensures |r| == |items|
    decreases items, 0
  {
    if items == [] then [] else [Element("", Bare(items[0].value), "")] + BareItems(items[1..])
  }

  function BareEntries(entries: seq<Entry>): (r: seq<Entry>)
    ensures |r| == |entries|
    decreases entries, 0
  {
    if entries == [] then []
    else
      var e := entries[0];
      [Entry("", e.name, e.s, "", Element("", Bare(e.element.value), ""))] + BareEntries(entries[1..])
  }

  /** Nothing but blanks and comments stands between the parts of the tree, which are those of a text. */
  ghost predicate Commented(x: Syntax)
    decreases x, 1
  {
    match x
    case EmptyList(gap) => Commentary(gap)
    case List(items) => items != [] && forall i :: 0 <= i < |items| ==> CommentedElement(items[i])
    case EmptyDict(gap) => Commentary(gap)
    case Dict(entries) => entries != [] && forall i :: 0 <= i < |entries| ==> CommentedEntry(entries[i])
    case _ => WellFormed(x)
  }

  ghost predicate CommentedElement(e: Element)
    decreases e, 2
  {
    Commentary(e.before) && Commented(e.value) && Commentary(e.after)
  }

  ghost predicate CommentedEntry(e: Entry)
    decreases e, 3
  {
    Commentary(e.before) && Spells(e.name, e.s) && Commentary(e.gap) && CommentedElement(e.element)
  }

  /** A text with blanks and comments minifies to the same text without them. */
  lemma {:induction false} GivesTree(x: Syntax, t: string, w: string)
    requires Commented(x) && Gives(t, w)
    ensures Gives(SpellThen(x, t), SpellThen(Bare(x), w))
    decreases x, 1
  {
    hide Gives, Commentary, Spells, AllDigits, CommentedElement, CommentedEntry;
    match x
    case Word(s) => GivesWord(s, t, w);
    case Integer(negative, d) =>
      DigitsCopied(d);
      GivesWord(d, t, w);
      if negative { GivesWord("-", d + t, d + w); }
      else { assert "" + (d + t) == d + t && "" + (d + w) == d + w; }
    case Text(body, s) => GivesText(body, s, t, w);
    case EmptyList(gap) => GivesEmpty("[", gap, "]", t, w);
    case List(items) =>
      GivesItems(items, t, w);
      GivesWord("[", ItemsSpell(items, t), ItemsSpell(BareItems(items), w));
    case EmptyDict(gap) => GivesEmpty("{", gap, "}", t, w);
    case Dict(entries) =>
      GivesEntries(entries, t, w);
      GivesWord("{", EntriesSpell(entries, t), EntriesSpell(BareEntries(entries), w));
  }

  lemma DigitsCopied(d: string)
    requires AllDigits(d)
    ensures Copied(d)
  {
    forall i | 0 <= i < |d|
      ensures IsDigit(d[i])
    {
      DigitValue(d[i]);
    }
  }

  lemma GivesEmpty(open: string, gap: string, close: string, t: string, w: string)
    requires Commentary(gap) && Gives(t, w) && Copied(open) && Copied(close)
    ensures Gives(open + (gap + (close + t)), open + ("" + (close + w)))
  {
    hide Gives, Commentary;
    GivesWord(close, t, w);
    GivesGap(gap, close + t, close + w);
    GivesWord(open, gap + (close + t), close + w);
    assert "" + (close + w) == close + w;
  }

  lemma {:induction false} GivesElement(e: Element, t: string, w: string)
    requires CommentedElement(e) && Gives(t, w)
    ensures Gives(ElementSpell(e, t), SpellThen(Bare(e.value), w))
    decreases e, 2
  {
    hide Gives, Commentary, SpellThen, Bare;
    GivesGap(e.after, t, w);
    GivesTree(e.value, e.after + t, w);
    GivesGap(e.before, SpellThen(e.value, e.after + t), SpellThen(Bare(e.value), w));
  }

  lemma {:induction false} GivesItems(items: seq<Element>, t: string, w: string)
    requires items != [] && forall i :: 0 <= i < |items| ==> CommentedElement(items[i])
    requires Gives(t, w)
    ensures Gives(ItemsSpell(items, t), ItemsSpell(BareItems(items), w))
    decreases items, 0
  {
    hide Gives, Commentary, ElementSpell, Bare, CommentedElement;
    var bare, last := BareItems(items), |items| == 1;
    assert bare[1..] == BareItems(items[1..]);
    var tail := if last then "]" + t else "," + ItemsSpell(items[1..], t);
    var tail' := if last then "]" + w else "," + ItemsSpell(bare[1..], w);
    if last {
      GivesWord("]", t, w);
    } else {
      GivesItems(items[1..], t, w);
      GivesWord(",", ItemsSpell(items[1..], t), ItemsSpell(bare[1..], w));
    }
    GivesElement(items[0], tail, tail');
    BareElement(bare[0], tail');
  }

  lemma BareElement(e: Element, t: string)
    requires e.before == "" && e.after == ""
    ensures ElementSpell(e, t) == SpellThen(e.value, t)
  {
    hide SpellThen;
    assert "" + t == t && "" + SpellThen(e.value, t) == SpellThen(e.value, t);
  }

  lemma {:induction false} GivesEntry(e: Entry, t: string, w: string)
    requires CommentedEntry(e) && Gives(t, w)
    ensures Gives(EntrySpell(e, t), "\"" + (e.name + ("\"" + (":" + SpellThen(Bare(e.element.value), w)))))
    decreases e, 3
  {
    hide Gives, Commentary, Spells, SpellThen, ElementSpell, Bare, CommentedElement;
    var element, value := ElementSpell(e.element, t), SpellThen(Bare(e.element.value), w);
    GivesElement(e.element, t, w);
    GivesWord(":", element, value);
    GivesGap(e.gap, ":" + element, ":" + value);
    var name, name' := e.gap + (":" + element), ":" + value;
    GivesText(e.name, e.s, name, name');
    GivesGap(e.before, "\"" + (e.name + ("\"" + name)), "\"" + (e.name + ("\"" + name')));
  }

  lemma {:induction false} GivesEntries(entries: seq<Entry>, t: string, w: string)
    requires entries != [] && forall i :: 0 <= i < |entries| ==> CommentedEntry(entries[i])
    requires Gives(t, w)
    ensures Gives(EntriesSpell(entries, t), EntriesSpell(BareEntries(entries), w))
    decreases entries, 0
  {
    hide Gives, EntrySpell, Bare, CommentedEntry;
    var bare, last := BareEntries(entries), |entries| == 1;
    assert bare[1..] == BareEntries(entries[1..]);
    var tail := if last then "}" + t else "," + EntriesSpell(entries[1..], t);
    var tail' := if last then "}" + w else "," + EntriesSpell(bare[1..], w);
    if last {
      GivesWord("}", t, w);
    } else {
      GivesEntries(entries[1..], t, w);
      GivesWord(",", EntriesSpell(entries[1..], t), EntriesSpell(bare[1..], w));
    }
    GivesEntry(entries[0], tail, tail');
    BareEntry(bare[0], tail');
  }

  lemma BareEntry(e: Entry, t: string)
    requires e.before == "" && e.gap == "" && e.element.before == "" && e.element.after == ""
    ensures EntrySpell(e, t) == "\"" + (e.name + ("\"" + (":" + SpellThen(e.element.value, t))))
  {
    hide SpellThen, ElementSpell;
    BareElement(e.element, t);
    var colon := ":" + SpellThen(e.element.value, t);
    assert "" + colon == colon;
    assert EntrySpell(e, t) == "" + ("\"" + (e.name + ("\"" + colon)));
  }

  /** What is left is a text of the grammar, and without comments it had the same meaning before. */
  lemma {:induction false} BareMeans(x: Syntax)
    requires Commented(x)
    ensures WellFormed(Bare(x)) && (WellFormed(x) ==> Meaning(Bare(x)) == Meaning(x))
    decreases x, 1
  {
    hide Commentary, Spells, AllDigits, CommentedElement, CommentedEntry, WellFormedElement, WellFormedEntry;
    match x
    case List(items) =>
      BareItemsMean(items);
      assert WellFormed(List(BareItems(items)));
      if WellFormed(x) { assert Meaning(x) == JArray(ItemMeanings(items)); }
    case Dict(entries) =>
      BareEntriesMean(entries);
      assert WellFormed(Dict(BareEntries(entries)));
      if WellFormed(x) { assert Meaning(x) == JObject(EntryMeanings(entries)); }
    case _ =>
  }

  lemma {:induction false} BareItemsMean(items: seq<Element>)
    requires forall i :: 0 <= i < |items| ==> CommentedElement(items[i])
    ensures var bare := BareItems(items);
            && (forall i :: 0 <= i < |bare| ==> WellFormedElement(bare[i]))
            && ((forall i :: 0 <= i < |items| ==> WellFormedElement(items[i])) ==>
                  ItemMeanings(bare) == ItemMeanings(items))
    decreases items, 0
  {
    hide Commentary, Bare, Meaning, WellFormed;
    if items != [] {
      var bare := BareItems(items);
      BareMeans(items[0].value);
      BareItemsMean(items[1..]);
      assert bare[1..] == BareItems(items[1..]);
      assert WellFormedElement(bare[0]);
      assert forall i :: 0 <= i < |bare| - 1 ==> bare[i + 1] == bare[1..][i];
    }
  }

  lemma {:induction false} BareEntriesMean(entries: seq<Entry>)
    requires forall i :: 0 <= i < |entries| ==> CommentedEntry(entries[i])
    ensures var bare := BareEntries(entries);
            && (forall i :: 0 <= i < |bare| ==> WellFormedEntry(bare[i]))
            && ((forall i :: 0 <= i < |entries| ==> WellFormedEntry(entries[i])) ==>
                  EntryMeanings(bare) == EntryMeanings(entries))
    decreases entries, 0
  {
    hide Commentary, Bare, Meaning, WellFormed, Spells;
    if entries != [] {
      var bare := BareEntries(entries);
      assert CommentedElement(entries[0].element);
      BareMeans(entries[0].element.value);
      BareEntriesMean(entries[1..]);
      assert bare[1..] == BareEntries(entries[1..]);
      assert WellFormedElement(bare[0].element);
      assert WellFormedEntry(entries[0]) ==> WellFormedElement(entries[0].element);
      assert forall i :: 0 <= i < |bare| - 1 ==> bare[i + 1] == bare[1..][i];
    }
  }

  /** cJSON_Minify takes the blanks and comments out of a text, and what it leaves parses to what was meant. */
  lemma MinifyCommented(x: Syntax, before: string, after: string)
    requires Commented(x) && Commentary(before) && Commentary(after)
    ensures Minify(before + SpellThen(x, after)) == Done(SpellThen(Bare(x), ""))
    ensures WellFormed(Bare(x)) && ParseDocument(SpellThen(Bare(x), ""), true) == Ok(Meaning(Bare(x)), "")
  {
    hide Commented, Commentary, SpellThen, WellFormed, Meaning, ParseDocument;
    GivesGap(after, "", "");
    assert after + "" == after;
    GivesTree(x, after, "");
    GivesGap(before, SpellThen(x, after), SpellThen(Bare(x), ""));
    BareMeans(x);
    DocumentReads(Bare(x), "", "");
    assert "" + SpellThen(Bare(x), "") == SpellThen(Bare(x), "");
  }

  /** A comment that is not closed leads past the end. */
  lemma {:induction false} UnclosedComment(c: string)
    requires NUL !in c && forall i :: 0 <= i < |c| - 1 ==> c[i] != '*' || c[i + 1] != '/'
    ensures CommentLength(c) == -1
    ensures |c| >= 2 && c[0] == '/' && c[1] == '*' ==> Minify(c) == RunsOff
  {
    if c != [] { UnclosedComment(c[1..]); }
  }

  /** A slash right behind the star closes a comment that C would leave open. */
  lemma SharedStar(t: string)
    ensures Minify("/*/" + t) == Minify(t)
  {
    var text := "/*/" + t;
    assert text[1..][0] == '*' && text[1..][1..] == "/" + t && text[3..] == t;
    assert CommentLength(text) == 3;
  }

  // ----- prints -----

  lemma {:induction false} BlanksAreCommentary(g: string)
    requires forall i :: 0 <= i < |g| ==> Whitespace(g[i])
    ensures Commentary(g)
  {
    if g != [] { BlanksAreCommentary(g[1..]); }
  }

  lemma NewLineCommentary(fmt: bool, n: int)
    ensures Commentary(NewLine(fmt, n))
  {
    BlanksAreCommentary(NewLine(fmt, n));
  }

  /** A formatted print without its blanks is the unformatted one, where depths do not show. */
  lemma {:induction false} BareLayout(v: Json, depth: nat, depth': nat, fmt: bool)
    ensures Commented(Layout(v, depth, fmt)) && Bare(Layout(v, depth, fmt)) == Layout(v, depth', false)
    decreases v, 1
  {
    hide Commentary, WellFormed;
    match v
    case JArray(items) =>
      if items == [] { BlanksAreCommentary(""); } else { BareItemsLayout(items, depth + 1, depth' + 1, fmt, true); }
    case JObject(members) =>
      if members == [] { NewLineCommentary(fmt, depth - 1); }
      else { BareMembersLayout(members, depth + 1, depth' + 1, fmt); }
    case _ => LayoutMeans(v, depth, fmt);
  }

  lemma {:induction false} BareItemsLayout(items: seq<Json>, depth: nat, depth': nat, fmt: bool, first: bool)
    ensures var es := ItemsLayout(items, depth, fmt, first);
            && (forall i :: 0 <= i < |es| ==> CommentedElement(es[i]))
            && BareItems(es) == ItemsLayout(items, depth', false, first)
    decreases items, 0
  {
    hide Layout, Commentary, Bare, Commented;
    if items != [] {
      var es := ItemsLayout(items, depth, fmt, first);
      BareLayout(items[0], depth, depth', fmt);
      BareItemsLayout(items[1..], depth, depth', fmt, false);
      BlanksAreCommentary("");
      BlanksAreCommentary(" ");
      assert CommentedElement(es[0]);
      assert es[1..] == ItemsLayout(items[1..], depth, fmt, false);
    }
  }

  lemma {:induction false} BareMembersLayout(members: seq<Member>, depth: nat, depth': nat, fmt: bool)
    ensures var es := MembersLayout(members, depth, fmt);
            && (forall i :: 0 <= i < |es| ==> CommentedEntry(es[i]))
            && BareEntries(es) == MembersLayout(members, depth', false)
    decreases members, 0
  {
    hide Layout, Commentary, Bare, Commented, Spells, CommentedEntry;
    if members != [] {
      var es := MembersLayout(members, depth, fmt);
      BareMemberLayout(members[0], depth, depth', fmt, |members| == 1);
      BareMembersLayout(members[1..], depth, depth', fmt);
      assert es[1..] == MembersLayout(members[1..], depth, fmt);
    }
  }

  lemma {:induction false} BareMemberLayout(m: Member, depth: nat, depth': nat, fmt: bool, last: bool)
    ensures var e, e' := MemberLayout(m, depth, fmt, last), MemberLayout(m, depth', false, last);
            && CommentedEntry(e) && e' == Entry("", e.name, e.s, "", Element("", Bare(e.element.value), ""))
    decreases m, 2
  {
    hide Layout, Commentary, Bare, Commented, Spells;
    BareLayout(m.value, depth, depth', fmt);
    PrintedSpells(m.name);
    BlanksAreCommentary("");
    BlanksAreCommentary("\t");
    NewLineCommentary(fmt, depth);
    NewLineCommentary(fmt, depth - 1);
    assert CommentedElement(MemberLayout(m, depth, fmt, last).element);
  }

  /** Minifying a print, formatted or not, gives the unformatted print byte for byte. */
  lemma MinifyPrint(v: Json, fmt: bool)
    ensures Minify(Print(v, 0, fmt)) == Done(Print(v, 0, false))
  {
    hide ValueThen, SpellThen, Bare, Commented;
    PrintsLayout(v, 0, fmt, "");
    PrintsLayout(v, 0, false, "");
    BareLayout(v, 0, 0, fmt);
    GivesTree(Layout(v, 0, fmt), "", "");
  }

  /** So minified prints still parse to their trees. */
  lemma MinifyKeepsMeaning(v: Json, fmt: bool)
    ensures Minify(Print(v, 0, fmt)).Done?
    ensures ParseDocument(Minify(Print(v, 0, fmt)).text, true) == Ok(v, "")
  {
    MinifyPrint(v, fmt);
    DocumentRoundTrip(v, false, "", "");
    assert "" + (Print(v, 0, false) + "") == Print(v, 0, false);
  }
}
