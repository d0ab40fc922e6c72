/**
 cJSON_Minify on any text that the parser reads to its end: what is left still reads as the same tree,
 provided the minifier and the parser agree on where each string literal ends.
 */
module JsonMeaning {
  import opened JsonText
  import opened JsonParse
  import opened JsonReader
  import opened JsonMinify
  import Grammar = JsonGrammar

  /** The parser, too, ends the literal `n` characters behind its opening quote, if it can read it at all. */
  predicate EndsAlike(t: string, n: nat) {
    n <= |t| && (ParseChars(t).Ok? ==> ParseChars(t).rest == t[n..])
  }

  /** Every literal that the minifier meets is closed, and ends where it ends for the parser. */
  predicate SameLiterals(t: string)
    decreases |t|
  {
    if Peek(t) == NUL then true
    else
      match NextRound(t)
      case Drop(k) => SameLiterals(t[k..])
      case Copy(k) => (t[0] == '\"' ==> EndsAlike(t[1..], k - 1)) && SameLiterals(t[k..])
      case Stray => false
  }

  lemma {:induction false} Completes(t: string)
    requires SameLiterals(t)
    ensures Minify(t).Done?
    decreases |t|
  {
    if Peek(t) != NUL {
      var r := NextRound(t);
      hide NextRound;
      Completes(t[r.k..]);
    }
  }

  /** What the minifier leaves of a text. */
  function Kept(t: string): (w: string)
    requires SameLiterals(t)
  {
    Completes(t);
    Minify(t).text
  }

  // ----- one token -----

  lemma KeepsChar(t: string)
    requires SameLiterals(t) && Peek(t) !in {NUL, '/', '\"'} && !Whitespace(t[0])
    ensures SameLiterals(t[1..]) && Kept(t) == [t[0]] + Kept(t[1..])
  {
    assert NextRound(t) == Copy(1);
    hide NextRound;
    Completes(t);
    Completes(t[1..]);
    assert t[..1] == [t[0]];
  }

  lemma DropsBlank(t: string)
    requires SameLiterals(t) && Peek(t) != NUL && Whitespace(t[0])
    ensures SameLiterals(t[1..]) && Kept(t) == Kept(t[1..])
  {
  }

  lemma KeepsEnd(t: string)
    requires SameLiterals(t) && Peek(t) == NUL
    ensures Kept(t) == ""
  {
  }

  lemma {:induction false} KeepsWord(word: string, t: string)
    requires StartsWith(t, word) && Copied(word) && SameLiterals(t)
    ensures SameLiterals(t[|word|..]) && Kept(t) == word + Kept(t[|word|..])
  {
    hide SameLiterals, Kept;
    if word == [] {
      assert t[0..] == t && [] + Kept(t) == Kept(t);
    } else {
      assert t[0] == word[0] by { assert t[..|word|][0] == word[0]; }
      KeepsChar(t);
      assert t[1..][..|word| - 1] == t[..|word|][1..];
      KeepsWord(word[1..], t[1..]);
      assert t[1..][|word| - 1..] == t[|word|..] && [word[0]] + word[1..] == word;
      ConcatAssociative([word[0]], word[1..], Kept(t[|word|..]));
    }
  }

  /** Blanks: the minifier drops four of them, the parser skips whatever it leaves. */
  lemma {:induction false} KeepsSkip(t: string)
    requires SameLiterals(t) && Peek(Skip(t)) != '/'
    ensures SameLiterals(Skip(t)) && Skip(Kept(t)) == Kept(Skip(t))
  {
    hide SameLiterals, Kept;
    if Peek(t) == NUL {
      KeepsEnd(t);
    } else if Peek(t) as int > 32 {
      KeepsHead(t);
    } else {
      if Whitespace(t[0]) {
        DropsBlank(t);
      } else {
        KeepsChar(t);
        assert ([t[0]] + Kept(t[1..]))[1..] == Kept(t[1..]);
      }
      KeepsSkip(t[1..]);
    }
  }

  lemma KeepsHead(t: string)
    requires SameLiterals(t) && Peek(t) as int > 32 && t[0] != '/'
    ensures Peek(Kept(t)) == t[0] && Skip(Kept(t)) == Kept(t)
  {
    var r := NextRound(t);
    assert r.Copy?;
    hide NextRound;
    Completes(t[r.k..]);
    Completes(t);
    assert Kept(t) == t[..r.k] + Kept(t[r.k..]);
  }

  // ----- numbers -----

  /** Blanks, a separator, a closing bracket or nothing. */
  predicate EndsValue(t: string) {
    Peek(Skip(t)) in {NUL, ',', ']', '}'}
  }

  lemma {:induction false} KeepsEndOfValue(t: string)
    requires SameLiterals(t) && EndsValue(t)
    ensures Grammar.EndsNumber(Kept(t))
  {
    hide SameLiterals, Kept;
    if Peek(t) == NUL {
      KeepsEnd(t);
    } else if Peek(t) as int > 32 {
      KeepsHead(t);
    } else if Whitespace(t[0]) {
      DropsBlank(t);
      KeepsEndOfValue(t[1..]);
    } else {
      KeepsChar(t);
    }
  }

  /** A run of digits reads the same in front of another text that does not go on with it. */
  lemma {:induction false} DigitsElsewhere(n: int, d: string, x: string, w: string)
    requires ReadDigits(n, d + x).1 == x && !IsDigit(Peek(w))
    ensures ReadDigits(n, d + w) == (ReadDigits(n, d + x).0, w)
    ensures forall i :: 0 <= i < |d| ==> IsDigit(d[i])
    decreases |d|
  {
    if d == [] {
      assert d + x == x && d + w == w;
    } else {
      var (dx, dw) := (d + x, d + w);
      assert dx[1..] == d[1..] + x && dw[1..] == d[1..] + w;
      DigitsElsewhere(n * 10 + (d[0] as int - '0' as int), d[1..], x, w);
    }
  }

  lemma {:induction false} DigitsLeave(n: int, t: string)
    ensures var x := ReadDigits(n, t).1; t == t[..|t| - |x|] + x
    ensures !IsDigit(Peek(ReadDigits(n, t).1))
    decreases |t|
  {
    if t != [] && IsDigit(t[0]) {
      DigitsLeave(n * 10 + (t[0] as int - '0' as int), t[1..]);
      var x := ReadDigits(n, t).1;
      assert t[1..] == t[1..][..|t| - 1 - |x|] + x;
    }
  }

  lemma UnsignedElsewhere(d: string, x: string, w: string)
    requires ReadUnsigned(d + x).1 == x && Grammar.EndsNumber(w)
    ensures ReadUnsigned(d + w) == (ReadUnsigned(d + x).0, w)
    ensures forall i :: 0 <= i < |d| ==> IsDigit(d[i])
  {
    var dx, dw := d + x, d + w;
    if d == [] {
      assert dx == x && dw == w;
      if '1' <= Peek(x) <= '9' { DigitsLeave(0, x); }
    } else if d[0] == '0' {
      assert dx[1..] == d[1..] + x && dw[1..] == d[1..] + w;
      if |d| == 1 {
        assert dx[1..] == x && dw[1..] == w;
        if '1' <= Peek(x) <= '9' { DigitsLeave(0, x); }
      } else {
        DigitsElsewhere(0, d[1..], x, w);
      }
    } else {
      DigitsElsewhere(0, d, x, w);
    }
  }

  lemma UnsignedLeaves(t: string)
    ensures var x := ReadUnsigned(t).1; t == t[..|t| - |x|] + x
  {
    var t1 := if Peek(t) == '0' then t[1..] else t;
    DigitsLeave(0, t1);
  }

  /** The text of a number: its sign, its digits and what follows. */
  lemma NumberParts(t: string) returns (sign: string, d: string)
    requires Peek(t) == '-' || IsDigit(Peek(t))
    requires ParseNumber(t).Ok?
    ensures t == sign + (d + ParseNumber(t).rest) && sign == if t[0] == '-' then "-" else ""
    ensures ReadUnsigned(d + ParseNumber(t).rest).1 == ParseNumber(t).rest
  {
    hide ReadUnsigned;
    var k := if t[0] == '-' then 1 else 0;
    var unsigned := t[k..];
    UnsignedLeaves(unsigned);
    var x := ReadUnsigned(unsigned).1;
    sign, d := t[..k], unsigned[..|unsigned| - |x|];
    assert d + x == unsigned && sign + unsigned == t;
  }

  lemma NumberElsewhere(sign: string, d: string, x: string, w: string)
    requires sign == "" || sign == "-"
    requires var t := sign + (d + x);
             && (Peek(t) == '-' || IsDigit(Peek(t))) && (t[0] == '-' <==> sign == "-")
             && ParseNumber(t).Ok? && ParseNumber(t).rest == x
    requires ReadUnsigned(d + x).1 == x && Grammar.EndsNumber(w)
    requires Peek(sign + (d + w)) == Peek(sign + (d + x))
    ensures ParseNumber(sign + (d + w)) == Ok(ParseNumber(sign + (d + x)).value, w)
  {
    hide ReadUnsigned;
    UnsignedElsewhere(d, x, w);
    var t, t' := sign + (d + x), sign + (d + w);
    assert sign == "-" ==> t[1..] == d + x && t'[1..] == d + w;
    assert sign == "" ==> t == d + x && t' == d + w;
  }

  lemma KeepsNumber(t: string)
    requires Peek(t) == '-' || IsDigit(Peek(t))
    requires SameLiterals(t) && ParseNumber(t).Ok? && EndsValue(ParseNumber(t).rest)
    ensures SameLiterals(ParseNumber(t).rest) && Peek(Kept(t)) == t[0]
    ensures ParseNumber(Kept(t)) == Ok(ParseNumber(t).value, Kept(ParseNumber(t).rest))
  {
    hide ReadUnsigned, SameLiterals, Kept, EndsValue, ParseNumber;
    var x := ParseNumber(t).rest;
    var sign, d := NumberParts(t);
    UnsignedElsewhere(d, x, "");
    var word := sign + d;
    ConcatAssociative(sign, d, x);
    assert t[..|word|] == word && t[|word|..] == x;
    KeepsWord(word, t);
    ConcatAssociative(sign, d, Kept(x));
    KeepsEndOfValue(x);
    KeepsHead(t);
    NumberElsewhere(sign, d, x, Kept(x));
  }

  // ----- strings -----

  /** An escape takes one character behind its backslash, or five, or eleven. */
  lemma EscapeLeaves(t: string)
    requires ParseEscape(t).Ok?
    ensures Peek(t) != NUL
    ensures var x := ParseEscape(t).rest;
            && |t| - |x| in (if t[0] != 'u' then {1} else {5, 11})
            && x == t[|t| - |x|..]
    ensures t[0] != 'u' ==> ParseEscape(t).value == [LongEscape(t[0])]
  {
    hide Utf8, ParseHex4;
  }

  /** An escape reads the same in front of another text. */
  lemma EscapeElsewhere(q: string, x: string, w: string, more: string)
    requires ParseEscape(q + x).Ok? && ParseEscape(q + x).rest == more + x
    requires Peek(more + x) == '\\' ==> |more| >= 2
    requires Peek(more + w) == '\\' ==> |more| >= 2
    ensures ParseEscape(q + w) == Ok(ParseEscape(q + x).value, more + w)
  {
    hide ParseEscape;
    var t, t' := q + x, q + w;
    EscapeLeaves(t);
    var n := |q| - |more|;
    assert t[n..] == q[n..] + x && t[n..][..|more|] == more;
    assert q[n..] == more;
    if t[0] != 'u' {
      SimpleEscape(t');
      assert t'[1..] == more + w;
    } else if n == 5 {
      ShortUnicodeElsewhere(q, x, w);
    } else {
      LongUnicodeElsewhere(q, x, w);
    }
  }

  lemma SimpleEscape(t: string)
    requires Peek(t) != NUL && t[0] != 'u'
    ensures ParseEscape(t) == Ok([LongEscape(t[0])], t[1..])
  {
  }

  lemma ShortUnicodeElsewhere(q: string, x: string, w: string)
    requires |q| >= 5 && q[0] == 'u'
    requires ParseEscape(q + x).Ok? && ParseEscape(q + x).rest == q[5..] + x
    requires Peek(q[5..] + x) == '\\' || Peek(q[5..] + w) == '\\' ==> |q| >= 7
    ensures ParseEscape(q + w) == Ok(ParseEscape(q + x).value, q[5..] + w)
  {
    hide Utf8, ParseHex4;
    var t, t' := q + x, q + w;
    SameHex(q[1..], x, w);
    assert t[1..] == q[1..] + x && t'[1..] == q[1..] + w && t[..5] == q[..5] == t'[..5];
    assert t[5..] == q[5..] + x && t'[5..] == q[5..] + w;
    if |q| >= 7 {
      assert Peek(t[5..]) == q[5] == Peek(t'[5..]) && Peek(t[6..]) == q[6] == Peek(t'[6..]);
    }
  }

  lemma LongUnicodeElsewhere(q: string, x: string, w: string)
    requires |q| >= 11 && q[0] == 'u'
    requires ParseEscape(q + x).Ok? && ParseEscape(q + x).rest == q[11..] + x
    ensures ParseEscape(q + w) == Ok(ParseEscape(q + x).value, q[11..] + w)
  {
    hide Utf8, ParseHex4;
    var t, t' := q + x, q + w;
    SameHex(q[1..], x, w);
    SameHex(q[7..], x, w);
    assert t[1..] == q[1..] + x && t'[1..] == q[1..] + w && t[..5] == q[..5] == t'[..5];
    assert t[7..] == q[7..] + x && t'[7..] == q[7..] + w && t[7..11] == q[7..11] == t'[7..11];
    assert |t[5..]| > |t[11..]| && t'[11..] == q[11..] + w;
    assert Peek(t[5..]) == q[5] == Peek(t'[5..]) && Peek(t[6..]) == q[6] == Peek(t'[6..]);
  }

  lemma SameHex(q: string, x: string, w: string)
    requires |q| >= 4
    ensures ParseHex4(q + x) == ParseHex4(q + w)
  {
    var a, b := q + x, q + w;
    assert a[0] == b[0] && a[1] == b[1] && a[2] == b[2] && a[3] == b[3];
  }

  /** The contents of a literal read the same in front of another text. */
  lemma {:induction false} CharsElsewhere(p: string, x: string, w: string)
    requires ParseChars(p + x).Ok? && ParseChars(p + x).rest == x
    requires Peek(x) == NUL ==> Peek(w) == NUL
    ensures ParseChars(p + w) == Ok(ParseChars(p + x).value, w)
    decreases |p|
  {
    hide ParseEscape;
    var t, t' := p + x, p + w;
    if p == [] {
      assert t == x && t' == w;
    } else if p[0] == '\"' {
      assert t[1..] == p[1..] + x && |t[1..]| == |x|;
      assert t'[1..] == p[1..] + w;
    } else if p[0] != '\\' {
      assert t[1..] == p[1..] + x && t'[1..] == p[1..] + w;
      CharsElsewhere(p[1..], x, w);
    } else {
      EscapeThenElsewhere(p, x, w);
    }
  }

  lemma {:induction false} EscapeThenElsewhere(p: string, x: string, w: string)
    requires p != [] && p[0] == '\\'
    requires ParseChars(p + x).Ok? && ParseChars(p + x).rest == x
    requires Peek(x) == NUL ==> Peek(w) == NUL
    ensures ParseChars(p + w) == Ok(ParseChars(p + x).value, w)
    decreases |p|, 0
  {
    hide ParseEscape;
    var t, t' := p + x, p + w;
    assert t[1..] == p[1..] + x && t'[1..] == p[1..] + w;
    var e := ParseEscape(t[1..]);
    if Peek(e.rest) == '\\' { EscapeNext(e.rest); }
    CharsLeave(e.rest);
    var more := e.rest[..|e.rest| - |x|];
    assert e.rest == more + x;
    if more == [] { NoneRead(e.rest, x); }
    EscapeElsewhere(p[1..], x, w, more);
    CharsElsewhere(more, x, w);
  }

  /** A literal that goes on with an escape takes two characters more at least. */
  lemma EscapeNext(t: string)
    requires ParseChars(t).Ok? && Peek(t) == '\\'
    ensures |ParseChars(t).rest| + 2 <= |t|
  {
  }

  lemma NoneRead(t: string, x: string)
    requires t == x && ParseChars(t).Ok? && ParseChars(t).rest == x
    ensures Peek(x) == NUL
  {
  }

  lemma {:induction false} CharsLeave(t: string)
    requires ParseChars(t).Ok?
    ensures var x := ParseChars(t).rest; t == t[..|t| - |x|] + x
    decreases |t|
  {
    if Peek(t) == NUL || t[0] == '\"' {
    } else if t[0] != '\\' {
      CharsLeave(t[1..]);
      var x := ParseChars(t).rest;
      assert t[1..] == t[1..][..|t| - 1 - |x|] + x;
    } else {
      var e := ParseEscape(t[1..]);
      EscapeLeaves(t[1..]);
      hide ParseEscape;
      CharsLeave(e.rest);
      var x := ParseChars(t).rest;
      assert e.rest == e.rest[..|e.rest| - |x|] + x;
    }
  }

  /** The minifier copies a literal as a whole. */
  lemma KeepsLiteral(t: string) returns (k: nat)
    requires Peek(t) == '\"' && SameLiterals(t)
    ensures 1 <= k <= |t| && EndsAlike(t[1..], k - 1)
    ensures SameLiterals(t[k..]) && Kept(t) == t[..k] + Kept(t[k..])
  {
    k := NextRound(t).k;
    hide NextRound, EndsAlike;
    Completes(t);
    Completes(t[k..]);
  }

  lemma KeepsString(t: string)
    requires Peek(t) == '\"' && SameLiterals(t) && ParseString(t).Ok?
    ensures SameLiterals(ParseString(t).rest) && Peek(Kept(t)) == '\"'
    ensures ParseString(Kept(t)) == Ok(ParseString(t).value, Kept(ParseString(t).rest))
  {
    hide SameLiterals, Kept, ParseChars;
    var k := KeepsLiteral(t);
    var p, x := t[1..k], t[k..];
    assert t[1..][k - 1..] == x && t[1..] == p + x && Kept(t)[1..] == p + Kept(x);
    if Peek(x) == NUL { KeepsEnd(x); }
    CharsElsewhere(p, x, Kept(x));
  }

  // ----- values -----

  /** A value begins with one of these. */
  lemma ValueBegins(t: string)
    requires ParseValue(t).Ok?
    ensures Peek(t) as int > 32 && t[0] !in {'/', ',', ']', '}', ':'}
    ensures Skip(t) == t
  {
    hide ParseArray, ParseObject, ParseString, ParseNumber;
    assert StartsWith(t, "null") ==> t[0] == 'n' by { assert StartsWith(t, "null") ==> t[..4][0] == 'n'; }
    assert StartsWith(t, "false") ==> t[0] == 'f' by { assert StartsWith(t, "false") ==> t[..5][0] == 'f'; }
    assert StartsWith(t, "true") ==> t[0] == 't' by { assert StartsWith(t, "true") ==> t[..4][0] == 't'; }
  }

  /** A word of the language. */
  lemma KeepsConstant(t: string, word: string, v: Json)
    requires (word, v) in {("null", JNull), ("false", JFalse), ("true", JTrue)}
    requires SameLiterals(t) && StartsWith(t, word)
    ensures SameLiterals(t[|word|..]) && ParseValue(Kept(t)) == Ok(v, Kept(t[|word|..]))
  {
    hide SameLiterals, Kept, ParseArray, ParseObject, ParseString, ParseNumber;
    KeepsWord(word, t);
    var w := Kept(t);
    assert w[..|word|] == word && w[|word|..] == Kept(t[|word|..]);
    assert w[0] == word[0];
    assert StartsWith(w, "null") ==> w[..4][0] == 'n';
    assert StartsWith(w, "false") ==> w[..5][0] == 'f';
  }

  lemma {:induction false} KeepsValue(t: string)
    requires SameLiterals(t) && ParseValue(t).Ok? && EndsValue(ParseValue(t).rest)
    ensures SameLiterals(ParseValue(t).rest)
    ensures ParseValue(Kept(t)) == Ok(ParseValue(t).value, Kept(ParseValue(t).rest))
    decreases |t|, 2
  {
    hide SameLiterals, Kept, ParseArray, ParseObject, ParseString, ParseNumber, EndsValue;
    if StartsWith(t, "null") {
      KeepsConstant(t, "null", JNull);
    } else if StartsWith(t, "false") {
      KeepsConstant(t, "false", JFalse);
    } else if StartsWith(t, "true") {
      KeepsConstant(t, "true", JTrue);
    } else {
      ValueBegins(t);
      KeepsHead(t);
      Grammar.Dispatch(t);
      Grammar.Dispatch(Kept(t));
      if Peek(t) == '\"' {
        KeepsString(t);
      } else if Peek(t) == '-' || IsDigit(Peek(t)) {
        KeepsNumber(t);
      } else if Peek(t) == '[' {
        KeepsArray(t);
      } else {
        KeepsObject(t);
      }
    }
  }

  /** A bracket, brace, comma or colon in front of a text. */
  lemma KeepsMark(t: string)
    requires SameLiterals(t) && Peek(t) in {'[', ']', '{', '}', ',', ':'}
    ensures SameLiterals(t[1..]) && Peek(Kept(t)) == t[0] && Kept(t)[1..] == Kept(t[1..])
  {
    hide SameLiterals, Kept;
    KeepsChar(t);
  }

  lemma {:induction false} KeepsArray(t: string)
    requires Peek(t) == '[' && SameLiterals(t) && ParseArray(t).Ok?
    ensures SameLiterals(ParseArray(t).rest) && Peek(Kept(t)) == '['
    ensures ParseArray(Kept(t)) == Ok(ParseArray(t).value, Kept(ParseArray(t).rest))
    decreases |t|, 1
  {
    hide SameLiterals, Kept, Skip, ParseItems;
    var t1 := Skip(t[1..]);
    KeepsMark(t);
    if Peek(t1) == ']' {
      KeepsSkip(t[1..]);
      KeepsMark(t1);
    } else {
      ItemsBegin(t1);
      Grammar.SkipTwice(t[1..]);
      KeepsSkip(t[1..]);
      KeepsHead(t1);
      KeepsItems(t1);
    }
  }

  lemma ItemsBegin(t: string)
    requires ParseItems(t).Ok?
    ensures Peek(Skip(t)) as int > 32 && Peek(Skip(t)) !in {'/', ',', ']', '}', ':'}
  {
    hide ParseValue;
    ValueBegins(Skip(t));
  }

  lemma {:induction false} KeepsItems(t: string)
    requires SameLiterals(t) && ParseItems(t).Ok?
    ensures SameLiterals(ParseItems(t).rest)
    ensures ParseItems(Kept(t)) == Ok(ParseItems(t).value, Kept(ParseItems(t).rest))
    decreases |t|, 3
  {
    hide SameLiterals, Kept, Skip, ParseValue;
    ItemsBegin(t);
    KeepsSkip(t);
    var t1 := ParseValue(Skip(t)).rest;
    var t2 := Skip(t1);
    KeepsValue(Skip(t));
    KeepsSkip(t1);
    KeepsMark(t2);
    if Peek(t2) == ',' { KeepsItems(t2[1..]); }
  }

  lemma MemberBegins(t: string)
    requires ParseMember(t).Ok?
    ensures Peek(Skip(t)) == '\"' && ParseString(Skip(t)).Ok?
    ensures var t2 := Skip(ParseString(Skip(t)).rest);
            Peek(t2) == ':' && ParseValue(Skip(t2[1..])).Ok? && Peek(Skip(t2[1..])) != '/'
  {
    hide ParseValue, Skip;
    var t2 := Skip(ParseString(Skip(t)).rest);
    ValueBegins(Skip(t2[1..]));
  }

  lemma {:induction false} KeepsMember(t: string)
    requires SameLiterals(t) && ParseMember(t).Ok? && EndsValue(ParseMember(t).rest)
    ensures SameLiterals(ParseMember(t).rest)
    ensures ParseMember(Kept(t)) == Ok(ParseMember(t).value, Kept(ParseMember(t).rest))
    decreases |t|, 3
  {
    hide SameLiterals, Kept, Skip, ParseValue, ParseString, EndsValue;
    MemberBegins(t);
    KeepsSkip(t);
    KeepsString(Skip(t));
    var t1 := ParseString(Skip(t)).rest;
    var t2 := Skip(t1);
    KeepsSkip(t1);
    KeepsMark(t2);
    KeepsSkip(t2[1..]);
    KeepsValue(Skip(t2[1..]));
  }

  lemma {:induction false} KeepsMembers(t: string)
    requires SameLiterals(t) && ParseMembers(t).Ok?
    ensures SameLiterals(ParseMembers(t).rest)
    ensures ParseMembers(Kept(t)) == Ok(ParseMembers(t).value, Kept(ParseMembers(t).rest))
    decreases |t|, 4
  {
    hide SameLiterals, Kept, Skip, ParseMember;
    var t1 := ParseMember(t).rest;
    var t2 := Skip(t1);
    KeepsMember(t);
    KeepsSkip(t1);
    KeepsMark(t2);
    if Peek(t2) == ',' { KeepsMembers(t2[1..]); }
  }

  lemma {:induction false} KeepsObject(t: string)
    requires Peek(t) == '{' && SameLiterals(t) && ParseObject(t).Ok?
    ensures SameLiterals(ParseObject(t).rest) && Peek(Kept(t)) == '{'
    ensures ParseObject(Kept(t)) == Ok(ParseObject(t).value, Kept(ParseObject(t).rest))
    decreases |t|, 1
  {
    hide SameLiterals, Kept, Skip, ParseMembers, ParseMember;
    var t1 := Skip(t[1..]);
    KeepsMark(t);
    if Peek(t1) == '}' {
      KeepsSkip(t[1..]);
      KeepsMark(t1);
    } else {
      MembersBegin(t1);
      Grammar.SkipTwice(t[1..]);
      KeepsSkip(t[1..]);
      KeepsHead(t1);
      KeepsMembers(t1);
    }
  }

  lemma MembersBegin(t: string)
    requires ParseMembers(t).Ok?
    ensures Peek(Skip(t)) == '\"'
  {
    hide ParseMember;
    MemberBegins(t);
  }

  /** Minifying a text that parses to its end gives a text that parses to the same tree. */
  lemma KeepsMeaning(t: string)
    requires SameLiterals(t) && ParseDocument(t, true).Ok?
    ensures Minify(t).Done? && ParseDocument(Minify(t).text, true) == Ok(ParseDocument(t, true).value, "")
  {
    Completes(t);
    assert Kept(t) == Minify(t).text;
    hide SameLiterals, Kept, Skip, ParseValue;
    var start := Skip(t);
    var rest := ParseValue(start).rest;
    ValueBegins(start);
    KeepsSkip(t);
    KeepsValue(start);
    KeepsSkip(rest);
    KeepsEnd(Skip(rest));
  }

  // ----- which literals end alike -----

  /** The first pass of parse_string and the minifier scan a closed literal in the same way. */
  lemma {:induction false} ClosedLiteral(t: string)
    requires LiteralLength(t) >= 0
    ensures AfterFirst(t) == t[LiteralLength(t)..]
    decreases |t|
  {
    if t[0] == '\"' {
    } else if t[0] == '\\' {
      ClosedLiteral(t[2..]);
      assert t[2..][LiteralLength(t) - 2..] == t[LiteralLength(t)..];
    } else {
      ClosedLiteral(t[1..]);
      assert t[1..][LiteralLength(t) - 1..] == t[LiteralLength(t)..];
    }
  }

  /** So a closed literal whose \u escapes have ordinary characters behind them ends alike for both. */
  lemma PlainEndsAlike(t: string)
    requires LiteralLength(t) >= 0 && PlainEscapes(t)
    ensures EndsAlike(t, LiteralLength(t))
  {
    ClosedLiteral(t);
    if ParseChars(t).Ok? { InStep(t); }
  }

  /** Every literal that the minifier meets is closed, and its \u escapes have ordinary characters behind them. */
  ghost predicate PlainLiterals(t: string)
    decreases |t|
  {
    if Peek(t) == NUL then true
    else
      match NextRound(t)
      case Drop(k) => PlainLiterals(t[k..])
      case Copy(k) => (t[0] == '\"' ==> PlainEscapes(t[1..])) && PlainLiterals(t[k..])
      case Stray => false
  }

  lemma {:induction false} PlainIsSame(t: string)
    requires PlainLiterals(t)
    ensures SameLiterals(t)
    decreases |t|
  {
    if Peek(t) != NUL {
      var k := NextRound(t).k;
      if t[0] == '\"' { PlainEndsAlike(t[1..]); }
      hide EndsAlike, PlainEscapes;
      PlainIsSame(t[k..]);
    }
  }

  /** Without a closing quote the parser is content, and the minifier leaves the text. */
  lemma UnclosedRunsOff(s: CString)
    requires Ordinary(s, |s|)
    ensures ParseDocument("\"" + s, true) == Ok(JString(s), "")
    ensures Minify("\"" + s) == RunsOff
  {
    hide ParseChars, LiteralLength, Skip;
    var t := "\"" + s;
    assert t[1..] == s;
    UnclosedChars(s);
    Grammar.SkipCons('\"', s);
    SkipNothing();
    Grammar.Dispatch(t);
  }

  /** A literal whose \u jumps over a quote and three characters, with `s` and an escaped quote behind them. */
  function Jumping(x: string, s: string): (t: string) {
    "\"\\" + ("u\"" + x + (s + "\\\"\""))
  }

  lemma JumpingParses(x: string, s: CString)
    requires |x| == 3 && NUL !in x && Ordinary(s, |s|)
    ensures ParseDocument(Jumping(x, s), true) == Ok(JString(s + "\""), "")
  {
    hide ParseEscape, Skip;
    var behind := s + "\\\"\"";
    var t := Jumping(x, s);
    assert t[1..][1..] == "u\"" + x + behind;
    JumpsQuote(x, behind);
    CharsThenQuote(s);
    assert [] + (s + "\"") == s + "\"";
    assert t == Cons('\"', t[1..]);
    Grammar.SkipCons('\"', t[1..]);
    SkipNothing();
    Grammar.Dispatch(t);
  }

  lemma {:induction false} CharsThenQuote(s: CString)
    requires Ordinary(s, |s|)
    ensures ParseChars(s + "\\\"\"") == Ok(s + "\"", "")
  {
    var t := s + "\\\"\"";
    if s == [] {
      SimpleEscape(t[1..]);
      hide ParseEscape;
      assert t[1..][1..] == "\"" && LongEscape('\"') == '\"';
      assert ParseChars("\"") == Ok([], "") && ['\"'] + [] == "\"";
      assert s + "\"" == "\"";
    } else {
      CharsThenQuote(s[1..]);
      assert t[1..] == s[1..] + "\\\"\"" && [s[0]] + (s[1..] + "\"") == s + "\"";
    }
  }

  /** The minifier ends such a literal at the first quote, takes the rest for text and drops its blank. */
  lemma JumpingMinified()
    ensures Minify(Jumping("abc", " ")) == Done(Jumping("abc", ""))
  {
    hide Minify, Gives;
    var quotes := "\"\"";
    EmptyLiteral();
    var end := Cons('\\', quotes);
    GivesChar('\\', quotes, quotes);
    GivesBlank(' ', end, end);
    GivesWord("abc", Cons(' ', end), end);
    GivesFirstQuote("abc" + Cons(' ', end), "abc" + end);
    assert Jumping("abc", " ") == "\"\\u\"" + ("abc" + Cons(' ', end));
    assert Jumping("abc", "") == "\"\\u\"" + ("abc" + end);
    GivesIs(Jumping("abc", " "), Jumping("abc", ""));
  }

  lemma EmptyLiteral()
    ensures Gives("\"\"", "\"\"")
  {
    var quotes := "\"\"";
    assert LiteralLength(quotes[1..]) == 1;
    assert quotes[..2] == quotes && quotes[2..] == "" && NextRound(quotes) == Copy(2) && quotes + "" == quotes;
  }

  lemma GivesIs(t: string, w: string)
    requires Gives(t, w)
    ensures Minify(t) == Done(w)
  {
  }

  lemma GivesFirstQuote(t: string, w: string)
    requires Gives(t, w)
    ensures Gives("\"\\u\"" + t, "\"\\u\"" + w)
  {
    var text := "\"\\u\"" + t;
    assert text[1..][2..] == "\"" + t && text[1..][1..] == "u\"" + t;
    assert LiteralLength(text[1..]) == 3;
    assert text[..4] == "\"\\u\"" && text[4..] == t;
  }

  /** So the tree changes where a \u jumps over a quote. */
  lemma MinifyChangesMeaning()
    ensures var t := Jumping("abc", " ");
            && ParseDocument(t, true) == Ok(JString(" \""), "")
            && Minify(t).Done? && ParseDocument(Minify(t).text, true) == Ok(JString("\""), "")
  {
    hide Jumping, Minify, ParseDocument;
    JumpingParses("abc", " ");
    JumpingParses("abc", "");
    JumpingMinified();
    assert " " + "\"" == " \"" && "" + "\"" == "\"";
  }

  lemma SkipNothing()
    ensures Skip("") == ""
  {
  }

  lemma {:induction false} UnclosedChars(s: CString)
    requires Ordinary(s, |s|)
    ensures ParseChars(s) == Ok(s, "") && LiteralLength(s) == -1
  {
    if s != [] {
      UnclosedChars(s[1..]);
      assert [s[0]] + s[1..] == s;
    }
  }
}
