/** cJSON's parser as the loops it is written in, each proved to compute the functions of module JsonParse. */
module JsonReader {
  import opened JsonText
  import opened JsonParse
  import opened JsonUnicode
  import opened JsonGrammar

  /** The result of a loop that has collected `done` and will find `r` in the rest of the text. */
  ghost function CharsAfter(done: CString, r: Parsed<CString>): (q: Parsed<CString>) {
    if r.Ok? then Ok(done + r.value, r.rest) else r
  }

  lemma LiteralsRead(t: string)
    ensures forall b, s :: Spells(b, s) && "\"" + b + "\"" <= t ==>
              var r := ParseString(t); r.Ok? && r.value == s && r.rest == t[|b| + 2..]
  {
    hide ParseString, Spells;
    forall b, s | Spells(b, s) && "\"" + b + "\"" <= t
      ensures var r := ParseString(t); r.Ok? && r.value == s && r.rest == t[|b| + 2..]
    {
      SpelledString(b, s, t[|b| + 2..]);
      assert t == "\"" + b + "\"" + t[|b| + 2..];
    }
  }

  /** parse_string: a literal is read as the bytes it spells. */
  method ReadString(t: string) returns (r: Parsed<CString>)
    ensures r == ParseString(t)
    ensures forall b, s :: Spells(b, s) && "\"" + b + "\"" <= t ==> r.Ok? && r.value == s && r.rest == t[|b| + 2..]
  {
    LiteralsRead(t);
    if Peek(t) != '\"' { return Malformed; }
    var p := t[1..];
    var out: CString := "";
    assert ParseChars(p).Ok? ==> "" + ParseChars(p).value == ParseChars(p).value;
    while Peek(p) != '\"' && Peek(p) != NUL
      invariant ParseString(t) == CharsAfter(out, ParseChars(p))
      decreases |p|
    {
      if p[0] != '\\' {
        CharsAfterCopy(out, p);
        out, p := out + [p[0]], p[1..];
      } else {
        var e := ParseEscape(p[1..]);
        if e.IsFailure() { return e; }
        CharsAfterEscape(out, p);
        out, p := out + e.value, e.rest;
      }
    }
    assert out + "" == out;
    return Ok(out, if Peek(p) == '\"' then p[1..] else p);
  }

  lemma CharsAfterCopy(out: CString, p: string)
    requires Peek(p) != NUL && p[0] != '\\' && p[0] != '\"'
    ensures CharsAfter(out, ParseChars(p)) == CharsAfter(out + [p[0]], ParseChars(p[1..]))
  {
    var r := ParseChars(p[1..]);
    if r.Ok? { ConcatAssociative(out, [p[0]], r.value); }
  }

  lemma CharsAfterEscape(out: CString, p: string)
    requires Peek(p) == '\\' && ParseEscape(p[1..]).Ok?
    ensures var e := ParseEscape(p[1..]);
            CharsAfter(out, ParseChars(p)) == CharsAfter(out + e.value, ParseChars(e.rest))
  {
    hide ParseEscape;
    var e := ParseEscape(p[1..]);
    var r := ParseChars(e.rest);
    if r.Ok? { ConcatAssociative(out, e.value, r.value); }
  }

  // ----- the buffer that a first pass measures -----

  /** What the first pass of parse_string counts: an escape is two characters to it, whatever they are. */
  function Counted(p: string): (n: nat)
    decreases |p|
  {
    if Peek(p) == NUL || p[0] == '\"' then 0
    else if p[0] == '\\' && |p| > 1 then 1 + Counted(p[2..])
    else 1 + Counted(p[1..])
  }

  method CountChars(t: string) returns (len: nat)
    ensures len == Counted(t)
  {
    var p := t;
    len := 0;
    while Peek(p) != '\"' && Peek(p) != NUL
      invariant Counted(t) == len + Counted(p)
      decreases |p|
    {
      len := len + 1;
      p := if p[0] == '\\' && |p| > 1 then p[2..] else p[1..];
    }
  }

  /** What is behind the literal, as the first pass sees it. */
  function AfterFirst(p: string): (rest: string)
    ensures |rest| <= |p|
    decreases |p|
  {
    if Peek(p) == NUL then p
    else if p[0] == '\"' then p[1..]
    else if p[0] == '\\' && |p| > 1 then AfterFirst(p[2..])
    else AfterFirst(p[1..])
  }

  /** The first `n` characters are neither quotes nor backslashes, nor the end. */
  predicate Ordinary(p: string, n: nat) {
    n <= |p| && forall k :: 0 <= k < n ==> p[k] != '\"' && p[k] != '\\' && p[k] != NUL
  }

  lemma {:induction false} CountedOrdinary(p: string, n: nat)
    requires Ordinary(p, n)
    ensures Counted(p) == n + Counted(p[n..]) && AfterFirst(p) == AfterFirst(p[n..])
  {
    if n > 0 {
      CountedOrdinary(p[1..], n - 1);
      assert p[1..][n - 1..] == p[n..];
    }
  }

  /** Where the first pass is once it has come to the place where the second is. */
  datatype Where = Stopped(at: nat) | Aligned | Between

  /** The first pass over `n` characters: it stops on the way, gets there, or to the middle of an escape. */
  ghost predicate Reaches(r: string, n: nat, w: Where)
    requires n <= |r|
  {
    match w
    case Stopped(d) => d < n && r[d] == '\"' && AfterFirst(r) == r[d + 1..]
    case Aligned => Counted(r) >= Counted(r[n..]) && AfterFirst(r) == AfterFirst(r[n..])
    case Between => n < |r| && Counted(r) >= Counted(r[n + 1..]) && AfterFirst(r) == AfterFirst(r[n + 1..])
  }

  /** A step of `k` characters in front. */
  lemma ReachesFurther(r: string, k: nat, n: nat, w: Where)
    requires 0 < k <= n <= |r| && Reaches(r[k..], n - k, w)
    requires Counted(r) >= Counted(r[k..]) && AfterFirst(r) == AfterFirst(r[k..])
    ensures Reaches(r, n, if w.Stopped? then Stopped(w.at + k) else w)
  {
    hide Counted, AfterFirst;
    match w
    case Stopped(d) => assert r[k..][d + 1..] == r[d + k + 1..];
    case Aligned => assert r[k..][n - k..] == r[n..];
    case Between => assert r[k..][n - k + 1..] == r[n + 1..];
  }

  lemma {:induction false} Walk(r: string, n: nat) returns (w: Where)
    requires n <= |r| && NUL !in r[..n]
    ensures Reaches(r, n, w)
    decreases n
  {
    if n == 0 {
      assert r[0..] == r;
      return Aligned;
    }
    assert r[0] == r[..n][0];
    if r[0] == '\"' { return Stopped(0); }
    var k := if r[0] == '\\' && |r| > 1 then 2 else 1;
    assert Counted(r) >= Counted(r[k..]) && AfterFirst(r) == AfterFirst(r[k..]);
    hide Counted, AfterFirst, Reaches;
    if k > n {
      StepsBetween(r);
      return Between;
    }
    assert NUL !in r[k..][..n - k] by { assert r[k..][..n - k] == r[..n][k..]; }
    w := Walk(r[k..], n - k);
    ReachesFurther(r, k, n, w);
    w := if w.Stopped? then Stopped(w.at + k) else w;
  }

  lemma StepsBetween(r: string)
    requires |r| > 1 && r[0] == '\\'
    ensures Reaches(r, 1, Between)
  {
  }

  lemma NothingRead(t: string)
    requires ParseChars(t).Ok? && |ParseChars(t).rest| == |t|
    ensures ParseChars(t).value == []
  {
  }

  /** The second pass, where the first is at the same place. */
  ghost predicate FitsAligned(t: string) {
    ParseChars(t).Ok? && |AfterFirst(t)| <= |ParseChars(t).rest| ==> |ParseChars(t).value| <= Counted(t)
  }

  /** The second pass, where the first has counted the character already. */
  ghost predicate FitsBetween(t: string) {
    t != [] && ParseChars(t).Ok? && |AfterFirst(t[1..])| <= |ParseChars(t).rest| ==>
      |ParseChars(t).value| <= 1 + Counted(t[1..])
  }

  /** An escape that jumps over `n` characters and stands for nothing. */
  lemma JumpFits(r: string, n: nat)
    requires n <= |r| && NUL !in r[..n] && FitsAligned(r[n..]) && FitsBetween(r[n..])
    requires ParseChars(r[n..]).Ok? && |AfterFirst(r)| <= |ParseChars(r[n..]).rest|
    ensures |ParseChars(r[n..]).value| <= 1 + Counted(r)
  {
    hide ParseChars, AfterFirst, Counted;
    var w := Walk(r, n);
    match w
    case Stopped(d) => NothingRead(r[n..]);
    case Aligned =>
    case Between => assert r[n..][1..] == r[n + 1..];
  }

  lemma HexIsOrdinary(r: string)
    requires ParseHex4(r) != 0
    ensures Ordinary(r, 4)
  {
  }

  /** A \u escape: what it stands for and what follows fit what the first pass counts. */
  lemma UnicodeFits(p: string)
    requires |p| > 1 && p[0] == '\\' && p[1] == 'u' && ParseEscape(p[1..]).Ok?
    requires var e := ParseEscape(p[1..]);
             && FitsAligned(e.rest) && FitsBetween(e.rest)
             && ParseChars(e.rest).Ok? && |AfterFirst(p[2..])| <= |ParseChars(e.rest).rest|
    ensures var e := ParseEscape(p[1..]); |e.value| + |ParseChars(e.rest).value| <= 1 + Counted(p[2..])
  {
    hide ParseChars, Utf8, FitsBetween, ParseHex4;
    var t, r := p[1..], p[2..];
    var e := ParseEscape(t);
    assert t[1..] == r && t[5..] == r[4..];
    if e.value == [] {
      var n := if |e.rest| == |r| - 4 then 4 else 10;
      JumpedOver(t, r, n);
      JumpFits(r, n);
    } else if |e.rest| == |r| - 4 {
      HexIsOrdinary(r);
      CountedOrdinary(r, 4);
    } else {
      PairCounted(t, r);
    }
  }

  lemma JumpedOver(t: string, r: string, n: nat)
    requires t != [] && t[0] == 'u' && r == t[1..] && ParseEscape(t).Ok? && ParseEscape(t).value == []
    requires n == if |ParseEscape(t).rest| == |r| - 4 then 4 else 10
    ensures n <= |r| && NUL !in r[..n] && ParseEscape(t).rest == r[n..]
  {
    hide Utf8, ParseHex4;
    assert t[..5] == [t[0]] + r[..4];
    if n == 10 {
      assert t[7..11] == r[6..10] && t[5] == r[4] && t[6] == r[5];
      assert r[..10] == r[..4] + [r[4], r[5]] + r[6..10];
    }
  }

  /** A pair of surrogates. */
  lemma PairCounted(t: string, r: string)
    requires t != [] && t[0] == 'u' && r == t[1..] && ParseEscape(t).Ok? && ParseEscape(t).value != []
    requires |ParseEscape(t).rest| != |r| - 4
    ensures ParseEscape(t).rest == r[10..] && |ParseEscape(t).value| <= 4
    ensures Counted(r) == 9 + Counted(r[10..]) && AfterFirst(r) == AfterFirst(r[10..])
  {
    hide Utf8, ParseHex4;
    assert t[5..] == r[4..] && t[6..] == r[5..] && t[7..] == r[6..] && t[11..] == r[10..];
    HexIsOrdinary(r);
    HexIsOrdinary(r[6..]);
    CountedOrdinary(r, 4);
    CountedOrdinary(r[6..], 4);
    assert r[4..][2..] == r[6..] && r[6..][4..] == r[10..];
  }

  lemma {:induction false} BothFit(p: string)
    ensures FitsAligned(p) && FitsBetween(p)
    decreases |p|
  {
    if Peek(p) != NUL && p[0] != '\"' && ParseChars(p).Ok? {
      if p[0] != '\\' {
        BothFit(p[1..]);
      } else {
        var e := ParseEscape(p[1..]);
        BothFit(e.rest);
        EscapeFits(p);
      }
    }
  }

  lemma EscapeFits(p: string)
    requires Peek(p) == '\\' && ParseEscape(p[1..]).Ok? && ParseChars(p).Ok?
    requires FitsAligned(ParseEscape(p[1..]).rest) && FitsBetween(ParseEscape(p[1..]).rest)
    ensures FitsAligned(p) && FitsBetween(p)
  {
    var e := ParseEscape(p[1..]);
    assert ParseChars(p).value == e.value + ParseChars(e.rest).value && ParseChars(p).rest == ParseChars(e.rest).rest;
    if p[1] == 'u' {
      hide ParseChars, ParseEscape;
      assert p[1..][1..] == p[2..];
      if |AfterFirst(p[2..])| <= |ParseChars(e.rest).rest| { UnicodeFits(p); }
    } else {
      assert e.rest == p[2..] && |e.value| == 1 && p[1..][1..] == p[2..];
      hide ParseChars, ParseEscape;
      ShortFits(p);
    }
  }

  /** An escape of one character. */
  lemma ShortFits(p: string)
    requires |p| > 1 && p[0] == '\\' && p[1] != NUL && ParseChars(p).Ok? && ParseChars(p[2..]).Ok?
    requires |ParseChars(p).value| == 1 + |ParseChars(p[2..]).value| && ParseChars(p).rest == ParseChars(p[2..]).rest
    requires FitsAligned(p[2..]) && FitsBetween(p[2..])
    ensures FitsAligned(p) && FitsBetween(p)
  {
    hide ParseChars;
    assert p[1..][1..] == p[2..] && (|p| > 2 ==> p[1..][2..] == p[3..] == p[2..][1..]);
    if p[1] == '\"' && |AfterFirst(p[1..])| <= |ParseChars(p).rest| {
      RestShorter(p[2..]);
      NothingRead(p[2..]);
    }
    if |p| == 2 {
      assert p[2..] == [];
      NothingLeft(p[2..]);
    }
  }

  lemma RestShorter(t: string)
    requires ParseChars(t).Ok?
    ensures |ParseChars(t).rest| <= |t|
  {
  }

  lemma NothingLeft(t: string)
    requires t == []
    ensures ParseChars(t) == Ok([], [])
  {
  }

  /** If the second pass stops no later than the first, it writes no more characters than were counted. */
  lemma OutputFits(p: string)
    requires ParseChars(p).Ok? && |AfterFirst(p)| <= |ParseChars(p).rest|
    ensures |ParseChars(p).value| <= Counted(p)
  {
    BothFit(p);
  }

  /** Every \u that the second pass meets has four ordinary characters behind it. */
  ghost predicate PlainEscapes(p: string)
    decreases |p|
  {
    if Peek(p) == NUL || p[0] == '\"' then true
    else if p[0] != '\\' then PlainEscapes(p[1..])
    else if |p| > 1 && p[1] == 'u' then Ordinary(p[2..], 4) && PlainEscapes(p[6..])
    else |p| > 1 ==> PlainEscapes(p[2..])
  }

  /** An escape with ordinary characters behind its \u keeps the passes in step. */
  lemma EscapeInStep(p: string)
    requires Peek(p) == '\\' && PlainEscapes(p) && ParseEscape(p[1..]).Ok?
    ensures var e := ParseEscape(p[1..]); PlainEscapes(e.rest) && AfterFirst(p) == AfterFirst(e.rest)
  {
    hide Utf8, ParseHex4;
    if p[1] == 'u' {
      CountedOrdinary(p[2..], 4);
      var q := p[6..];
      assert p[2..][4..] == q && p[1..][1..] == p[2..] && p[1..][5..] == q;
      if Peek(q) == '\\' && |q| > 1 && q[1] == 'u' {
        CountedOrdinary(q[2..], 4);
        assert q[2..][4..] == q[6..] && p[1..][11..] == q[6..] && p[1..][6..] == q[1..];
      } else {
        assert Peek(p[1..][5..]) == Peek(q) && (|q| >= 1 ==> p[1..][6..] == q[1..]);
      }
    } else {
      assert p[1..][1..] == p[2..];
    }
  }

  /** With such escapes only, both passes stop at the same place. */
  lemma {:induction false} InStep(p: string)
    requires PlainEscapes(p) && ParseChars(p).Ok?
    ensures AfterFirst(p) == ParseChars(p).rest
    decreases |p|
  {
    if Peek(p) == NUL || p[0] == '\"' {
    } else if p[0] != '\\' {
      InStep(p[1..]);
    } else {
      EscapeInStep(p);
      InStep(ParseEscape(p[1..]).rest);
    }
  }

  /** A \u with a quote behind it stands for nothing, and jumps over that quote and three characters more. */
  lemma JumpsQuote(x: string, rest: string)
    requires |x| == 3 && NUL !in x
    ensures ParseEscape("u\"" + x + rest) == Ok([], rest)
  {
    var t := "u\"" + x + rest;
    assert t[1..][0] == '\"' && ParseHex4(t[1..]) == 0;
    assert t[..5] == "u\"" + x && t[5..] == rest;
  }

  /** The quote ends the first pass but not the second, which goes on to write what follows. */
  lemma OutputExceeds(x: string, s: string)
    requires |x| == 3 && NUL !in x && Ordinary(s, |s|)
    ensures var p := "\\" + ("u\"" + x + (s + "\""));
            Counted(p) == 1 && ParseChars(p) == Ok(s, "")
  {
    var t := "u\"" + x + (s + "\"");
    var p := "\\" + t;
    assert p[1..] == t && p[2..] == t[1..] && t[1..][0] == '\"';
    JumpsQuote(x, s + "\"");
    CharsOf(s);
    hide ParseEscape;
    assert [] + s == s;
  }

  /** A literal without escapes is read as it stands. */
  lemma {:induction false} CharsOf(s: string)
    requires Ordinary(s, |s|)
    ensures ParseChars(s + "\"") == Ok(s, "")
  {
    var t := s + "\"";
    if s != [] {
      CharsOf(s[1..]);
      assert t[1..] == s[1..] + "\"" && [s[0]] + s[1..] == s;
    }
  }

  lemma TextsRead(t: string)
    ensures forall x, u :: WellFormed(x) && MayStandBehind(x, u) && SpellThen(x, u) == t ==>
              ParseValue(t) == Ok(Meaning(x), u)
  {
    hide ParseValue, WellFormed, SpellThen, Meaning;
    forall x, u | WellFormed(x) && MayStandBehind(x, u) && SpellThen(x, u) == t
      ensures ParseValue(t) == Ok(Meaning(x), u)
    {
      Reads(x, u);
    }
  }

  /** parse_value: a text of the grammar is read as what it means. */
  method ReadValue(t: string) returns (r: Parsed<Json>)
    ensures r == ParseValue(t)
    ensures forall x, u :: WellFormed(x) && MayStandBehind(x, u) && SpellThen(x, u) == t ==> r == Ok(Meaning(x), u)
    decreases |t|, 2
  {
    TextsRead(t);
    hide ParseNumber, ParseString, ParseArray, ParseObject;
    if StartsWith(t, "null") { return Ok(JNull, t[4..]); }
    if StartsWith(t, "false") { return Ok(JFalse, t[5..]); }
    if StartsWith(t, "true") { return Ok(JTrue, t[4..]); }
    if Peek(t) == '\"' {
      var s := ReadString(t);
      return if s.Ok? then Ok(JString(s.value), s.rest) else s.PropagateFailure();
    }
    if Peek(t) == '-' || IsDigit(Peek(t)) { return ParseNumber(t); }
    if Peek(t) == '[' { r := ReadArray(t); return; }
    if Peek(t) == '{' { r := ReadObject(t); return; }
    return Malformed;
  }

  /** What parse_array makes of the text when it has collected `items` and stands behind a value. */
  ghost function ItemsAfter(items: seq<Json>, t: string): (r: Parsed<Json>) {
    if Peek(t) == ',' then
      var (more, rest) :- ParseItems(t[1..]);
      Ok(JArray(items + more), rest)
    else if Peek(t) == ']' then Ok(JArray(items), t[1..])
    else Malformed
  }

  /** One more element moves from the text into the list. */
  lemma ItemsAfterValue(items: seq<Json>, t: string)
    requires Peek(t) == ','
    ensures var v := ParseValue(Skip(t[1..]));
            ItemsAfter(items, t) == if v.Ok? then ItemsAfter(items + [v.value], Skip(v.rest)) else v.PropagateFailure()
  {
    hide ParseValue, Skip;
    var v := ParseValue(Skip(t[1..]));
    if v.Ok? {
      var u := Skip(v.rest);
      if Peek(u) == ',' && ParseItems(u[1..]).Ok? {
        var more := ParseItems(u[1..]).value;
        assert items + ([v.value] + more) == items + [v.value] + more;
      }
    }
  }

  method ReadArray(t: string) returns (r: Parsed<Json>)
    requires Peek(t) == '['
    ensures r == ParseArray(t)
    decreases |t|, 1
  {
    var value := Skip(t[1..]);
    if Peek(value) == ']' { return Ok(JArray([]), value[1..]); }
    var v := ReadValue(Skip(value));
    FirstItem(t);
    hide ParseValue, Skip, ParseArray;
    if v.IsFailure() { return v.PropagateFailure(); }
    var items := [v.value];
    value := Skip(v.rest);
    while Peek(value) == ','
      invariant |value| < |t|
      invariant ParseArray(t) == ItemsAfter(items, value)
      decreases |value|
    {
      ItemsAfterValue(items, value);
      v := ReadValue(Skip(value[1..]));
      if v.IsFailure() { return v.PropagateFailure(); }
      items := items + [v.value];
      value := Skip(v.rest);
    }
    return if Peek(value) == ']' then Ok(JArray(items), value[1..]) else Malformed;
  }

  lemma FirstItem(t: string)
    requires Peek(t) == '[' && Peek(Skip(t[1..])) != ']'
    ensures var v := ParseValue(Skip(Skip(t[1..])));
            ParseArray(t) == if v.Ok? then ItemsAfter([v.value], Skip(v.rest)) else v.PropagateFailure()
  {
    hide ParseValue, Skip;
    var v := ParseValue(Skip(Skip(t[1..])));
  }

  method ReadMember(t: string) returns (r: Parsed<Member>)
    ensures r == ParseMember(t)
    decreases |t|, 3
  {
    hide ParseValue, ParseString, Skip;
    var name := ReadString(Skip(t));
    if name.IsFailure() { return name.PropagateFailure(); }
    var value := Skip(name.rest);
    if Peek(value) != ':' { return Malformed; }
    var v := ReadValue(Skip(value[1..]));
    if v.IsFailure() { return v.PropagateFailure(); }
    return Ok(Member(name.value, v.value), v.rest);
  }

  /** What parse_object makes of the text when it has collected `members` and stands behind a value. */
  ghost function MembersAfter(members: seq<Member>, t: string): (r: Parsed<Json>) {
    if Peek(t) == ',' then
      var (more, rest) :- ParseMembers(t[1..]);
      Ok(JObject(members + more), rest)
    else if Peek(t) == '}' then Ok(JObject(members), t[1..])
    else Malformed
  }

  lemma MembersAfterValue(members: seq<Member>, t: string)
    requires Peek(t) == ','
    ensures var m := ParseMember(t[1..]);
            MembersAfter(members, t)
            == if m.Ok? then MembersAfter(members + [m.value], Skip(m.rest)) else m.PropagateFailure()
  {
    hide ParseMember, Skip;
    var m := ParseMember(t[1..]);
    if m.Ok? {
      var u := Skip(m.rest);
      if Peek(u) == ',' && ParseMembers(u[1..]).Ok? {
        var more := ParseMembers(u[1..]).value;
        assert members + ([m.value] + more) == members + [m.value] + more;
      }
    }
  }

  lemma FirstMember(t: string)
    requires Peek(t) == '{' && Peek(Skip(t[1..])) != '}'
    ensures var m := ParseMember(Skip(t[1..]));
            ParseObject(t) == if m.Ok? then MembersAfter([m.value], Skip(m.rest)) else m.PropagateFailure()
  {
    hide ParseMember, Skip;
    var m := ParseMember(Skip(t[1..]));
  }

  method ReadObject(t: string) returns (r: Parsed<Json>)
    requires Peek(t) == '{'
    ensures r == ParseObject(t)
    decreases |t|, 1
  {
    var value := Skip(t[1..]);
    if Peek(value) == '}' { return Ok(JObject([]), value[1..]); }
    var m := ReadMember(value);
    FirstMember(t);
    hide ParseMember, Skip, ParseObject;
    if m.IsFailure() { return m.PropagateFailure(); }
    var members := [m.value];
    value := Skip(m.rest);
    while Peek(value) == ','
      invariant |value| < |t|
      invariant ParseObject(t) == MembersAfter(members, value)
      decreases |value|
    {
      MembersAfterValue(members, value);
      m := ReadMember(value[1..]);
      if m.IsFailure() { return m.PropagateFailure(); }
      members := members + [m.value];
      value := Skip(m.rest);
    }
    return if Peek(value) == '}' then Ok(JObject(members), value[1..]) else Malformed;
  }
}
