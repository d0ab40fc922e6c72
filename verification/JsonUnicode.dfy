/**
 What parse_string makes of a string literal, stated without parse_string: a UTF-8 decoder after section 3
 of RFC 3629, and the spelling of strings after section 7 of RFC 8259.
 */
module JsonUnicode {
  import opened JsonText
  import opened JsonParse

  // ----- UTF-8 -----

  datatype Decoded = Point(uc: nat, rest: string) | Invalid

  /** The number of bytes in a sequence, by the range its first byte lies in; 0 if it lies in none. */
  function SequenceLength(lead: char): (n: nat) {
    var b := lead as int;
    if b < 0x80 then 1
    else if 0xC0 <= b < 0xE0 then 2
    else if 0xE0 <= b < 0xF0 then 3
    else if 0xF0 <= b < 0xF8 then 4
    else 0
  }

  /** The least byte that begins a sequence of `n` bytes. */
  function LeadMark(n: nat): (b: int) {
    if n == 2 then 0xC0 else if n == 3 then 0xE0 else if n == 4 then 0xF0 else 0
  }

  predicate Continues(c: char) {
    0x80 <= c as int < 0xC0
  }

  /** Each continuation byte adds six bits to what stands in front of it. */
  function AddBits(acc: nat, s: string): (n: nat)
    requires forall i :: 0 <= i < |s| ==> Continues(s[i])
    decreases |s|
  {
    if s == [] then acc else
      assert Continues(s[0]);
      AddBits(acc * 64 + (s[0] as int - 0x80), s[1..])
  }

  /** The least code point for which `n` bytes are allowed; a shorter sequence has to be used below it. */
  function Least(n: nat): (uc: nat) {
    if n == 2 then 0x80 else if n == 3 then 0x800 else if n == 4 then 0x10000 else 0
  }

  /** The code point a text begins with, and what follows it. */
  function DecodeOne(s: string): (d: Decoded) {
    if s == [] then Invalid
    else
      var n := SequenceLength(s[0]);
      if n == 0 || |s| < n || exists i :: 1 <= i < n && !Continues(s[i]) then Invalid
      else
        var uc := AddBits(s[0] as int - LeadMark(n), s[1..n]);
        if uc < Least(n) || uc >= 0x110000 then Invalid else Point(uc, s[n..])
  }

  /** `s` is the UTF-8 of the code points `cps`. */
  predicate Encodes(s: string, cps: seq<nat>)
    decreases |cps|
  {
    if cps == [] then s == []
    else
      var d := DecodeOne(s);
      d.Point? && d.uc == cps[0] && Encodes(d.rest, cps[1..])
  }

  lemma AddFew(acc: nat, a: char, b: char, c: char)
    requires Continues(a) && Continues(b) && Continues(c)
    ensures AddBits(acc, []) == acc && AddBits(acc, [a]) == acc * 64 + (a as int - 0x80)
    ensures AddBits(acc, [a, b]) == (acc * 64 + (a as int - 0x80)) * 64 + (b as int - 0x80)
    ensures AddBits(acc, [a, b, c]) ==
            ((acc * 64 + (a as int - 0x80)) * 64 + (b as int - 0x80)) * 64 + (c as int - 0x80)
  {
    var one, two := acc * 64 + (a as int - 0x80), (acc * 64 + (a as int - 0x80)) * 64 + (b as int - 0x80);
    assert [a][1..] == [] && [a, b][1..] == [b] && [b][1..] == [] && [c][1..] == [];
    assert [a, b, c][1..] == [b, c] && [b, c][1..] == [c];
    assert AddBits(one, [b]) == one * 64 + (b as int - 0x80);
    assert AddBits(two, [c]) == two * 64 + (c as int - 0x80);
  }

  /** A sequence of the right length, with what its bits say. */
  lemma Sequence(s: string, n: nat, uc: nat)
    requires 1 <= n <= |s| && n == SequenceLength(s[0])
    requires forall i :: 1 <= i < n ==> Continues(s[i])
    requires AddBits(s[0] as int - LeadMark(n), s[1..n]) == uc && Least(n) <= uc < 0x110000
    ensures DecodeOne(s) == Point(uc, s[n..])
  {
    hide AddBits;
  }

  /** The bytes that stand for a code point decode to it, and leave nothing over. */
  lemma Utf8Decodes(uc: nat, u: string)
    requires 0 < uc < 0x110000
    ensures DecodeOne(Utf8(uc) + u) == Point(uc, u)
  {
    hide AddBits, DecodeOne;
    var e := Utf8(uc);
    var s := e + u;
    assert s[|e|..] == u;
    if |e| == 1 {
      assert s[1..1] == [];
      AddFew(uc, '\U{0080}', '\U{0080}', '\U{0080}');
    } else if |e| == 2 {
      assert s[1..2] == [e[1]];
      AddFew(uc / 64, e[1], e[1], e[1]);
    } else if |e| == 3 {
      assert s[1..3] == [e[1], e[2]];
      AddFew(uc / 4096, e[1], e[2], e[2]);
      Digits64(uc);
    } else {
      assert s[1..4] == [e[1], e[2], e[3]];
      AddFew(uc / 262144, e[1], e[2], e[3]);
      Digits64(uc);
    }
    Sequence(s, |e|, uc);
  }

  /** A number in its digits to base 64. */
  lemma Digits64(n: nat)
    ensures (n / 4096 * 64 + n / 64 % 64) * 64 + n % 64 == n
    ensures ((n / 262144 * 64 + n / 4096 % 64) * 64 + n / 64 % 64) * 64 + n % 64 == n
  {
    assert n / 4096 == n / 64 / 64 && n / 262144 == n / 4096 / 64;
  }

  lemma FromDigits64(a: nat, b: nat, c: nat, d: nat)
    requires b < 64 && c < 64 && d < 64
    ensures var n := ((a * 64 + b) * 64 + c) * 64 + d;
            n % 64 == d && n / 64 % 64 == c && n / 4096 % 64 == b && n / 4096 == a * 64 + b && n / 262144 == a
  {
    var n := ((a * 64 + b) * 64 + c) * 64 + d;
    assert n / 64 == (a * 64 + b) * 64 + c && n / 4096 == n / 64 / 64 && n / 262144 == n / 4096 / 64;
  }

  lemma ShortSequence(s: string, n: nat)
    requires n in {1, 2} && |s| >= n && SequenceLength(s[0]) == n && (n == 2 ==> Continues(s[1]))
    requires forall i :: 0 <= i < n - 1 ==> Continues(s[1..n][i])
    ensures var uc := AddBits(s[0] as int - LeadMark(n), s[1..n]);
            0 < uc && Least(n) <= uc ==> uc < 0x110000 && Utf8(uc) == s[..n]
  {
    hide AddBits;
    var c := if n == 2 then s[1] else '\U{0080}';
    AddFew(s[0] as int - LeadMark(n), c, c, c);
    assert s[1..n] == if n == 2 then [c] else [];
    assert s[..n] == if n == 2 then [s[0], c] else [s[0]];
  }

  lemma ThreeBytes(s: string)
    requires |s| >= 3 && SequenceLength(s[0]) == 3 && Continues(s[1]) && Continues(s[2])
    requires forall i :: 0 <= i < 2 ==> Continues(s[1..3][i])
    ensures var uc := AddBits(s[0] as int - LeadMark(3), s[1..3]);
            Least(3) <= uc ==> uc < 0x110000 && Utf8(uc) == s[..3]
  {
    hide AddBits;
    AddFew(s[0] as int - LeadMark(3), s[1], s[2], s[2]);
    FromDigits64(0, s[0] as int - LeadMark(3), s[1] as int - 0x80, s[2] as int - 0x80);
    assert s[1..3] == [s[1], s[2]] && s[..3] == [s[0], s[1], s[2]];
  }

  lemma FourBytes(s: string)
    requires |s| >= 4 && SequenceLength(s[0]) == 4 && Continues(s[1]) && Continues(s[2]) && Continues(s[3])
    requires forall i :: 0 <= i < 3 ==> Continues(s[1..4][i])
    ensures var uc := AddBits(s[0] as int - LeadMark(4), s[1..4]);
            Least(4) <= uc < 0x110000 ==> Utf8(uc) == s[..4]
  {
    hide AddBits;
    AddFew(s[0] as int - LeadMark(4), s[1], s[2], s[3]);
    FromDigits64(s[0] as int - LeadMark(4), s[1] as int - 0x80, s[2] as int - 0x80, s[3] as int - 0x80);
    assert s[1..4] == [s[1], s[2], s[3]] && s[..4] == [s[0], s[1], s[2], s[3]];
  }

  /** And no other bytes do. */
  lemma DecodedIsUtf8(s: string)
    requires DecodeOne(s).Point? && DecodeOne(s).uc > 0
    ensures var d := DecodeOne(s); d.uc < 0x110000 && s == Utf8(d.uc) + d.rest
  {
    var n := SequenceLength(s[0]);
    Taken(s);
    hide DecodeOne, AddBits, Utf8, Least;
    if n <= 2 { ShortSequence(s, n); } else if n == 3 { ThreeBytes(s); } else { FourBytes(s); }
    assert s == s[..n] + s[n..];
  }

  lemma Taken(s: string)
    requires DecodeOne(s).Point?
    ensures var d, n := DecodeOne(s), SequenceLength(s[0]);
            && 1 <= n <= |s| && (forall i :: 1 <= i < n ==> Continues(s[i]))
            && Least(n) <= d.uc < 0x110000 && d.rest == s[n..]
            && AddBits(s[0] as int - LeadMark(n), s[1..n]) == d.uc
  {
    hide AddBits;
  }

  // ----- escapes -----

  /** `c` is a hexadecimal digit with the value `d`. */
  predicate HexOf(c: char, d: nat) {
    d < 16 && (c == "0123456789abcdef"[d] || c == "0123456789ABCDEF"[d])
  }

  /** `h` begins with four hexadecimal digits that spell `n`. */
  predicate Hex4(h: string, n: nat) {
    && |h| >= 4 && n < 0x10000
    && HexOf(h[0], n / 0x1000) && HexOf(h[1], n / 0x100 % 16) && HexOf(h[2], n / 0x10 % 16) && HexOf(h[3], n % 16)
  }

  lemma HexOfIs(c: char, d: nat)
    ensures HexOf(c, d) <==> HexValue(c) == d
  {
    var lower, upper := "0123456789abcdef", "0123456789ABCDEF";
    assert forall k :: 0 <= k < 10 ==> lower[k] as int == '0' as int + k && upper[k] as int == '0' as int + k;
    assert forall k :: 10 <= k < 16 ==> lower[k] as int == 'a' as int + k - 10;
    assert forall k :: 10 <= k < 16 ==> upper[k] as int == 'A' as int + k - 10;
  }

  /** parse_hex4 finds a number other than 0 exactly where its four digits stand, in either case. */
  lemma Hex4Is(h: string, n: nat)
    ensures Hex4(h, n) ==> ParseHex4(h) == n
    ensures n > 0 && ParseHex4(h) == n ==> Hex4(h, n)
  {
    if |h| >= 4 {
      if n < 0x10000 {
        HexOfIs(h[0], n / 0x1000);
        HexOfIs(h[1], n / 0x100 % 16);
        HexOfIs(h[2], n / 0x10 % 16);
        HexOfIs(h[3], n % 16);
      }
      hide HexOf, HexValue;
      Digits16(n, HexValue(h[0]), HexValue(h[1]), HexValue(h[2]), HexValue(h[3]));
    }
  }

  lemma Digits16(n: nat, a: int, b: int, c: int, d: int)
    requires b < 16 && c < 16 && d < 16
    ensures ((n / 0x1000 * 16 + n / 0x100 % 16) * 16 + n / 0x10 % 16) * 16 + n % 16 == n
    ensures a >= 0 && b >= 0 && c >= 0 && d >= 0 && n == ((a * 16 + b) * 16 + c) * 16 + d ==>
              a == n / 0x1000 && b == n / 0x100 % 16 && c == n / 0x10 % 16 && d == n % 16
  {
    assert n / 0x100 == n / 0x10 / 16 && n / 0x1000 == n / 0x100 / 16;
  }

  /** A code point that text can hold: not 0, and not one half of a surrogate pair. */
  predicate ScalarValue(uc: nat) {
    0 < uc < 0xD800 || 0xE000 <= uc < 0x110000
  }

  function EscapeWidth(uc: nat): (n: nat) {
    if uc < 0x10000 then 6 else 12
  }

  /** `t` begins with an escape for `uc`: its four digits, or those of a surrogate pair. */
  predicate EscapesTo(t: string, uc: nat) {
    && ScalarValue(uc) && |t| >= EscapeWidth(uc) && t[..2] == "\\u"
    && if uc < 0x10000 then Hex4(t[2..], uc)
       else && Hex4(t[2..], 0xD800 + (uc - 0x10000) / 0x400) && t[6..8] == "\\u"
            && Hex4(t[8..], 0xDC00 + (uc - 0x10000) % 0x400)
  }

  lemma HexIsNotNul(h: string, n: nat)
    requires Hex4(h, n)
    ensures NUL !in h[..4]
  {
    HexOfIs(h[0], n / 0x1000);
    HexOfIs(h[1], n / 0x100 % 16);
    HexOfIs(h[2], n / 0x10 % 16);
    HexOfIs(h[3], n % 16);
    hide HexOf;
    assert h[..4] == [h[0], h[1], h[2], h[3]];
  }

  /** The text behind the backslash of an escape. */
  lemma BehindBackslash(t: string, n: nat)
    requires |t| >= 6 && t[..2] == "\\u" && Hex4(t[2..], n)
    ensures var r := t[1..];
            && |r| >= 5 && r[0] == 'u' && r[1..] == t[2..] && r[5..] == t[6..] && NUL !in r[..5]
            && ParseHex4(r[1..]) == n
  {
    var r := t[1..];
    HexIsNotNul(t[2..], n);
    Hex4Is(t[2..], n);
    hide Hex4, ParseHex4;
    assert t[..2][0] == t[0] && t[..2][1] == t[1];
    assert r[..5] == ['u'] + t[2..][..4];
  }

  lemma EscapeParses(t: string, uc: nat)
    requires EscapesTo(t, uc)
    ensures ParseEscape(t[1..]) == Ok(Utf8(uc), t[EscapeWidth(uc)..])
  {
    hide Utf8, Hex4, ParseHex4;
    var r := t[1..];
    if uc < 0x10000 {
      BehindBackslash(t, uc);
    } else {
      var high, low := 0xD800 + (uc - 0x10000) / 0x400, 0xDC00 + (uc - 0x10000) % 0x400;
      BehindBackslash(t, high);
      var second := t[6..];
      assert second[..2] == t[6..8] && second[2..] == t[8..];
      BehindBackslash(second, low);
      assert second[..2][0] == second[0] && second[..2][1] == second[1];
      assert r[6..] == second[1..] && r[7..] == t[8..];
      assert r[7..11] == second[1..][..5][1..];
      assert r[11..] == t[12..];
    }
  }

  predicate IsEscape(t: string, n: nat) {
    |t| >= 6 && t[..2] == "\\u" && Hex4(t[2..], n)
  }

  /** What stands for nothing: \u0000, and half of a surrogate pair without the other half. */
  lemma DroppedEscape(t: string, n: nat, m: nat)
    requires IsEscape(t, n)
    ensures n == 0 || 0xDC00 <= n < 0xE000 ==> ParseEscape(t[1..]) == Ok([], t[6..])
    ensures 0xD800 <= n < 0xDC00 && !StartsWith(t[6..], "\\u") ==> ParseEscape(t[1..]) == Ok([], t[6..])
    ensures 0xD800 <= n < 0xDC00 && IsEscape(t[6..], m) && !(0xDC00 <= m < 0xE000) ==>
              ParseEscape(t[1..]) == Ok([], t[12..])
  {
    hide Utf8, Hex4, ParseHex4;
    BehindBackslash(t, n);
    var r, second := t[1..], t[6..];
    assert |t| >= 7 ==> r[6..] == second[1..];
    if |second| >= 2 { assert second[..2] == [second[0], second[1]]; }
    if IsEscape(second, m) {
      BehindBackslash(second, m);
      assert r[7..] == second[1..][1..] && r[7..11] == second[1..][..5][1..] && r[11..] == t[12..];
    }
  }

  // ----- string literals -----

  /** The escapes of two characters, each with the character it stands for. */
  const TWO_CHARACTERS: map<char, char> := map[
    '\"' := '\"', '\\' := '\\', '/' := '/', 'b' := 8 as char, 'f' := 12 as char, 'n' := 10 as char,
    'r' := 13 as char, 't' := 9 as char]

  /** The text between two quotes spells the bytes `s`. */
  predicate Spells(t: string, s: string)
    decreases |t|
  {
    if t == [] then s == []
    else if t[0] != '\\' then
      t[0] != NUL && t[0] != '\"' && s != [] && s[0] == t[0] && Spells(t[1..], s[1..])
    else if |t| >= 2 && t[1] in TWO_CHARACTERS then
      s != [] && s[0] == TWO_CHARACTERS[t[1]] && Spells(t[2..], s[1..])
    else
      var d := DecodeOne(s);
      d.Point? && EscapesTo(t, d.uc) && Spells(t[EscapeWidth(d.uc)..], d.rest)
  }

  /** parse_string reads every literal as the bytes it spells. */
  lemma {:induction false} SpelledChars(t: string, s: string, u: string)
    requires Spells(t, s)
    ensures NulFree(s) && ParseChars(t + Cons('\"', u)) == Ok(s, u)
    decreases |t|
  {
    hide ParseEscape, EscapesTo, DecodeOne;
    var end := Cons('\"', u);
    var w := t + end;
    if t == [] {
      assert w == end && end[1..] == u;
    } else if t[0] != '\\' {
      assert w[1..] == t[1..] + end;
      SpelledChars(t[1..], s[1..], u);
      assert s == [s[0]] + s[1..];
    } else if |t| >= 2 && t[1] in TWO_CHARACTERS {
      assert w[1..][1..] == t[2..] + end;
      TwoCharacters(w[1..]);
      SpelledChars(t[2..], s[1..], u);
      assert s == [s[0]] + s[1..];
    } else {
      var d := DecodeOne(s);
      SpelledEscape(t, d.uc, end);
      DecodedPositive(t, s);
      DecodedIsUtf8(s);
      hide Utf8;
      SpelledChars(t[EscapeWidth(d.uc)..], d.rest, u);
    }
  }

  lemma DecodedPositive(t: string, s: string)
    requires DecodeOne(s).Point? && EscapesTo(t, DecodeOne(s).uc)
    ensures DecodeOne(s).uc > 0
  {
  }

  lemma TwoCharacters(t: string)
    requires t != [] && t[0] in TWO_CHARACTERS
    ensures ParseEscape(t) == Ok([TWO_CHARACTERS[t[0]]], t[1..])
  {
  }

  /** Any other character behind a backslash stands for itself, which is no JSON. */
  lemma OtherEscape(t: string)
    requires Peek(t) != NUL && t[0] !in TWO_CHARACTERS && t[0] != 'u'
    ensures ParseEscape(t) == Ok([t[0]], t[1..])
  {
  }

  lemma SpelledEscape(t: string, uc: nat, end: string)
    requires EscapesTo(t, uc)
    ensures ScalarValue(uc) && 1 < EscapeWidth(uc) <= |t| && t[0] == '\\'
    ensures ParseEscape((t + end)[1..]) == Ok(Utf8(uc), t[EscapeWidth(uc)..] + end)
  {
    hide Hex4, Utf8, ParseEscape;
    var w, n := t + end, EscapeWidth(uc);
    assert w[..2] == t[..2] && t[0] == t[..2][0];
    assert w[2..] == t[2..] + end && w[n..] == t[n..] + end;
    if uc >= 0x10000 { assert w[6..8] == t[6..8] && w[8..] == t[8..] + end; }
    assert EscapesTo(w, uc) by {
      if uc < 0x10000 { Hex4Longer(t[2..], end, uc); }
      else {
        Hex4Longer(t[2..], end, 0xD800 + (uc - 0x10000) / 0x400);
        Hex4Longer(t[8..], end, 0xDC00 + (uc - 0x10000) % 0x400);
      }
    }
    EscapeParses(w, uc);
  }

  lemma Hex4Longer(h: string, end: string, n: nat)
    ensures Hex4(h, n) ==> Hex4(h + end, n)
  {
  }

  lemma SpelledString(t: string, s: string, u: string)
    requires Spells(t, s)
    ensures NulFree(s) && ParseString("\"" + t + "\"" + u) == Ok(s, u)
  {
    hide Spells, ParseChars;
    SpelledChars(t, s, u);
    var quote := "\"";
    ConcatAssociative(quote + t, quote, u);
    ConcatAssociative(quote, t, quote + u);
    assert (quote + (t + Cons('\"', u)))[1..] == t + Cons('\"', u);
  }

  /** `t` spells each of the code points by an escape. */
  predicate AllEscaped(t: string, cps: seq<nat>)
    decreases |cps|
  {
    if cps == [] then t == []
    else EscapesTo(t, cps[0]) && AllEscaped(t[EscapeWidth(cps[0])..], cps[1..])
  }

  lemma {:induction false} EscapedSpells(t: string, cps: seq<nat>) returns (s: string)
    requires AllEscaped(t, cps)
    ensures Spells(t, s) && Encodes(s, cps)
    decreases |cps|
  {
    hide EscapesTo, DecodeOne, Utf8;
    if cps == [] {
      s := [];
    } else {
      var n := EscapeWidth(cps[0]);
      SpelledEscape(t, cps[0], []);
      var rest := EscapedSpells(t[n..], cps[1..]);
      Utf8Decodes(cps[0], rest);
      s := Utf8(cps[0]) + rest;
      LetterU(t, cps[0]);
    }
  }

  lemma LetterU(t: string, uc: nat)
    requires EscapesTo(t, uc)
    ensures 2 <= EscapeWidth(uc) <= |t| && t[0] == '\\' && t[1] == 'u'
  {
    assert t[..2] == [t[0], t[1]];
  }

  /** A literal spelled wholly in escapes parses to the UTF-8 of its code points. */
  lemma EscapedString(t: string, cps: seq<nat>, u: string)
    requires AllEscaped(t, cps)
    ensures var r := ParseString("\"" + t + "\"" + u); r.Ok? && r.rest == u && Encodes(r.value, cps)
  {
    hide Spells, Encodes, AllEscaped, ParseString;
    var s := EscapedSpells(t, cps);
    SpelledString(t, s, u);
  }
}
