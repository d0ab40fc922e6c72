/**
 The base64 coding of the saved wireless settings.

 Bytes and sextets are integers; shifts and masks of them are written as quotients and remainders.
 */
module Base64 {
  import opened Buffers

  // ----- the tables -----

  /** An entry of base64_table: the alphabet of section 4 of RFC 4648. */
  function EncodeEntry(s: int): (c: char)
    requires 0 <= s < 64
  {
    if s < 26 then 'A' + s as char
    else if s < 52 then 'a' + (s - 26) as char
    else if s < 62 then '0' + (s - 52) as char
    else if s == 62 then '+'
    else '/'
  }

  /** An entry of base64_decode_table; characters outside the alphabet have the entry 0. */
  function DecodeEntry(c: char): (s: int)
    ensures 0 <= s < 64
  {
    if 'A' <= c <= 'Z' then (c - 'A') as int
    else if 'a' <= c <= 'z' then 26 + (c - 'a') as int
    else if '0' <= c <= '9' then 52 + (c - '0') as int
    else if c == '+' then 62
    else if c == '/' then 63
    else 0
  }

  lemma EntriesAgree(s: int)
    requires 0 <= s < 64
    ensures DecodeEntry(EncodeEntry(s)) == s && EncodeEntry(s) != '='
  {
  }

  const UPPER: string := "ABCDEFGHIJKLMNOPQRSTUVWXYZ"
  const LOWER: string := "abcdefghijklmnopqrstuvwxyz"
  const DECIMAL: string := "0123456789"

  /** The alphabet in the order of table 1 of RFC 4648. */
  const ALPHABET: string := UPPER + LOWER + DECIMAL + "+/"

  lemma UpperIs(k: int)
    ensures |UPPER| == 26 && (0 <= k < 26 ==> UPPER[k] as int == 'A' as int + k)
  {
  }

  lemma LowerIs(k: int)
    ensures |LOWER| == 26 && (0 <= k < 26 ==> LOWER[k] as int == 'a' as int + k)
  {
  }

  lemma DecimalIs(k: int)
    ensures |DECIMAL| == 10 && (0 <= k < 10 ==> DECIMAL[k] as int == '0' as int + k)
  {
  }

  /** base64_table is that alphabet. */
  lemma TableIsAlphabet(s: int)
    ensures |ALPHABET| == 64 && (0 <= s < 64 ==> EncodeEntry(s) == ALPHABET[s])
  {
    UpperIs(s);
    LowerIs(s - 26);
    DecimalIs(s - 52);
    hide UPPER, LOWER, DECIMAL;
  }

  /** And base64_decode_table gives the place of a character in it. */
  lemma DecodeTableIsPlace(c: char)
    ensures |ALPHABET| == 64
    ensures if c in ALPHABET then ALPHABET[DecodeEntry(c)] == c else DecodeEntry(c) == 0
  {
    TableIsAlphabet(DecodeEntry(c));
    if k :| 0 <= k < |ALPHABET| && ALPHABET[k] == c {
      TableIsAlphabet(k);
      EntriesAgree(k);
    }
    hide ALPHABET;
  }

  ghost predicate Bytes(s: seq<int>) {
    forall i :: 0 <= i < |s| ==> 0 <= s[i] < 256
  }

  // ----- the text of some bytes -----

  function First(a: int): (s: int)
    requires 0 <= a < 256
    ensures 0 <= s < 64
  {
    a / 4
  }

  function Second(a: int, b: int): (s: int)
    requires 0 <= a < 256 && 0 <= b < 256
    ensures 0 <= s < 64
  {
    a % 4 * 16 + b / 16
  }

  function Third(b: int, c: int): (s: int)
    requires 0 <= b < 256 && 0 <= c < 256
    ensures 0 <= s < 64
  {
    b % 16 * 4 + c / 64
  }

  function Fourth(c: int): (s: int)
    requires 0 <= c < 256
    ensures 0 <= s < 64
  {
    c % 64
  }

  /** Every three bytes become four characters; what is left over is filled up with '='. */
  ghost function Encoded(s: seq<int>): (t: string)
    requires Bytes(s)
  {
    if |s| == 0 then ""
    else if |s| == 1 then [EncodeEntry(First(s[0])), EncodeEntry(Second(s[0], 0)), '=', '=']
    else if |s| == 2 then [EncodeEntry(First(s[0])), EncodeEntry(Second(s[0], s[1])), EncodeEntry(Third(s[1], 0)), '=']
    else [EncodeEntry(First(s[0])), EncodeEntry(Second(s[0], s[1])), EncodeEntry(Third(s[1], s[2])),
          EncodeEntry(Fourth(s[2]))] + Encoded(s[3..])
  }

  /** How many characters `n` bytes take. */
  ghost function TextLength(n: nat): (l: nat) {
    (n + 2) / 3 * 4
  }

  lemma TextLengthIs(n: nat)
    ensures TextLength(n) % 4 == 0 && (n > 0 ==> TextLength(n) >= 4) && (1 <= n <= 3 ==> TextLength(n) == 4)
    ensures n >= 3 ==> TextLength(n) == 4 + TextLength(n - 3)
    ensures TextLength(0) == 0 && TextLength(n) + 1 <= n * 4 / 3 + 4
  {
  }

  lemma {:induction false} EncodedLength(s: seq<int>)
    requires Bytes(s)
    ensures |Encoded(s)| == TextLength(|s|) && |Encoded(s)| % 4 == 0 && (s != [] ==> |Encoded(s)| >= 4)
  {
    hide EncodeEntry, First, Second, Third, Fourth, TextLength;
    TextLengthIs(|s|);
    TextLengthIs(0);
    if |s| > 2 { EncodedLength(s[3..]); }
  }

  // ----- the text as the bits of the bytes -----

  /** The number that digits to a base go on to from `acc`, the first digit counting most. */
  ghost function Number(acc: int, digits: seq<int>, base: int): (n: int)
    decreases |digits|
  {
    if digits == [] then acc else Number(acc * base + digits[0], digits[1..], base)
  }

  ghost predicate Sextets(digits: seq<int>) {
    forall i :: 0 <= i < |digits| ==> 0 <= digits[i] < 64
  }

  ghost predicate Spells(t: string, digits: seq<int>) {
    && Sextets(digits) && |t| == |digits| && |ALPHABET| == 64
    && forall i :: 0 <= i < |digits| ==> t[i] == ALPHABET[digits[i]]
  }

  lemma NumberStep(acc: int, a: int, rest: seq<int>, base: int)
    ensures Number(acc, [a] + rest, base) == Number(acc * base + a, rest, base)
  {
    assert ([a] + rest)[1..] == rest;
  }

  lemma NumberThree(acc: int, a: int, b: int, c: int, rest: seq<int>, base: int)
    ensures Number(acc, [a, b, c] + rest, base) == Number(((acc * base + a) * base + b) * base + c, rest, base)
  {
    hide Number;
    assert [a, b, c] + rest == [a] + ([b] + ([c] + rest));
    NumberStep(acc, a, [b] + ([c] + rest), base);
    NumberStep(acc * base + a, b, [c] + rest, base);
    NumberStep((acc * base + a) * base + b, c, rest, base);
  }

  /** The bits that fill up the last character. */
  ghost function Filler(n: nat): (m: int) {
    if n % 3 == 1 then 16 else if n % 3 == 2 then 4 else 1
  }

  ghost function Fill(n: nat): (t: string) {
    if n % 3 == 1 then "==" else if n % 3 == 2 then "=" else ""
  }

  /**
   The text spells, six bits to a character, the number that the bytes spell with eight bits each; the
   last character is filled up with zero bits, and the text with '='.
   */
  lemma {:induction false} EncodedIsNumber(s: seq<int>, acc: int) returns (text: string, digits: seq<int>)
    requires Bytes(s)
    ensures Encoded(s) == text + Fill(|s|) && Spells(text, digits)
    ensures Number(acc, digits, 64) == Number(acc, s, 256) * Filler(|s|)
    decreases |s|
  {
    hide EncodeEntry, First, Second, Third, Fourth, Number, Spells;
    if |s| == 0 {
      text, digits := "", [];
      SpellsNothing(acc);
    } else if |s| == 1 {
      digits := [First(s[0]), Second(s[0], 0)];
      text := SpellsFew(digits);
      OneByte(acc, s[0]);
      assert s == [s[0]];
    } else if |s| == 2 {
      digits := [First(s[0]), Second(s[0], s[1]), Third(s[1], 0)];
      text := SpellsFew(digits);
      TwoBytes(acc, s[0], s[1]);
      assert s == [s[0], s[1]];
    } else {
      var a, b, c, rest := s[0], s[1], s[2], s[3..];
      var acc' := ((acc * 256 + a) * 256 + b) * 256 + c;
      var more, others := EncodedIsNumber(rest, acc');
      var four := [First(a), Second(a, b), Third(b, c), Fourth(c)];
      var front := SpellsFew(four);
      SpellsMore(front, four, more, others);
      text, digits := front + more, four + others;
      assert s == [a, b, c] + rest;
      NumberThree(acc, a, b, c, rest, 256);
      FourDigits(acc, a, b, c, others);
      assert Encoded(s) == front + Encoded(rest) == front + (more + Fill(|rest|)) == text + Fill(|s|);
    }
  }

  lemma SpellsNothing(acc: int)
    ensures Spells("", []) && Number(acc, [], 64) == acc == Number(acc, [], 256)
  {
    TableIsAlphabet(0);
  }

  lemma SpellsFew(digits: seq<int>) returns (text: string)
    requires Sextets(digits) && 2 <= |digits| <= 4
    ensures Spells(text, digits)
    ensures |digits| == 2 ==> text == [EncodeEntry(digits[0]), EncodeEntry(digits[1])]
    ensures |digits| == 3 ==> text == [EncodeEntry(digits[0]), EncodeEntry(digits[1]), EncodeEntry(digits[2])]
    ensures |digits| == 4 ==>
              text == [EncodeEntry(digits[0]), EncodeEntry(digits[1]), EncodeEntry(digits[2]), EncodeEntry(digits[3])]
  {
    hide EncodeEntry, ALPHABET;
    TableIsAlphabet(0);
    text := seq(|digits|, i requires 0 <= i < |digits| => EncodeEntry(digits[i]));
    forall i | 0 <= i < |digits|
      ensures text[i] == ALPHABET[digits[i]]
    {
      TableIsAlphabet(digits[i]);
    }
  }

  lemma SpellsMore(t: string, digits: seq<int>, more: string, others: seq<int>)
    requires Spells(t, digits) && Spells(more, others)
    ensures Spells(t + more, digits + others)
  {
    hide ALPHABET;
  }

  lemma OneByte(acc: int, a: int)
    requires 0 <= a < 256
    ensures Number(acc, [First(a), Second(a, 0)], 64) == Number(acc, [a], 256) * 16
  {
    hide Number;
    var x, y := First(a), Second(a, 0);
    assert [x, y] == [x] + [y] && [y] == [y] + [] && [a] == [a] + [];
    NumberStep(acc, x, [y], 64);
    NumberStep(acc * 64 + x, y, [], 64);
    NumberStep(acc, a, [], 256);
    NumberNone((acc * 64 + x) * 64 + y, acc * 256 + a);
  }

  lemma TwoBytes(acc: int, a: int, b: int)
    requires 0 <= a < 256 && 0 <= b < 256
    ensures Number(acc, [First(a), Second(a, b), Third(b, 0)], 64) == Number(acc, [a, b], 256) * 4
  {
    TwoSums(acc, a, b);
    hide Number, First, Second, Third;
    var x, y, z := First(a), Second(a, b), Third(b, 0);
    assert [x, y, z] == [x, y, z] + [] && [a, b] == [a] + [b] && [b] == [b] + [];
    NumberThree(acc, x, y, z, [], 64);
    NumberStep(acc, a, [b], 256);
    NumberStep(acc * 256 + a, b, [], 256);
    NumberNone(((acc * 64 + x) * 64 + y) * 64 + z, (acc * 256 + a) * 256 + b);
  }

  lemma TwoSums(acc: int, a: int, b: int)
    requires 0 <= a < 256 && 0 <= b < 256
    ensures ((acc * 64 + First(a)) * 64 + Second(a, b)) * 64 + Third(b, 0) == ((acc * 256 + a) * 256 + b) * 4
  {
    TripleOf(a, b, 0);
    assert Fourth(0) == 0;
    hide First, Second, Third;
  }

  lemma NumberNone(m: int, n: int)
    ensures Number(m, [], 64) == m && Number(n, [], 256) == n
  {
  }

  lemma FourDigits(acc: int, a: int, b: int, c: int, others: seq<int>)
    requires 0 <= a < 256 && 0 <= b < 256 && 0 <= c < 256
    ensures Number(acc, [First(a), Second(a, b), Third(b, c), Fourth(c)] + others, 64) ==
            Number(((acc * 256 + a) * 256 + b) * 256 + c, others, 64)
  {
    hide Number, First, Second, Third, Fourth;
    var x, y, z, w := First(a), Second(a, b), Third(b, c), Fourth(c);
    assert [x, y, z, w] + others == [x, y, z] + ([w] + others);
    NumberThree(acc, x, y, z, [w] + others, 64);
    NumberStep(((acc * 64 + x) * 64 + y) * 64 + z, w, others, 64);
    TripleOf(a, b, c);
  }

  // ----- the bytes of a text -----

  function Sextet(c: char): (s: int)
    ensures 0 <= s < 64
  {
    if c == '=' then 0 else DecodeEntry(c)
  }

  function Triple(a: char, b: char, c: char, d: char): (n: int)
    ensures 0 <= n < 0x1000000
  {
    Sextet(a) * 0x40000 + Sextet(b) * 0x1000 + Sextet(c) * 0x40 + Sextet(d)
  }

  ghost function ThreeBytes(n: int): (s: seq<int>)
    ensures |s| == 3
  {
    [n / 0x10000 % 256, n / 0x100 % 256, n % 256]
  }

  ghost function AllBytes(t: string): (s: seq<int>) {
    if |t| < 4 then [] else ThreeBytes(Triple(t[0], t[1], t[2], t[3])) + AllBytes(t[4..])
  }

  lemma {:induction false} AllBytesLength(t: string)
    ensures |AllBytes(t)| == |t| / 4 * 3
  {
    hide Triple, ThreeBytes;
    if |t| >= 4 { AllBytesLength(t[4..]); }
  }

  /** How many bytes a text stands for, by its length and its last two characters. */
  function OutLength(t: string): (n: int)
    requires |t| % 4 == 0 && |t| > 0
    ensures |t| / 4 * 3 - 2 <= n <= |t| / 4 * 3
  {
    |t| / 4 * 3 - (if t[|t| - 1] == '=' then 1 else 0) - (if t[|t| - 2] == '=' then 1 else 0)
  }

  ghost function Decoded(t: string): (s: seq<int>)
    requires |t| % 4 == 0 && |t| > 0
    ensures |s| == OutLength(t)
  {
    AllBytesLength(t);
    AllBytes(t)[..OutLength(t)]
  }

  // ----- what was encoded comes back -----

  lemma SextetOf(s: int)
    requires 0 <= s < 64
    ensures Sextet(EncodeEntry(s)) == s && EncodeEntry(s) != '='
  {
    EntriesAgree(s);
  }

  lemma TripleOf(a: int, b: int, c: int)
    requires 0 <= a < 256 && 0 <= b < 256 && 0 <= c < 256
    ensures First(a) * 0x40000 + Second(a, b) * 0x1000 + Third(b, c) * 0x40 + Fourth(c) == a * 0x10000 + b * 0x100 + c
  {
  }

  lemma BytesOf(a: int, b: int, c: int)
    requires 0 <= a < 256 && 0 <= b < 256 && 0 <= c < 256
    ensures ThreeBytes(a * 0x10000 + b * 0x100 + c) == [a, b, c]
  {
    var n := a * 0x10000 + b * 0x100 + c;
    assert n / 0x10000 == a;
    assert n / 0x100 == a * 256 + b && (a * 256 + b) % 256 == b;
    assert n % 256 == c;
  }

  /** Four characters decode to the three bytes they were made of; '=' stands for a sextet that is zero. */
  lemma QuadBytes(a: int, b: int, c: int, third: char, fourth: char)
    requires 0 <= a < 256 && 0 <= b < 256 && 0 <= c < 256
    requires third == EncodeEntry(Third(b, c)) || (third == '=' && Third(b, c) == 0)
    requires fourth == EncodeEntry(Fourth(c)) || (fourth == '=' && Fourth(c) == 0)
    ensures ThreeBytes(Triple(EncodeEntry(First(a)), EncodeEntry(Second(a, b)), third, fourth)) == [a, b, c]
  {
    hide EncodeEntry, First, Second, Third, Fourth, ThreeBytes;
    SextetOf(First(a));
    SextetOf(Second(a, b));
    SextetOf(Third(b, c));
    SextetOf(Fourth(c));
    TripleOf(a, b, c);
    BytesOf(a, b, c);
  }

  lemma {:induction false} RoundTripAll(s: seq<int>)
    requires Bytes(s)
    ensures var t := Encoded(s);
            |AllBytes(t)| >= |s| && AllBytes(t)[..|s|] == s
  {
    hide EncodeEntry, DecodeEntry, First, Second, Third, Fourth, Triple, ThreeBytes, TextLength;
    EncodedLength(s);
    var t := Encoded(s);
    if |s| == 1 {
      ZeroSextets();
      QuadBytes(s[0], 0, 0, '=', '=');
      assert AllBytes(t) == [s[0], 0, 0] + AllBytes(t[4..]);
    } else if |s| == 2 {
      ZeroSextets();
      QuadBytes(s[0], s[1], 0, EncodeEntry(Third(s[1], 0)), '=');
      assert AllBytes(t) == [s[0], s[1], 0] + AllBytes(t[4..]);
    } else if |s| > 2 {
      RoundTripAll(s[3..]);
      QuadBytes(s[0], s[1], s[2], EncodeEntry(Third(s[1], s[2])), EncodeEntry(Fourth(s[2])));
      assert t[4..] == Encoded(s[3..]);
      assert AllBytes(t) == [s[0], s[1], s[2]] + AllBytes(t[4..]);
      assert s == [s[0], s[1], s[2]] + s[3..];
    }
  }

  lemma ZeroSextets()
    ensures Third(0, 0) == 0 && Fourth(0) == 0
  {
  }

  /** The padding tells exactly how many bytes there were. */
  lemma {:induction false} Padding(s: seq<int>)
    requires Bytes(s) && s != []
    ensures |Encoded(s)| % 4 == 0 && |Encoded(s)| > 0 && OutLength(Encoded(s)) == |s|
  {
    hide EncodeEntry, First, Second, Third, Fourth, TextLength;
    EncodedLength(s);
    var t := Encoded(s);
    if |s| == 2 {
      SextetOf(Third(s[1], 0));
    } else if |s| == 3 {
      assert t[..4] == t;
      SextetOf(Third(s[1], s[2]));
      SextetOf(Fourth(s[2]));
    } else if |s| > 3 {
      Padding(s[3..]);
      OutLengthStep(t[..4], Encoded(s[3..]));
    }
  }

  lemma OutLengthStep(four: string, rest: string)
    requires |four| == 4 && |rest| % 4 == 0 && |rest| > 0
    ensures |four + rest| % 4 == 0 && OutLength(four + rest) == 3 + OutLength(rest)
  {
    assert |four + rest| / 4 == 1 + |rest| / 4;
  }

  lemma RoundTrip(s: seq<int>)
    requires Bytes(s) && s != []
    ensures |Encoded(s)| % 4 == 0 && |Encoded(s)| > 0
    ensures OutLength(Encoded(s)) == |s| && Decoded(Encoded(s)) == s
  {
    hide Encoded, AllBytes, OutLength;
    RoundTripAll(s);
    Padding(s);
  }

  /** Different bytes have different texts. */
  lemma EncodedInjective(s: seq<int>, s': seq<int>)
    requires Bytes(s) && Bytes(s') && Encoded(s) == Encoded(s')
    ensures s == s'
  {
    EncodedLength(s);
    EncodedLength(s');
    if s != [] && s' != [] {
      RoundTrip(s);
      RoundTrip(s');
    }
  }

  // ----- the loops -----

  /** The text and its terminator fit what write_cfg allocates. */
  lemma TextFits(s: seq<int>)
    requires Bytes(s)
    ensures |Encoded(s)| + 1 <= |s| * 4 / 3 + 4
  {
    EncodedLength(s);
    TextLengthIs(|s|);
  }

  lemma Advance<T>(goal: seq<T>, pos: nat, part: seq<T>, rest: seq<T>)
    requires pos <= |goal| && goal[pos..] == part + rest
    ensures pos + |part| <= |goal| && goal[..pos + |part|] == goal[..pos] + part && goal[pos + |part|..] == rest
  {
    assert goal == goal[..pos] + (part + rest);
  }

  /** str_base64_encode_len, into a buffer of the size that write_cfg allocates. */
  method Encode(src: seq<int>, out: array<char>)
    requires Bytes(src) && out.Length >= |src| * 4 / 3 + 4
    modifies out
    ensures |Encoded(src)| < out.Length && out[..|Encoded(src)|] == Encoded(src) && out[|Encoded(src)|] == '\0'
  {
    hide EncodeEntry, First, Second, Third, Fourth;
    TextFits(src);
    ghost var goal := Encoded(src);
    var i, pos := 0, 0;
    assert src[0..] == src;
    while |src| - i >= 3
      invariant 0 <= i <= |src| && 0 <= pos <= |goal|
      invariant out[..pos] == goal[..pos] && goal[pos..] == Encoded(src[i..])
    {
      NextThree(src, i);
      var a, b, c := src[i], src[i + 1], src[i + 2];
      var four := [EncodeEntry(First(a)), EncodeEntry(Second(a, b)), EncodeEntry(Third(b, c)), EncodeEntry(Fourth(c))];
      Advance(goal, pos, four, Encoded(src[i + 3..]));
      Poke(out, pos, four);
      i, pos := i + 3, pos + 4;
    }
    if |src| - i != 0 {
      var a := src[i];
      var four := if |src| - i == 1 then [EncodeEntry(First(a)), EncodeEntry(Second(a, 0)), '=', '=']
                  else [EncodeEntry(First(a)), EncodeEntry(Second(a, src[i + 1])),
                        EncodeEntry(Third(src[i + 1], 0)), '='];
      Advance(goal, pos, four, []);
      Poke(out, pos, four);
      pos := pos + 4;
    }
    out[pos] := '\0';
  }

  lemma NextThree(src: seq<int>, i: int)
    requires Bytes(src) && 0 <= i <= |src| - 3
    ensures Encoded(src[i..]) ==
            [EncodeEntry(First(src[i])), EncodeEntry(Second(src[i], src[i + 1])),
             EncodeEntry(Third(src[i + 1], src[i + 2])), EncodeEntry(Fourth(src[i + 2]))] + Encoded(src[i + 3..])
  {
    assert src[i..][3..] == src[i + 3..];
  }

  /** The three bytes of a triple, as far as `length` allows. */
  method PutBytes(decoded: array<int>, at: nat, length: nat, triple: int) returns (j: nat)
    requires at <= length <= decoded.Length
    modifies decoded
    ensures j == if at + 3 < length then at + 3 else length
    ensures decoded[..j] == old(decoded[..at]) + ThreeBytes(triple)[..j - at]
  {
    j := at;
    if j < length { decoded[j] := triple / 0x10000 % 256; j := j + 1; }
    if j < length { decoded[j] := triple / 0x100 % 256; j := j + 1; }
    if j < length { decoded[j] := triple % 256; j := j + 1; }
  }

  /** The loop of str_base64_decode. */
  method DecodeGroups(data: string, decoded: array<int>, length: nat)
    requires |data| % 4 == 0 && length <= |AllBytes(data)| && length <= decoded.Length
    modifies decoded
    ensures decoded[..length] == AllBytes(data)[..length]
  {
    hide Triple, ThreeBytes;
    ghost var goal, at := AllBytes(data), 0;
    var i, j := 0, 0;
    assert data[0..] == data;
    while i < |data|
      invariant 0 <= i <= |data| && (|data| - i) % 4 == 0
      invariant 0 <= at <= |goal| && goal[at..] == AllBytes(data[i..])
      invariant j == (if at < length then at else length) && decoded[..j] == goal[..j]
    {
      NextFour(data, i);
      var triple := Triple(data[i], data[i + 1], data[i + 2], data[i + 3]);
      Advance(goal, at, ThreeBytes(triple), AllBytes(data[i + 4..]));
      NextPart(goal, at, ThreeBytes(triple), j, length);
      j := PutBytes(decoded, j, length, triple);
      i, at := i + 4, at + 3;
    }
  }

  /** str_base64_decode; no bytes for a text whose length is not a multiple of four. */
  method Decode(data: string, decoded: array<int>) returns (length: int)
    requires |data| > 0
    requires |data| % 4 == 0 ==> decoded.Length >= OutLength(data)
    modifies decoded
    ensures |data| % 4 != 0 ==> length == 0 && decoded[..] == old(decoded[..])
    ensures |data| % 4 == 0 ==> length == OutLength(data) && decoded[..length] == Decoded(data)
  {
    if |data| % 4 != 0 { return 0; }
    length := |data| / 4 * 3;
    AllBytesLength(data);
    if data[|data| - 1] == '=' { length := length - 1; }
    if data[|data| - 2] == '=' { length := length - 1; }
    DecodeGroups(data, decoded, length);
  }

  lemma NextPart(goal: seq<int>, at: nat, part: seq<int>, j: nat, length: nat)
    requires |part| == 3 && at + 3 <= |goal| && goal[..at + 3] == goal[..at] + part && length <= |goal|
    requires j == if at < length then at else length
    ensures var j' := if j + 3 < length then j + 3 else length; goal[..j'] == goal[..j] + part[..j' - j]
  {
    if at <= length {
      var j' := if j + 3 < length then j + 3 else length;
      assert goal[..at + 3][..j'] == goal[..j'];
    }
  }

  lemma NextFour(data: string, i: nat)
    requires i < |data| && (|data| - i) % 4 == 0
    ensures i + 4 <= |data| && (|data| - (i + 4)) % 4 == 0
    ensures AllBytes(data[i..])
            == ThreeBytes(Triple(data[i], data[i + 1], data[i + 2], data[i + 3])) + AllBytes(data[i + 4..])
  {
    assert data[i..][4..] == data[i + 4..];
  }
}
