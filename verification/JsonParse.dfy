/**
 cJSON's parser.

 A `const char *` into the text is modelled by the text that remains from it; its end reads as the
 terminator, and so does a NUL inside it.  `Overrun` is the outcome of advancing past
 the terminator, which the C code does on a dangling backslash or a cut-off \u escape; `Unsupported`
 marks numbers with a fraction or an exponent, or beyond `int`.
 */
module JsonParse {
  import opened JsonText

  datatype Parsed<+T> = Ok(value: T, rest: string) | Malformed | Overrun | Unsupported
  {
    predicate IsFailure() { !Ok? }

    function PropagateFailure<U>(): Parsed<U>
      requires IsFailure()
    {
      match this
      case Malformed => Malformed
      case Overrun => Overrun
      case Unsupported => Unsupported
    }

    function Extract(): (T, string)
      requires !IsFailure()
    {
      (value, rest)
    }
  }

  /** The character under a pointer, NUL at the end of the text. */
  function Peek(t: string): (c: char) {
    if t == [] then NUL else t[0]
  }

  predicate IsDigit(c: char) {
    '0' <= c <= '9'
  }

  function Skip(t: string): (r: string)
    ensures |r| <= |t|
    ensures Peek(r) == NUL || Peek(r) as int > 32
  {
    if Peek(t) != NUL && Peek(t) as int <= 32 then Skip(t[1..]) else t
  }

  // ----- numbers -----

  /** The value of a run of digits continued from `n`, and what follows the run. */
  function ReadDigits(n: int, t: string): (r: (int, string))
    ensures |r.1| <= |t|
    decreases |t|
  {
    if t != [] && IsDigit(t[0]) then ReadDigits(n * 10 + (t[0] as int - '0' as int), t[1..]) else (n, t)
  }

  /** The integer part: at most one leading zero, then digits unless a second zero comes first. */
  function ReadUnsigned(t: string): (r: (int, string))
    ensures |r.1| <= |t|
    ensures IsDigit(Peek(t)) ==> |r.1| < |t|
  {
    var t1 := if Peek(t) == '0' then t[1..] else t;
    if '1' <= Peek(t1) <= '9' then ReadDigits(0, t1) else (0, t1)
  }

  function ParseNumber(t: string): (r: Parsed<Json>)
    requires Peek(t) == '-' || IsDigit(Peek(t))
    ensures r.Ok? ==> |r.rest| < |t| && r.value.JNumber?
  {
    var negative := t[0] == '-';
    var (n, u) := ReadUnsigned(if negative then t[1..] else t);
    if (Peek(u) == '.' && IsDigit(Peek(u[1..]))) || Peek(u) == 'e' || Peek(u) == 'E' then Unsupported
    else
      var v := if negative then -n else n;
      if -0x8000_0000 <= v < 0x8000_0000 then Ok(JNumber(v), u) else Unsupported
  }

  // ----- strings -----

  function HexValue(c: char): (v: int)
    ensures -1 <= v < 16
  {
    if '0' <= c <= '9' then c as int - '0' as int
    else if 'A' <= c <= 'F' then 10 + c as int - 'A' as int
    else if 'a' <= c <= 'f' then 10 + c as int - 'a' as int
    else -1
  }

  /** Four hexadecimal digits at the pointer, or 0 when one of them is not a digit. */
  function ParseHex4(t: string): (h: nat)
    ensures h < 0x10000
    ensures h != 0 ==> |t| >= 4
  {
    if |t| < 4 || HexValue(t[0]) < 0 || HexValue(t[1]) < 0 || HexValue(t[2]) < 0 || HexValue(t[3]) < 0 then 0
    else ((HexValue(t[0]) * 16 + HexValue(t[1])) * 16 + HexValue(t[2])) * 16 + HexValue(t[3])
  }

  /** The bytes of a code point in UTF-8. */
  function Utf8(uc: nat): (s: CString)
    requires 0 < uc < 0x110000
    ensures 1 <= |s| <= 4
  {
    if uc < 0x80 then [uc as char]
    else if uc < 0x800 then [(0xC0 + uc / 64) as char, (0x80 + uc % 64) as char]
    else if uc < 0x10000 then
      [(0xE0 + uc / 4096) as char, (0x80 + uc / 64 % 64) as char, (0x80 + uc % 64) as char]
    else
      [(0xF0 + uc / 262144) as char, (0x80 + uc / 4096 % 64) as char, (0x80 + uc / 64 % 64) as char,
       (0x80 + uc % 64) as char]
  }

  function LongEscape(e: char): (c: char) {
    match e
    case 'b' => '\U{0008}'
    case 'f' => '\U{000C}'
    case 'n' => '\n'
    case 'r' => '\r'
    case 't' => '\t'
    case _ => e
  }

  /** What one escape stands for: `t` begins just behind the backslash. */
  function ParseEscape(t: string): (r: Parsed<CString>)
    ensures r.Ok? ==> |r.rest| < |t|
  {
    if Peek(t) == NUL then Overrun
    else if t[0] != 'u' then Ok([LongEscape(t[0])], t[1..])
    else
      var uc := ParseHex4(t[1..]);
      if |t| < 5 || NUL in t[..5] then Overrun
      else if 0xDC00 <= uc <= 0xDFFF || uc == 0 then Ok([], t[5..])
      else if 0xD800 <= uc <= 0xDBFF then
        if Peek(t[5..]) != '\\' || Peek(t[6..]) != 'u' then Ok([], t[5..])
        else
          var uc2 := ParseHex4(t[7..]);
          if |t| < 11 || NUL in t[7..11] then Overrun
          else if uc2 < 0xDC00 || uc2 > 0xDFFF then Ok([], t[11..])
          else Ok(Utf8(0x10000 + uc % 0x400 * 0x400 + uc2 % 0x400), t[11..])
      else Ok(Utf8(uc), t[5..])
  }

  /** The contents of a string literal, up to and over its closing quote or up to the terminator. */
  function ParseChars(t: string): (r: Parsed<CString>)
    ensures r.Ok? ==> |r.rest| <= |t|
    decreases |t|
  {
    if Peek(t) == NUL then Ok([], t)
    else if t[0] == '\"' then Ok([], t[1..])
    else if t[0] != '\\' then
      var (s, rest) :- ParseChars(t[1..]);
      Ok([t[0]] + s, rest)
    else
      var (c, more) :- ParseEscape(t[1..]);
      var (s, rest) :- ParseChars(more);
      Ok(c + s, rest)
  }

  function ParseString(t: string): (r: Parsed<CString>)
    ensures r.Ok? ==> |r.rest| < |t|
  {
    if Peek(t) != '\"' then Malformed else ParseChars(t[1..])
  }

  // ----- values -----

  predicate StartsWith(t: string, w: string) {
    |w| <= |t| && t[..|w|] == w
  }

  function ParseValue(t: string): (r: Parsed<Json>)
    ensures r.Ok? ==> |r.rest| < |t|
    decreases |t|, 2
  {
    if StartsWith(t, "null") then Ok(JNull, t[4..])
    else if StartsWith(t, "false") then Ok(JFalse, t[5..])
    else if StartsWith(t, "true") then Ok(JTrue, t[4..])
    else if Peek(t) == '\"' then
      var (s, rest) :- ParseString(t);
      Ok(JString(s), rest)
    else if Peek(t) == '-' || IsDigit(Peek(t)) then
      ParseNumber(t)
    else if Peek(t) == '[' then ParseArray(t)
    else if Peek(t) == '{' then ParseObject(t)
    else Malformed
  }

  function ParseArray(t: string): (r: Parsed<Json>)
    requires Peek(t) == '['
    ensures r.Ok? ==> |r.rest| < |t|
    decreases |t|, 1
  {
    var t1 := Skip(t[1..]);
    if Peek(t1) == ']' then Ok(JArray([]), t1[1..])
    else
      var (items, rest) :- ParseItems(t1);
      Ok(JArray(items), rest)
  }

  function ParseObject(t: string): (r: Parsed<Json>)
    requires Peek(t) == '{'
    ensures r.Ok? ==> |r.rest| < |t|
    decreases |t|, 1
  {
    var t1 := Skip(t[1..]);
    if Peek(t1) == '}' then Ok(JObject([]), t1[1..])
    else
      var (members, rest) :- ParseMembers(t1);
      Ok(JObject(members), rest)
  }

  /** One or more values separated by commas, closed by a bracket. */
  function ParseItems(t: string): (r: Parsed<seq<Json>>)
    ensures r.Ok? ==> |r.rest| < |t|
    decreases |t|, 3
  {
    var (v, t1) :- ParseValue(Skip(t));
    var t2 := Skip(t1);
    if Peek(t2) == ',' then
      var (vs, rest) :- ParseItems(t2[1..]);
      Ok([v] + vs, rest)
    else if Peek(t2) == ']' then Ok([v], t2[1..])
    else Malformed
  }

  /** One name, its colon and its value. */
  function ParseMember(t: string): (r: Parsed<Member>)
    ensures r.Ok? ==> |r.rest| < |t|
    decreases |t|, 3
  {
    var (name, t1) :- ParseString(Skip(t));
    var t2 := Skip(t1);
    if Peek(t2) != ':' then Malformed
    else
      var (v, rest) :- ParseValue(Skip(t2[1..]));
      Ok(Member(name, v), rest)
  }

  /** One or more members separated by commas, closed by a brace. */
  function ParseMembers(t: string): (r: Parsed<seq<Member>>)
    ensures r.Ok? ==> |r.rest| < |t|
    decreases |t|, 4
  {
    var (m, t1) :- ParseMember(t);
    var t2 := Skip(t1);
    if Peek(t2) == ',' then
      var (ms, rest) :- ParseMembers(t2[1..]);
      Ok([m] + ms, rest)
    else if Peek(t2) == '}' then Ok([m], t2[1..])
    else Malformed
  }

  /** cJSON_ParseWithOpts: leading blanks, one value and, if asked for, nothing but blanks behind it. */
  function ParseDocument(t: string, toTheEnd: bool): (r: Parsed<Json>) {
    var (v, rest) :- ParseValue(Skip(t));
    var end := if toTheEnd then Skip(rest) else rest;
    if toTheEnd && end != [] then Malformed else Ok(v, end)
  }
}
