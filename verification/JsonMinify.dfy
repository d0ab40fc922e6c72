/** cJSON_Minify: strips blanks and comments from a JSON text in place. */
module JsonMinify {
  import opened JsonText
  import opened JsonParse
  import opened JsonGrammar

  /** `RunsOff` is the outcome when an unclosed literal or comment leads past the terminator. */
  datatype Minified = Done(text: string) | RunsOff

  function Prepend(done: string, m: Minified): (r: Minified) {
    if m.Done? then Done(done + m.text) else m
  }

  predicate Whitespace(c: char) {
    c == ' ' || c == '\t' || c == '\r' || c == '\n'
  }

  /** The characters up to the end of the line. */
  function LineLength(t: string): (n: nat)
    ensures n <= |t|
  {
    if Peek(t) == NUL || t[0] == '\n' then 0 else 1 + LineLength(t[1..])
  }

  /** The characters up to and over the end of a comment, or -1 if it is not closed. */
  function CommentLength(t: string): (n: int)
    ensures n < 0 || 2 <= n <= |t|
  {
    if Peek(t) == NUL then -1
    else if t[0] == '*' && Peek(t[1..]) == '/' then 2
    else Plus(1, CommentLength(t[1..]))
  }

  /** The length of a string literal's text from behind its opening quote to behind its closing one. */
  function LiteralLength(t: string): (n: int)
    ensures n < 0 || 1 <= n <= |t|
    decreases |t|
  {
    if Peek(t) == NUL then -1
    else if t[0] == '\"' then 1
    else if t[0] == '\\' then
      if Peek(t[1..]) == NUL then -1
      else Plus(2, LiteralLength(t[2..]))
    else Plus(1, LiteralLength(t[1..]))
  }

  function Plus(k: nat, n: int): (r: int) {
    if n < 0 then n else k + n
  }

  /** What one round of the loop does with the text at the read pointer. */
  datatype Round = Drop(k: nat) | Copy(k: nat) | Stray

  function NextRound(t: string): (r: Round)
    requires Peek(t) != NUL
    ensures !r.Stray? ==> 1 <= r.k <= |t|
  {
    if Whitespace(t[0]) then Drop(1)
    else if t[0] == '/' && Peek(t[1..]) == '/' then Drop(LineLength(t))
    else if t[0] == '/' && Peek(t[1..]) == '*' then
      var n := CommentLength(t);
      if n < 0 then Stray else Drop(n)
    else if t[0] == '\"' then
      var n := LiteralLength(t[1..]);
      if n < 0 then Stray else Copy(n + 1)
    else Copy(1)
  }

  function Minify(t: string): (m: Minified)
    decreases |t|
  {
    if Peek(t) == NUL then Done("")
    else
      match NextRound(t)
      case Drop(k) => Minify(t[k..])
      case Copy(k) => Prepend(t[..k], Minify(t[k..]))
      case Stray => RunsOff
  }

  // ----- one round at a time -----

  /** Minifying `t` gives `w`. */
  ghost predicate Gives(t: string, w: string) {
    Minify(t) == Done(w)
  }

  lemma GivesBlank(c: char, t: string, w: string)
    requires Whitespace(c) && Gives(t, w)
    ensures Gives(Cons(c, t), w)
  {
    ConsTail(c, t);
  }

  lemma GivesChar(c: char, t: string, w: string)
    requires !Whitespace(c) && c != NUL && c != '/' && c != '\"' && Gives(t, w)
    ensures Gives(Cons(c, t), Cons(c, w))
  {
    ConsTail(c, t);
  }

  predicate Copied(s: string) {
    forall i :: 0 <= i < |s| ==> !Whitespace(s[i]) && s[i] != NUL && s[i] != '/' && s[i] != '\"'
  }

  lemma {:induction false} GivesWord(s: string, t: string, w: string)
    requires Copied(s) && Gives(t, w)
    ensures Gives(s + t, s + w)
  {
    if s == [] {
      assert s + t == t && s + w == w;
    } else {
      GivesWord(s[1..], t, w);
      GivesChar(s[0], s[1..] + t, s[1..] + w);
      assert s + t == Cons(s[0], s[1..] + t) && s + w == Cons(s[0], s[1..] + w);
    }
  }

  lemma {:induction false} PlainLength(s: string, t: string)
    requires forall k :: 0 <= k < |s| ==> s[k] != '\"' && s[k] != '\\' && s[k] != NUL
    ensures LiteralLength(s + t) == Plus(|s|, LiteralLength(t))
  {
    if s == [] {
      assert s + t == t;
    } else {
      PlainLength(s[1..], t);
      assert (s + t)[1..] == s[1..] + t;
    }
  }

  // ----- in place -----

  /** Minifying all of the text comes to what has been written plus what the rest will give. */
  ghost predicate SoFar(was: string, written: string, json: nat)
    requires json <= |was|
  {
    Minify(was) == Prepend(written, Minify(was[json..]))
  }

  lemma SoFarStart(was: string)
    ensures SoFar(was, "", 0)
  {
    assert was[0..] == was;
    var m := Minify(was);
    if m.Done? { assert "" + m.text == m.text; }
  }

  lemma RestOfRest(was: string, json: nat, k: nat)
    requires json + k <= |was|
    ensures was[json..][k..] == was[json + k..] && was[json..][..k] == was[json..json + k]
  {
  }

  lemma SoFarRound(was: string, written: string, json: nat)
    requires json <= |was| && SoFar(was, written, json)
    requires Peek(was[json..]) != NUL
    ensures match NextRound(was[json..])
            case Drop(k) => SoFar(was, written, json + k)
            case Copy(k) => SoFar(was, written + was[json..json + k], json + k)
            case Stray => Minify(was) == RunsOff
  {
    hide NextRound, Minify;
    var t := was[json..];
    MinifyUnfold(t);
    match NextRound(t)
    case Stray =>
    case Drop(k) => RestOfRest(was, json, k);
    case Copy(k) =>
      RestOfRest(was, json, k);
      var m := Minify(was[json + k..]);
      if m.Done? { ConcatAssociative(written, was[json..json + k], m.text); }
  }

  lemma MinifyUnfold(t: string)
    requires Peek(t) != NUL
    ensures NextRound(t).Drop? ==> Minify(t) == Minify(t[NextRound(t).k..])
    ensures NextRound(t).Copy? ==> Minify(t) == Prepend(t[..NextRound(t).k], Minify(t[NextRound(t).k..]))
    ensures NextRound(t).Stray? ==> Minify(t) == RunsOff
  {
  }

  /** From `start` on, the array holds a text whose terminator is at `n`. */
  ghost predicate Terminated(a: array<char>, start: nat, n: nat)
    reads a
  {
    start <= n < a.Length && forall i :: start <= i <= n ==> (a[i] == NUL <==> i == n)
  }

  method ScanLine(a: array<char>, start: nat, ghost n: nat) returns (k: nat)
    requires Terminated(a, start, n)
    ensures k == LineLength(a[start..n])
  {
    var p := start;
    while a[p] != NUL && a[p] != '\n'
      invariant start <= p <= n
      invariant LineLength(a[start..n]) == p - start + LineLength(a[p..n])
      decreases n - p
    {
      assert a[p..n][1..] == a[p + 1..n];
      p := p + 1;
    }
    return p - start;
  }

  method ScanComment(a: array<char>, start: nat, ghost n: nat) returns (k: int)
    requires Terminated(a, start, n)
    ensures k == CommentLength(a[start..n])
  {
    var p := start;
    while a[p] != NUL && !(a[p] == '*' && a[p + 1] == '/')
      invariant start <= p <= n
      invariant CommentLength(a[start..n]) == Plus(p - start, CommentLength(a[p..n]))
      decreases n - p
    {
      assert a[p..n][1..] == a[p + 1..n];
      p := p + 1;
    }
    if a[p] == NUL { return -1; }
    assert a[p..n][1..] == a[p + 1..n];
    return p + 2 - start;
  }

  method ScanLiteral(a: array<char>, start: nat, ghost n: nat) returns (k: int)
    requires Terminated(a, start, n)
    ensures k == LiteralLength(a[start..n])
  {
    var p := start;
    while a[p] != NUL && a[p] != '\"'
      invariant start <= p <= n
      invariant LiteralLength(a[start..n]) == Plus(p - start, LiteralLength(a[p..n]))
      decreases n - p
    {
      assert a[p..n][1..] == a[p + 1..n];
      if a[p] == '\\' {
        if a[p + 1] == NUL { return -1; }
        assert a[p..n][2..] == a[p + 2..n];
        p := p + 2;
      } else {
        p := p + 1;
      }
    }
    return if a[p] == NUL then -1 else p + 1 - start;
  }

  method ScanRound(a: array<char>, json: nat, ghost n: nat) returns (r: Round)
    requires json < n && Terminated(a, json, n)
    ensures r == NextRound(a[json..n])
  {
    var c, d := a[json], a[json + 1];
    assert a[json..n][1..] == a[json + 1..n];
    if Whitespace(c) {
      r := Drop(1);
    } else if c == '/' && d == '/' {
      var k := ScanLine(a, json, n);
      r := Drop(k);
    } else if c == '/' && d == '*' {
      var k := ScanComment(a, json, n);
      r := if k < 0 then Stray else Drop(k);
    } else if c == '\"' {
      var k := ScanLiteral(a, json + 1, n);
      r := if k < 0 then Stray else Copy(k + 1);
    } else {
      r := Copy(1);
    }
  }

  /** Moves `k` characters down from `json` to `into`. */
  method MoveDown(a: array<char>, into: nat, json: nat, k: nat)
    requires into <= json && json + k <= a.Length
    modifies a
    ensures a[..into + k] == old(a[..into]) + old(a[json..json + k])
    ensures forall i :: json + k <= i < a.Length ==> a[i] == old(a[i])
  {
    for i := 0 to k
      invariant a[..into + i] == old(a[..into]) + old(a[json..json + i])
      invariant forall j :: json + i <= j < a.Length ==> a[j] == old(a[j])
    {
      a[into + i] := a[json + i];
      assert a[..into + i + 1] == a[..into + i] + [a[into + i]];
    }
  }

  /** From `json` on the array still holds the text `was`, and in front of `into` what is kept of the rest. */
  ghost predicate Underway(a: array<char>, was: string, into: nat, json: nat)
    reads a
  {
    && into <= json <= |was| < a.Length
    && Terminated(a, json, |was|)
    && (forall i :: json <= i < |was| ==> a[i] == was[i])
    && SoFar(was, a[..into], json)
  }

  /** One round of the loop. */
  method MinifyRound(a: array<char>, into: nat, json: nat, ghost was: string)
    returns (ok: bool, into': nat, json': nat)
    requires Underway(a, was, into, json) && json < |was|
    modifies a
    ensures !ok ==> Minify(was) == RunsOff
    ensures ok ==> Underway(a, was, into', json') && json < json'
  {
    hide SoFar, NextRound;
    assert a[json..|was|] == was[json..];
    var r := ScanRound(a, json, |was|);
    SoFarRound(was, a[..into], json);
    hide Minify;
    match r
    case Stray => return false, into, json;
    case Drop(k) => return true, into, json + k;
    case Copy(k) =>
      assert a[json..json + k] == was[json..json + k];
      MoveDown(a, into, json, k);
      return true, into + k, json + k;
  }

  /** cJSON_Minify on the array that holds the text; `ok` is false where the C code leaves the text. */
  method MinifyInPlace(a: array<char>, ghost n: nat) returns (ok: bool)
    requires Terminated(a, 0, n)
    modifies a
    ensures ok == Minify(old(a[..n])).Done?
    ensures ok ==> var text := Minify(old(a[..n])).text;
                   |text| <= n && a[..|text|] == text && a[|text|] == NUL
  {
    ghost var was := a[..n];
    SoFarStart(was);
    var json: nat, into: nat := 0, 0;
    while a[json] != NUL
      invariant Underway(a, was, into, json)
      decreases n - json
    {
      ok, into, json := MinifyRound(a, into, json, was);
      if !ok { return; }
    }
    assert was[json..] == "" && a[..into] + "" == a[..into];
    a[into] := NUL;
    return true;
  }
}
