/** Character buffers that are filled from the front. */
module Buffers {

  /** memcpy of a string's characters to `p + at`. */
  method Poke(p: array<char>, at: nat, s: string)
    requires at + |s| <= p.Length
    modifies p
    ensures p[..at + |s|] == old(p[..at]) + s
  {
    for i := 0 to |s|
      invariant p[..at + i] == old(p[..at]) + s[..i]
    {
      p[at + i] := s[i];
      assert p[..at + i + 1] == p[..at + i] + [s[i]];
      assert s[..i + 1] == s[..i] + [s[i]];
    }
    assert s[..|s|] == s;
  }

  /** The characters and a terminator. */
  method PokeEnded(p: array<char>, at: nat, s: string)
    requires at + |s| < p.Length
    modifies p
    ensures p[..at + |s|] == old(p[..at]) + s && p[at + |s|] == '\0'
  {
    Poke(p, at, s);
    ghost var text := p[..at + |s|];
    p[at + |s|] := '\0';
    assert p[..at + |s|] == text;
  }
}
