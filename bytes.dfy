/** Byte strings and the few library operations on them that the core
    relies on: substring search (Go's `strings.Index`), containment,
    prefixes, and "nothing but white space" as Go's `TrimSpace` decides it. */
module ByteStrings {

  newtype byte = b: int | 0 <= b < 256

  type Bytes = seq<byte>

  /** `sub` occurs in `s` starting at offset `i`. */
  predicate OccursAt(s: Bytes, sub: Bytes, i: int)
  {
    0 <= i && i + |sub| <= |s| && s[i..i + |sub|] == sub
  }

  predicate Contains(s: Bytes, sub: Bytes)
  {
    exists i | 0 <= i <= |s| :: OccursAt(s, sub, i)
  }

  predicate HasPrefix(s: Bytes, prefix: Bytes)
  {
    |prefix| <= |s| && s[..|prefix|] == prefix
  }

  predicate HasSuffix(s: Bytes, suffix: Bytes)
  {
    |suffix| <= |s| && s[|s| - |suffix|..] == suffix
  }

  /** No byte of `s` is '#' (35). */
  predicate HashFree(s: Bytes)
  {
    forall i | 0 <= i < |s| :: s[i] != 35
  }

  /** First occurrence of `sub` in `s` at or after `from`, or -1. */
  function IndexFrom(s: Bytes, sub: Bytes, from: nat): (r: int)
    requires from <= |s|
    ensures r == -1 || (from <= r && OccursAt(s, sub, r))
    ensures r == -1 ==> forall j :: from <= j ==> !OccursAt(s, sub, j)
    ensures r != -1 ==> forall j :: from <= j < r ==> !OccursAt(s, sub, j)
    decreases |s| - from
  {
    if OccursAt(s, sub, from) then from
    else if from == |s| then -1
    else IndexFrom(s, sub, from + 1)
  }

  /** Go's `strings.Index(s, sub)`: the offset of the first occurrence of
      `sub` in `s`, or -1 when there is none. */
  function Index(s: Bytes, sub: Bytes): (r: int)
    ensures r == -1 || OccursAt(s, sub, r)
    ensures r == -1 ==> forall j :: !OccursAt(s, sub, j)
    ensures r != -1 ==> forall j :: 0 <= j < r ==> !OccursAt(s, sub, j)
  {
    IndexFrom(s, sub, 0)
  }

  /** The offset of a first occurrence is what `Index` returns. */
  lemma {:induction false} IndexIs(s: Bytes, sub: Bytes, k: int)
    requires OccursAt(s, sub, k)
    requires forall j | 0 <= j < k :: !OccursAt(s, sub, j)
    ensures Index(s, sub) == k
  {
  }

  /** Without an occurrence `Index` returns -1. */
  lemma {:induction false} IndexNone(s: Bytes, sub: Bytes)
    requires forall j | 0 <= j <= |s| :: !OccursAt(s, sub, j)
    ensures Index(s, sub) == -1
  {
  }

  /** An occurrence in a prefix `s[..k]` is an occurrence in `s`. */
  lemma {:induction false} OccursInPrefix(s: Bytes, sub: Bytes, k: nat, i: int)
    requires k <= |s|
    requires OccursAt(s[..k], sub, i)
    ensures OccursAt(s, sub, i)
  {
    assert s[..k][i..i + |sub|] == s[i..i + |sub|];
  }

  /** An occurrence in a suffix `s[k..]` is an occurrence in `s`, shifted by `k`. */
  lemma {:induction false} OccursInSuffix(s: Bytes, sub: Bytes, k: nat, i: int)
    requires k <= |s|
    ensures OccursAt(s[k..], sub, i) <==> (0 <= i && OccursAt(s, sub, k + i))
  {
    if 0 <= i && k + i + |sub| <= |s| {
      assert s[k..][i..i + |sub|] == s[k + i..k + i + |sub|];
    }
  }

  /** Width of the white-space rune that `s` starts with, 0 if it starts with
      none. White space is Go's `unicode.IsSpace`, read from UTF-8: the six
      ASCII spaces, and the encodings of U+0085, U+00A0, U+1680,
      U+2000 to U+200A, U+2028, U+2029, U+202F, U+205F and U+3000. A byte
      that does not start a valid encoding decodes to the replacement
      rune, which is not a space. */
  function SpaceWidth(s: Bytes): (k: nat)
    ensures k <= |s| && k <= 3
  {
    if |s| >= 1 && (9 <= s[0] <= 13 || s[0] == 32) then 1
    else if |s| >= 2 && s[0] == 0xC2 && (s[1] == 0x85 || s[1] == 0xA0) then 2
    else if |s| >= 3 && s[0] == 0xE1 && s[1] == 0x9A && s[2] == 0x80 then 3
    else if |s| >= 3 && s[0] == 0xE2 && s[1] == 0x80
            && (0x80 <= s[2] <= 0x8A || s[2] == 0xA8 || s[2] == 0xA9 || s[2] == 0xAF) then 3
    else if |s| >= 3 && s[0] == 0xE2 && s[1] == 0x81 && s[2] == 0x9F then 3
    else if |s| >= 3 && s[0] == 0xE3 && s[1] == 0x80 && s[2] == 0x80 then 3
    else 0
  }

  /** `s` is empty or made of white space only: Go's `TrimSpace(s)` is empty. */
  predicate Blank(s: Bytes)
    decreases |s|
  {
    s == [] || (SpaceWidth(s) > 0 && Blank(s[SpaceWidth(s)..]))
  }

}
