/** C strings as the IDL compiler uses them: character sequences that do not contain the terminator. */
module Idents {

  const NUL: char := '\0'

  /** A C string; its terminator is not part of the sequence. */
  type Ident = s: string | NUL !in s witness ""

  /** What `s[k]` reads in C: the terminator sits at index |s|. */
  function CharAt(s: Ident, k: nat): char
    requires k <= |s|
  {
    if k == |s| then NUL else s[k]
  }

  /** The sign of strcmp. */
  function Strcmp(a: Ident, b: Ident): int {
    if a == [] && b == [] then 0
    else if a == [] then -1
    else if b == [] then 1
    else if a[0] < b[0] then -1
    else if a[0] > b[0] then 1
    else Strcmp(a[1..], b[1..])
  }

  lemma {:induction false} StrcmpTotal(a: Ident, b: Ident)
    ensures Strcmp(a, b) == -Strcmp(b, a)
    ensures Strcmp(a, b) == 0 <==> a == b
  {
    if a != [] && b != [] && a[0] == b[0] {
      StrcmpTotal(a[1..], b[1..]);
      assert a == [a[0]] + a[1..] && b == [b[0]] + b[1..];
    }
  }

  lemma {:induction false} StrcmpTransitive(a: Ident, b: Ident, c: Ident)
    requires Strcmp(a, b) <= 0 && Strcmp(b, c) <= 0
    ensures Strcmp(a, c) <= 0
  {
    if a != [] && b != [] && c != [] && a[0] == b[0] == c[0] {
      StrcmpTransitive(a[1..], b[1..], c[1..]);
    }
  }

  /** strcmp order is the order of the first character after a common prefix. */
  lemma {:induction false} StrcmpAtPrefix(a: Ident, b: Ident, k: nat)
    requires k <= |a| && k <= |b| && a[..k] == b[..k]
    requires Strcmp(a, b) <= 0
    ensures CharAt(a, k) <= CharAt(b, k)
  {
    if k > 0 {
      assert a[0] == a[..k][0] == b[..k][0] == b[0];
      assert a[1..][..k - 1] == a[..k][1..] == b[..k][1..] == b[1..][..k - 1];
      StrcmpAtPrefix(a[1..], b[1..], k - 1);
    }
  }
}
