/** `strncmp` on texts that fit their buffers, as the comparator of the name, time and host orders. */
module StrOrder {
  import opened Ordering

  function StrCmp(a: string, b: string): int {
    if a == "" && b == "" then 0
    else if a == "" then -1
    else if b == "" then 1
    else if a[0] == b[0] then StrCmp(a[1..], b[1..])
    else a[0] as int - b[0] as int
  }

  lemma {:induction false} StrCmpZero(a: string, b: string)
    ensures StrCmp(a, b) == 0 <==> a == b
  {
    if a != "" && b != "" && a[0] == b[0] {
      StrCmpZero(a[1..], b[1..]);
      assert a == [a[0]] + a[1..] && b == [b[0]] + b[1..];
    }
  }

  lemma {:induction false} StrCmpLawful(x: string, y: string, z: string)
    ensures Lawful(StrCmp, x, y, z)
    decreases |x| + |y| + |z|
  {
    StrCmpZero(x, x);
    StrCmpAntisymmetric(x, y);
    StrCmpTransitive(x, y, z);
  }

  lemma {:induction false} StrCmpAntisymmetric(x: string, y: string)
    ensures StrCmp(x, y) < 0 <==> StrCmp(y, x) > 0
    ensures StrCmp(y, x) < 0 <==> StrCmp(x, y) > 0
  {
    if x != "" && y != "" && x[0] == y[0] {
      StrCmpAntisymmetric(x[1..], y[1..]);
    }
  }

  lemma {:induction false} StrCmpTransitive(x: string, y: string, z: string)
    ensures StrCmp(x, y) <= 0 && StrCmp(y, z) <= 0 ==> StrCmp(x, z) <= 0
  {
    if x != "" && y != "" && z != "" && x[0] == y[0] && y[0] == z[0] {
      StrCmpTransitive(x[1..], y[1..], z[1..]);
    }
  }

  lemma StrCmpPreorder(s: set<string>)
    ensures Preorder(StrCmp, s)
  {
    forall x, y, z | x in s && y in s && z in s ensures Lawful(StrCmp, x, y, z) {
      StrCmpLawful(x, y, z);
    }
  }
}
