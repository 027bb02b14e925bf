/** Optional values, and lists: joined, and with elements erased. */
module Lists {
  datatype Option<T> = None | Some(value: T)

  function Concat<T>(parts: seq<seq<T>>): seq<T> {
    if parts == [] then [] else parts[0] + Concat(parts[1..])
  }

  lemma {:induction false} ConcatSnoc<T>(parts: seq<seq<T>>, last: seq<T>)
    ensures Concat(parts + [last]) == Concat(parts) + last
  {
    if parts == [] {
      assert parts + [last] == [last] && Concat([last][1..]) == [];
      assert last + [] == last && [] + last == last;
    } else {
      ConcatSnoc(parts[1..], last);
      assert (parts + [last])[1..] == parts[1..] + [last];
      assert parts[0] + (Concat(parts[1..]) + last) == Concat(parts) + last;
    }
  }

  lemma PrefixOfConcat<T>(a: seq<T>, b: seq<T>, n: nat)
    requires n <= |a + b|
    ensures n <= |a| ==> (a + b)[..n] == a[..n]
    ensures n >= |a| ==> (a + b)[..n] == a + b[..n - |a|]
  {}

  predicate Distinct<T(==)>(q: seq<T>) { forall i, j | 0 <= i < j < |q| :: q[i] != q[j] }

  function Without<T>(q: seq<T>, i: nat): seq<T>
    requires i < |q|
  {
    q[..i] + q[i + 1..]
  }

  lemma WithoutKeeps<T>(q: seq<T>, i: nat)
    requires i < |q| && Distinct(q)
    ensures Distinct(Without(q, i))
    ensures forall c :: c in Without(q, i) <==> c in q && c != q[i]
  {
    var r := Without(q, i);
    forall c | c in q && c != q[i] ensures c in r {
      var k :| 0 <= k < |q| && q[k] == c;
      assert r[if k < i then k else k - 1] == c;
    }
  }

  function Except<T(==)>(q: seq<T>, c: T): (r: seq<T>)
    ensures c !in r
    ensures forall x :: x in q && x != c ==> x in r
  {
    if q == [] then [] else (if q[0] == c then [] else [q[0]]) + Except(q[1..], c)
  }

  lemma {:induction false} ExceptNone<T>(q: seq<T>, c: T)
    requires c !in q
    ensures Except(q, c) == q
  {
    if q != [] {
      ExceptNone(q[1..], c);
    }
  }

  lemma {:induction false} ExceptOnce<T>(q: seq<T>, i: nat)
    requires i < |q| && q[i] !in q[..i] && q[i] !in q[i + 1..]
    ensures Except(q, q[i]) == Without(q, i)
  {
    if i == 0 {
      ExceptNone(q[1..], q[0]);
    } else {
      assert q[1..][..i - 1] == q[..i][1..] && q[1..][i..] == q[i + 1..];
      ExceptOnce(q[1..], i - 1);
      assert q[0] != q[i];
    }
  }

  /** Erasing an element that occurs once. */
  lemma EraseDistinct<T>(q: seq<T>, i: nat)
    requires i < |q| && Distinct(q)
    ensures Distinct(Without(q, i)) && |Without(q, i)| == |q| - 1 && Except(q, q[i]) == Without(q, i)
    ensures forall a, b | 0 <= a < b < |q| :: q[a] != q[i] || q[b] != q[i]
  {
    WithoutKeeps(q, i);
    ExceptOnce(q, i);
  }
}
