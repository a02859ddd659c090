/** A value or its absence, where the program uses nil, a zero value or a second result. */
module Options {
  datatype Option<+T> = None | Some(value: T)
}

/** Lists without repetitions, as the caches keep them, and taking one element out of them. */
module Lists {

  function Drop<K(==)>(l: seq<K>, k: K): (r: seq<K>)
    ensures |r| <= |l|
  {
    if |l| == 0 then [] else if l[0] == k then l[1..] else [l[0]] + Drop(l[1..], k)
  }

  ghost predicate NoDup<K>(l: seq<K>) {
    forall i, j :: 0 <= i < j < |l| ==> l[i] != l[j]
  }

  ghost function Members<K>(l: seq<K>): set<K> {
    set x | x in l
  }

  lemma {:induction false} DropMembers<K>(l: seq<K>, k: K, x: K)
    requires NoDup(l)
    ensures x in Drop(l, k) <==> x in l && x != k
  {
    if |l| > 0 {
      DropMembers(l[1..], k, x);
      assert l == [l[0]] + l[1..];
      assert x in l <==> x == l[0] || x in l[1..];
    }
  }

  lemma {:induction false} DropKeepsNoDup<K>(l: seq<K>, k: K)
    requires NoDup(l)
    ensures NoDup(Drop(l, k))
    ensures |Drop(l, k)| == if k in l then |l| - 1 else |l|
    ensures k !in l ==> Drop(l, k) == l
  {
    if |l| > 0 {
      DropKeepsNoDup(l[1..], k);
      assert l == [l[0]] + l[1..];
      DropMembers(l[1..], k, l[0]);
      if l[0] != k {
        var r := Drop(l[1..], k);
        assert forall j :: 0 <= j < |r| ==> r[j] != l[0];
      }
    }
  }

  lemma DropFacts<K>(l: seq<K>, k: K)
    requires NoDup(l)
    ensures NoDup(Drop(l, k)) && Members(Drop(l, k)) == Members(l) - {k}
    ensures |Drop(l, k)| == if k in l then |l| - 1 else |l|
    ensures k !in l ==> Drop(l, k) == l
  {
    DropKeepsNoDup(l, k);
    forall x | x in Members(Drop(l, k))
      ensures x in Members(l) - {k}
    {
      DropMembers(l, k, x);
    }
    forall x | x in Members(l) - {k}
      ensures x in Members(Drop(l, k))
    {
      DropMembers(l, k, x);
    }
  }

  lemma DropLast<K>(l: seq<K>)
    requires NoDup(l) && |l| > 0
    ensures NoDup(l[..|l| - 1]) && Members(l[..|l| - 1]) == Members(l) - {l[|l| - 1]} && l[|l| - 1] in Members(l)
  {
    var last := l[|l| - 1];
    forall x
      ensures x in l[..|l| - 1] <==> x in l && x != last
    {
      if x in l && x != last {
        var i :| 0 <= i < |l| && l[i] == x;
        assert l[..|l| - 1][i] == x;
      }
    }
  }

  lemma PrependFacts<K>(l: seq<K>, k: K)
    requires NoDup(l) && k !in Members(l)
    ensures NoDup([k] + l) && Members([k] + l) == Members(l) + {k}
  {
  }
}
