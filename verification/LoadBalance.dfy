/** Jump consistent hashing over a 64-bit key, as load-balance groups pick proxies with it. */
module JumpHashing {

  const TWO_31 := 0x8000_0000
  const TWO_33 := 0x2_0000_0000
  const TWO_64 := 0x1_0000_0000_0000_0000

  /** The next state of the linear congruential generator, in 64-bit arithmetic. */
  function NextKey(key: nat): (k: nat)
    ensures k < TWO_64
  {
    (key * 2862933555777941757 + 1) % TWO_64
  }

  /** Where a key in bucket b goes next, as the number of buckets grows. */
  function NextJump(b: nat, key: nat): nat {
    (b + 1) * TWO_31 / (key / TWO_33 + 1)
  }

  /** The same as the program computes it, with exact division and multiplication for floating point. */
  function JumpInReals(b: nat, key: nat): int {
    ((b + 1) as real * (TWO_31 as real / (key / TWO_33 + 1) as real)).Floor
  }

  lemma QuotientBounds(x: nat, d: nat)
    requires d > 0
    ensures x / d * d <= x < (x / d + 1) * d
  {
  }

  lemma Scale(a: nat, x: nat, y: nat)
    requires x <= y
    ensures a * x <= a * y
  {
  }

  lemma Cancel(x: real, y: real, d: real)
    requires d > 0.0
    ensures x * d < y * d ==> x < y
    ensures x * d <= y * d ==> x <= y
  {
    assert (y - x) * d == y * d - x * d;
  }

  lemma MultiplyBack(a: real, t: real, d: real)
    requires d > 0.0
    ensures a * (t / d) * d == a * t
  {
    assert (t / d) * d == t;
    Associative(a, t / d, d);
  }

  lemma Associative(a: real, b: real, c: real)
    ensures a * b * c == a * (b * c)
  {
  }

  lemma RealProduct(x: nat, y: nat)
    ensures (x * y) as real == x as real * y as real
  {
  }

  /** The floor of x, where x times d is n and q is the integer quotient. */
  lemma FloorFromProducts(x: real, d: nat, n: nat, q: nat)
    requires d > 0 && x * d as real == n as real && q * d <= n < (q + 1) * d
    ensures x.Floor == q
  {
    AtLeastQuotient(x, d, n, q);
    BelowQuotient(x, d, n, q + 1);
    FloorBetween(x, q);
  }

  lemma AtLeastQuotient(x: real, d: nat, n: nat, q: nat)
    requires d > 0 && x * d as real == n as real && q * d <= n
    ensures q as real <= x
  {
    RealProduct(q, d);
    var lo := q * d;
    assert lo as real <= n as real;
    Cancel(q as real, x, d as real);
  }

  lemma BelowQuotient(x: real, d: nat, n: nat, q: nat)
    requires d > 0 && x * d as real == n as real && n < q * d
    ensures x < q as real
  {
    RealProduct(q, d);
    var hi := q * d;
    assert n as real < hi as real;
    Cancel(x, q as real, d as real);
  }

  lemma FloorBetween(x: real, q: nat)
    requires q as real <= x < (q + 1) as real
    ensures x.Floor == q
  {
  }

  lemma FloorOfQuotient(a: nat, t: nat, d: nat)
    requires d > 0
    ensures (a as real * (t as real / d as real)).Floor == a * t / d
  {
    var x := a as real * (t as real / d as real);
    assert x * d as real == (a * t) as real by {
      MultiplyBack(a as real, t as real, d as real);
      RealProduct(a, t);
    }
    var q := a * t / d;
    assert q * d <= a * t < (q + 1) * d by {
      QuotientBounds(a * t, d);
    }
    FloorFromProducts(x, d, a * t, q);
  }

  /** Truncating the real number gives the integer quotient. */
  lemma JumpIsQuotient(b: nat, key: nat)
    ensures JumpInReals(b, key) == NextJump(b, key)
  {
    FloorOfQuotient(b + 1, TWO_31, key / TWO_33 + 1);
  }

  lemma LessFactor(a: nat, k: nat, d: nat)
    requires a * d > k * d
    ensures a > k
  {
    if a <= k {
      Scale(d, a, k);
    }
  }

  lemma JumpsAhead(b: nat, key: nat)
    requires key < TWO_64
    ensures b < NextJump(b, key) <= (b + 1) * TWO_31
  {
    var d := key / TWO_33 + 1;
    var x := (b + 1) * TWO_31;
    assert 1 <= d <= TWO_31;
    QuotientBounds(x, d);
    Scale(b + 1, d, TWO_31);
    LessFactor(x / d + 1, b + 1, d);
    Scale(x / d, 1, d);
  }

  function KeyAt(key: nat, i: nat): (k: nat)
    requires key < TWO_64
    ensures k < TWO_64
  {
    if i == 0 then key else NextKey(KeyAt(key, i - 1))
  }

  /** The buckets a key moves through as buckets are added one by one: 0 first. */
  function JumpAt(key: nat, i: nat): (j: nat)
    requires key < TWO_64
  {
    if i == 0 then 0
    else
      JumpsAhead(JumpAt(key, i - 1), KeyAt(key, i));
      NextJump(JumpAt(key, i - 1), KeyAt(key, i))
  }

  lemma {:induction false} JumpsIncrease(key: nat, i: nat, k: nat)
    requires key < TWO_64 && i < k
    ensures JumpAt(key, i) < JumpAt(key, k)
  {
    JumpsAhead(JumpAt(key, k - 1), KeyAt(key, k));
    if i < k - 1 {
      JumpsIncrease(key, i, k - 1);
    }
  }

  /** b is the last bucket the key moves to while there are at most n. */
  ghost predicate IsBucket(key: nat, n: int, b: int)
    requires key < TWO_64
  {
    exists i: nat :: JumpAt(key, i) == b < n <= JumpAt(key, i + 1)
  }

  /** The loop ends because the jump strictly increases, and its 64-bit value stays below 2^63. */
  method JumpHash(key0: nat, buckets: int) returns (b: int)
    requires key0 < TWO_64 && -TWO_31 <= buckets < TWO_31
    ensures if buckets >= 1 then IsBucket(key0, buckets, b) else b == 0
  {
    b := 0;
    var key, j := key0, 0;
    ghost var i := 0;
    while j < buckets
      invariant i >= 0 && key == KeyAt(key0, i) && j == JumpAt(key0, i)
      invariant if i == 0 then b == 0 else b == JumpAt(key0, i - 1) < buckets
      invariant 0 <= j < 0x8000_0000_0000_0000
      decreases buckets - j
    {
      b := j;
      key := NextKey(key);
      i := i + 1;
      JumpsAhead(b, key);
      assert (b + 1) * TWO_31 < TWO_31 * TWO_31;
      JumpIsQuotient(b, key);
      j := JumpInReals(b, key);
    }
    if buckets >= 1 {
      assert JumpAt(key0, i - 1) == b < buckets <= JumpAt(key0, i - 1 + 1);
    }
  }

  lemma {:induction false} SomeBucket(key: nat, n: int, i: nat) returns (b: int)
    requires key < TWO_64 && JumpAt(key, i) < n
    ensures IsBucket(key, n, b) && JumpAt(key, i) <= b
    decreases n - JumpAt(key, i)
  {
    JumpsIncrease(key, i, i + 1);
    if n <= JumpAt(key, i + 1) {
      b := JumpAt(key, i);
    } else {
      b := SomeBucket(key, n, i + 1);
    }
  }

  // ----- the buckets of some keys -----

  /** After i jumps the key's generator is at k and its bucket is b. */
  ghost predicate Jumped(key: nat, i: nat, k: nat, b: nat) {
    key < TWO_64 && KeyAt(key, i) == k && JumpAt(key, i) == b
  }

  lemma NotJumped(key: nat)
    requires key < TWO_64
    ensures Jumped(key, 0, key, 0)
  {
  }

  lemma JumpsOn(key: nat, i: nat, k: nat, b: nat, k': nat, b': nat)
    requires Jumped(key, i, k, b) && k' == NextKey(k) && b' == NextJump(b, k')
    ensures Jumped(key, i + 1, k', b')
  {
  }

  lemma BetweenJumps(key: nat, i: nat, k: nat, b: nat, k': nat, b': nat, n: nat)
    requires Jumped(key, i, k, b) && Jumped(key, i + 1, k', b') && b < n <= b'
    ensures IsBucket(key, n, b)
  {
  }

  lemma Bucket43Of57()
    ensures IsBucket(42, 57, 43)
  {
    NotJumped(42);
    JumpsOn(42, 0, 42, 0, 9562744900416244099, 1);
    JumpsOn(42, 1, 9562744900416244099, 1, 14010661636263409272, 2);
    JumpsOn(42, 2, 14010661636263409272, 2, 2482660656413906073, 22);
    JumpsOn(42, 3, 2482660656413906073, 22, 12779540726165998390, 33);
    JumpsOn(42, 4, 12779540726165998390, 33, 15469935623126070367, 40);
    JumpsOn(42, 5, 15469935623126070367, 40, 17576256497753526756, 43);
    JumpsOn(42, 6, 17576256497753526756, 43, 1419670933141876309, 571);
    BetweenJumps(42, 6, 17576256497753526756, 43, 1419670933141876309, 571, 57);
  }

  lemma Bucket361Of666()
    ensures IsBucket(3735883980, 666, 361)
  {
    NotJumped(3735883980);
    JumpsOn(3735883980, 0, 3735883980, 0, 17837830214262315421, 1);
    JumpsOn(3735883980, 1, 17837830214262315421, 1, 6478646449031872554, 5);
    JumpsOn(3735883980, 2, 6478646449031872554, 5, 8168833315291335043, 13);
    JumpsOn(3735883980, 3, 8168833315291335043, 13, 2727843867896346232, 94);
    JumpsOn(3735883980, 4, 2727843867896346232, 94, 6483922590239265945, 270);
    JumpsOn(3735883980, 5, 6483922590239265945, 270, 15837726955813669686, 315);
    JumpsOn(3735883980, 6, 15837726955813669686, 315, 16124693316148868191, 361);
    JumpsOn(3735883980, 7, 16124693316148868191, 361, 1658665330102505956, 4025);
    BetweenJumps(3735883980, 7, 16124693316148868191, 361, 1658665330102505956, 4025, 666);
  }

  lemma Bucket520Of1024()
    ensures IsBucket(256, 1024, 520)
  {
    NotJumped(256);
    JumpsOn(256, 0, 256, 0, 13487971404480576769, 1);
    JumpsOn(256, 1, 13487971404480576769, 1, 14592341821717395966, 2);
    JumpsOn(256, 2, 14592341821717395966, 2, 15464308700622647303, 3);
    JumpsOn(256, 3, 15464308700622647303, 3, 4569389403071022828, 16);
    JumpsOn(256, 4, 4569389403071022828, 16, 2277514397722515261, 137);
    JumpsOn(256, 5, 2277514397722515261, 137, 4889150287270209354, 520);
    JumpsOn(256, 6, 4889150287270209354, 520, 2460374328665044003, 3906);
    BetweenJumps(256, 6, 4889150287270209354, 520, 2460374328665044003, 3906, 1024);
  }

  /** Some keys and the buckets they fall into. */
  lemma KnownBuckets()
    ensures IsBucket(42, 57, 43) && IsBucket(3735883980, 666, 361) && IsBucket(256, 1024, 520)
  {
    Bucket43Of57();
    Bucket361Of666();
    Bucket520Of1024();
  }

  /** Every key has exactly one bucket, and it is one of the n. */
  lemma OneBucket(key: nat, n: int)
    requires key < TWO_64 && n >= 1
    ensures exists b: nat :: b < n && IsBucket(key, n, b) && forall b' {:trigger IsBucket(key, n, b')} :: IsBucket(key, n, b') ==> b' == b
  {
    HasBucket(key, n);
    var b: nat :| b < n && IsBucket(key, n, b);
    forall b' | IsBucket(key, n, b')
      ensures b' == b
    {
      BucketIsUnique(key, n, b, b');
    }
  }

  lemma BucketIsUnique(key: nat, n: int, b: int, b': int)
    requires key < TWO_64 && IsBucket(key, n, b) && IsBucket(key, n, b')
    ensures b == b' && 0 <= b < n
  {
    BucketOnlyMovesToNew(key, n, n, b, b');
    BucketOnlyMovesToNew(key, n, n, b', b);
  }

  /** Consistency: with more buckets a key stays where it was or moves to one of the new ones. */
  lemma BucketOnlyMovesToNew(key: nat, n: int, m: int, b: int, b': int)
    requires key < TWO_64 && n <= m && IsBucket(key, n, b) && IsBucket(key, m, b')
    ensures b' == b || n <= b' < m
  {
    var i: nat :| JumpAt(key, i) == b < n <= JumpAt(key, i + 1);
    var k: nat :| JumpAt(key, k) == b' < m <= JumpAt(key, k + 1);
    if k < i {
      LaterJump(key, k, i);
    } else if i < k {
      LaterJump(key, i, k);
    }
  }

  lemma LaterJump(key: nat, i: nat, k: nat)
    requires key < TWO_64 && i < k
    ensures JumpAt(key, i + 1) <= JumpAt(key, k)
  {
    if i + 1 < k {
      JumpsIncrease(key, i + 1, k);
    }
  }

  lemma OneMoreBucket(key: nat, n: int, b: int, b': int)
    requires key < TWO_64 && n >= 1 && IsBucket(key, n, b) && IsBucket(key, n + 1, b')
    ensures b' == b || b' == n
  {
    BucketOnlyMovesToNew(key, n, n + 1, b, b');
  }

  // ----- the consistent-hashing strategy -----

  const MAX_RETRY := 5

  /** The key of try i: 64-bit keys wrap around. */
  function TryKey(hash: nat, i: nat): (k: nat)
    ensures k < TWO_64
  {
    (hash + i) % TWO_64
  }

  ghost function BucketOf(key: nat, n: int): (b: nat)
    requires key < TWO_64 && n >= 1
    ensures b < n
  {
    HasBucket(key, n);
    var b: nat :| b < n && IsBucket(key, n, b);
    b
  }

  lemma BucketOfIs(key: nat, n: int)
    requires key < TWO_64 && n >= 1
    ensures IsBucket(key, n, BucketOf(key, n))
  {
    HasBucket(key, n);
  }

  lemma HasBucket(key: nat, n: int)
    requires key < TWO_64 && n >= 1
    ensures exists b: nat :: b < n && IsBucket(key, n, b)
  {
    var b := SomeBucket(key, n, 0);
    BucketIsUnique(key, n, b, b);
  }

  /** The proxy that each try comes to. */
  ghost function Tries<P>(hash: nat, proxies: seq<P>): nat -> P
    requires |proxies| >= 1
  {
    (i: nat) => proxies[BucketOf(TryKey(hash, i), |proxies|)]
  }

  /** Of the first values of f up to i only that at i is alive. */
  ghost predicate FirstAlive<P>(f: nat -> P, alive: P -> bool, i: nat) {
    alive(f(i)) && forall j: nat :: j < i ==> !alive(f(j))
  }

  /** The first n values of f are not alive. */
  ghost predicate NoneAlive<P>(f: nat -> P, alive: P -> bool, n: nat) {
    forall j: nat :: j < n ==> !alive(f(j))
  }

  /** Of the proxies up to k only k is alive. */
  predicate FirstAliveIs<P>(proxies: seq<P>, alive: P -> bool, k: nat)
    requires k < |proxies|
  {
    alive(proxies[k]) && forall l :: 0 <= l < k ==> !alive(proxies[l])
  }

  lemma TryKeyIs(hash: nat, i: nat)
    requires hash + i < TWO_64
    ensures TryKey(hash, i) == hash + i
  {
  }

  lemma BucketOfIsOnly(key: nat, n: int, b: nat)
    requires key < TWO_64 && n >= 1 && IsBucket(key, n, b)
    ensures BucketOf(key, n) == b
  {
    BucketOfIs(key, n);
    BucketIsUnique(key, n, b, BucketOf(key, n));
  }

  /** Try i comes to the proxy whose place is the bucket of the key's i-th successor. */
  lemma TryIsBucket<P>(hash: nat, proxies: seq<P>, i: nat, key: nat, b: nat)
    requires key == hash + i < TWO_64 && b < |proxies| && IsBucket(key, |proxies|, b)
    ensures Tries(hash, proxies)(i) == proxies[b]
  {
    TryKeyIs(hash, i);
    BucketOfIsOnly(key, |proxies|, b);
  }

  method TryBucket<P>(ghost hash: nat, key: nat, proxies: seq<P>, ghost i: nat) returns (r: P)
    requires key == TryKey(hash, i) && 1 <= |proxies| < TWO_31
    ensures r == Tries(hash, proxies)(i)
  {
    var idx := JumpHash(key, |proxies|);
    BucketOfIs(key, |proxies|);
    BucketIsUnique(key, |proxies|, idx, BucketOf(key, |proxies|));
    r := proxies[idx];
  }

  lemma NextTry(hash: nat, i: nat)
    ensures (TryKey(hash, i) + 1) % TWO_64 == TryKey(hash, i + 1)
  {
  }

  /** The first try among five whose proxy is alive, if any. */
  method HashedChoice<P>(hash: nat, proxies: seq<P>, alive: P -> bool) returns (r: P, ok: bool, i: nat)
    requires hash < TWO_64 && 1 <= |proxies| < TWO_31
    ensures i <= MAX_RETRY && (ok <==> i < MAX_RETRY) && NoneAlive(Tries(hash, proxies), alive, i)
    ensures ok ==> r == Tries(hash, proxies)(i) && alive(r)
  {
    var key: nat := hash;
    i := 0;
    r := proxies[0];
    while i < MAX_RETRY
      invariant i <= MAX_RETRY && key == TryKey(hash, i) && NoneAlive(Tries(hash, proxies), alive, i)
    {
      r := TryBucket(hash, key, proxies, i);
      ok := alive(r);
      if ok {
        return;
      }
      NextTry(hash, i);
      key := (key + 1) % TWO_64;
      i := i + 1;
    }
    ok := false;
  }

  method FirstAliveOrFirst<P>(proxies: seq<P>, alive: P -> bool) returns (r: P)
    requires |proxies| >= 1
    ensures r in proxies && (alive(r) <==> exists i :: 0 <= i < |proxies| && alive(proxies[i])) && (!alive(r) ==> r == proxies[0])
    ensures forall k :: 0 <= k < |proxies| && FirstAliveIs(proxies, alive, k) ==> r == proxies[k]
  {
    for i := 0 to |proxies|
      invariant forall k :: 0 <= k < i ==> !alive(proxies[k])
    {
      if alive(proxies[i]) {
        return proxies[i];
      }
    }
    return proxies[0];
  }

  lemma TriedIsListed<P>(hash: nat, proxies: seq<P>, i: nat)
    requires |proxies| >= 1
    ensures Tries(hash, proxies)(i) in proxies
  {
  }

  /** Up to five hashed choices, then the first proxy alive, then the first proxy. */
  method ConsistentHashing<P>(hash: nat, proxies: seq<P>, alive: P -> bool) returns (r: P)
    requires hash < TWO_64 && 1 <= |proxies| < TWO_31
    ensures r in proxies && (alive(r) <==> exists i :: 0 <= i < |proxies| && alive(proxies[i]))
    ensures !alive(r) ==> r == proxies[0]
    ensures forall i :: 0 <= i < 5 && FirstAlive(Tries(hash, proxies), alive, i) ==> r == Tries(hash, proxies)(i)
    ensures NoneAlive(Tries(hash, proxies), alive, 5) ==> forall k :: 0 <= k < |proxies| && FirstAliveIs(proxies, alive, k) ==> r == proxies[k]
  {
    ghost var tries := Tries(hash, proxies);
    var ok, i;
    r, ok, i := HashedChoice(hash, proxies, alive);
    if ok {
      TriedIsListed(hash, proxies, i);
      assert FirstAlive(tries, alive, i);
    } else {
      r := FirstAliveOrFirst(proxies, alive);
    }
  }

  // ----- one proxy more -----

  /** With one proxy more every try goes to the proxy it went to before or to the new one. */
  lemma TriesMoveToAdded<P>(hash: nat, proxies: seq<P>, added: P, i: nat)
    requires |proxies| >= 1
    ensures var r := Tries(hash, proxies + [added])(i); r == Tries(hash, proxies)(i) || r == added
  {
    var n, key := |proxies|, TryKey(hash, i);
    BucketOfIs(key, n);
    BucketOfIs(key, n + 1);
    OneMoreBucket(key, n, BucketOf(key, n), BucketOf(key, n + 1));
  }

  lemma FirstMoves<P>(f: nat -> P, g: nat -> P, added: P, alive: P -> bool, i: nat) returns (k: nat)
    requires FirstAlive(f, alive, i) && alive(added) && forall j: nat :: j <= i ==> g(j) == f(j) || g(j) == added
    ensures k <= i && FirstAlive(g, alive, k) && (g(k) == f(i) || g(k) == added)
  {
    k := 0;
    while !alive(g(k))
      invariant k <= i && forall j: nat :: j < k ==> !alive(g(j))
      decreases i - k
    {
      assert k != i;
      k := k + 1;
    }
  }

  /** Adding a proxy that is alive moves a key that one of its five tries serves to the new proxy or not at all. */
  lemma AddingAProxyMovesLittle<P>(hash: nat, proxies: seq<P>, added: P, alive: P -> bool, i: nat) returns (k: nat)
    requires |proxies| >= 1 && i < 5 && FirstAlive(Tries(hash, proxies), alive, i) && alive(added)
    ensures k <= i && FirstAlive(Tries(hash, proxies + [added]), alive, k)
    ensures var r := Tries(hash, proxies + [added])(k); r == Tries(hash, proxies)(i) || r == added
  {
    forall j: nat
      ensures Tries(hash, proxies + [added])(j) == Tries(hash, proxies)(j) || Tries(hash, proxies + [added])(j) == added
    {
      TriesMoveToAdded(hash, proxies, added, j);
    }
    k := FirstMoves(Tries(hash, proxies), Tries(hash, proxies + [added]), added, alive, i);
  }
}
