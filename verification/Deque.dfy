/**
 Ring-buffer positions as a view on the buffer's contents. Everything here is about plain
 sequences; the class Deque applies it to its buffer.
 */
module Ring {

  /** The buffer position of element i when element 0 sits at `head`, one lap at most. */
  function Slot(head: nat, i: nat, n: nat): (s: nat)
    requires head < n && i <= n
    ensures s < n
  {
    if head + i < n then head + i else head + i - n
  }

  ghost predicate InRing<T>(b: seq<T>, head: nat, count: nat) {
    count <= |b| && if |b| == 0 then head == 0 else head < |b|
  }

  /** The elements stored from `head` on, in order. */
  function Window<T>(b: seq<T>, head: nat, count: nat): (w: seq<T>)
    requires count <= |b| && if |b| == 0 then head == 0 else head < |b|
    ensures |w| == count && forall i :: 0 <= i < count ==> w[i] == b[Slot(head, i, |b|)]
  {
    seq(count, i requires 0 <= i < count => b[Slot(head, i, |b|)])
  }

  /** Every position outside the window holds the zero value. */
  ghost predicate ClearOutside<T>(b: seq<T>, head: nat, count: nat, zero: T)
    requires InRing(b, head, count)
  {
    forall i {:trigger Slot(head, i, |b|)} :: count <= i < |b| ==> b[Slot(head, i, |b|)] == zero
  }

  lemma PushBackWindow<T>(b: seq<T>, head: nat, count: nat, x: T, zero: T)
    requires InRing(b, head, count) && count < |b| && ClearOutside(b, head, count, zero)
    ensures var b' := b[Slot(head, count, |b|) := x];
      Window(b', head, count + 1) == Window(b, head, count) + [x] && ClearOutside(b', head, count + 1, zero)
  {
  }

  lemma PushFrontWindow<T>(b: seq<T>, head: nat, count: nat, x: T, zero: T)
    requires InRing(b, head, count) && count < |b| && ClearOutside(b, head, count, zero)
    ensures var h := Slot(head, |b| - 1, |b|); var b' := b[h := x];
      Window(b', h, count + 1) == [x] + Window(b, head, count) && ClearOutside(b', h, count + 1, zero)
  {
    var h := Slot(head, |b| - 1, |b|);
    var b' := b[h := x];
    var n := |b|;
    forall i | count + 1 <= i < n
      ensures b'[Slot(h, i, n)] == zero
    {
      assert Slot(h, i, n) == Slot(head, i - 1, n) != h;
    }
    forall i | 0 <= i < count + 1
      ensures Window(b', h, count + 1)[i] == ([x] + Window(b, head, count))[i]
    {
      if i > 0 {
        assert Slot(h, i, n) == Slot(head, i - 1, n) != h;
      }
    }
  }

  lemma PopFrontWindow<T>(b: seq<T>, head: nat, count: nat, zero: T)
    requires InRing(b, head, count) && 0 < count && ClearOutside(b, head, count, zero)
    ensures var h := Slot(head, 1, |b|); var b' := b[head := zero];
      Window(b', h, count - 1) == Window(b, head, count)[1..] && ClearOutside(b', h, count - 1, zero)
  {
    var n := |b|;
    var h := Slot(head, 1, n);
    var b' := b[head := zero];
    forall i | count - 1 <= i < n
      ensures b'[Slot(h, i, n)] == zero
    {
      if i < n - 1 {
        assert Slot(h, i, n) == Slot(head, i + 1, n) != head;
      } else {
        assert Slot(h, i, n) == head;
      }
    }
    var w', w := Window(b', h, count - 1), Window(b, head, count)[1..];
    forall i | 0 <= i < |w|
      ensures w'[i] == w[i]
    {
      assert Slot(h, i, n) == Slot(head, i + 1, n) != head;
    }
  }

  lemma PopBackWindow<T>(b: seq<T>, head: nat, count: nat, zero: T)
    requires InRing(b, head, count) && 0 < count && ClearOutside(b, head, count, zero)
    ensures var b' := b[Slot(head, count - 1, |b|) := zero];
      Window(b', head, count - 1) == Window(b, head, count)[..count - 1] && ClearOutside(b', head, count - 1, zero)
  {
  }

  lemma SetWindow<T>(b: seq<T>, head: nat, count: nat, k: nat, x: T, zero: T)
    requires InRing(b, head, count) && k < count && ClearOutside(b, head, count, zero)
    ensures var b' := b[Slot(head, k, |b|) := x];
      Window(b', head, count) == Window(b, head, count)[k := x] && ClearOutside(b', head, count, zero)
  {
  }

  /** A window that starts at position 0. */
  lemma FrontWindow<T>(b: seq<T>, count: nat)
    requires count <= |b|
    ensures Window(b, 0, count) == b[..count]
  {
    forall i | 0 <= i < count
      ensures Window(b, 0, count)[i] == b[i]
    {
      assert Slot(0, i, |b|) == i;
    }
  }

  lemma FrontClear<T>(b: seq<T>, count: nat, zero: T)
    requires count <= |b| && forall i :: count <= i < |b| ==> b[i] == zero
    ensures ClearOutside(b, 0, count, zero)
  {
    forall i | count <= i < |b|
      ensures b[Slot(0, i, |b|)] == zero
    {
      assert Slot(0, i, |b|) == i;
    }
  }

  /** A full ring has no position outside its window, wherever it starts. */
  lemma FullClear<T>(b: seq<T>, head: nat, zero: T)
    requires head < |b|
    ensures ClearOutside(b, head, |b|, zero)
  {
  }

  /** A window is one or two slices of the buffer. */
  lemma WindowSlices<T>(b: seq<T>, head: nat, count: nat)
    requires InRing(b, head, count) && 0 < count
    ensures var tail := Slot(head, count, |b|);
      Window(b, head, count) == if tail > head then b[head..tail] else b[head..] + b[..tail]
  {
  }

  /** A full window moved along its own lap is the same ring, rotated. */
  lemma FullWindowTurns<T>(b: seq<T>, head: nat, k: nat)
    requires head < |b| && k <= |b|
    ensures var w := Window(b, head, |b|); Window(b, Slot(head, k, |b|), |b|) == w[k..] + w[..k]
  {
    var n := |b|;
    var w := Window(b, head, n);
    forall i | 0 <= i < n
      ensures Window(b, Slot(head, k, n), n)[i] == (w[k..] + w[..k])[i]
    {
      if i < n - k {
        assert Slot(Slot(head, k, n), i, n) == Slot(head, k + i, n);
      } else {
        assert Slot(Slot(head, k, n), i, n) == Slot(head, k + i - n, n);
      }
    }
  }

  /** Moving the first element into the free position behind the last. */
  lemma TurnForward<T>(b: seq<T>, head: nat, count: nat, zero: T)
    requires InRing(b, head, count) && 0 < count < |b| && ClearOutside(b, head, count, zero)
    ensures var n := |b|; var b' := b[Slot(head, count, n) := b[head]][head := zero];
      var w := Window(b, head, count);
      Window(b', Slot(head, 1, n), count) == w[1..] + [w[0]] && ClearOutside(b', Slot(head, 1, n), count, zero)
  {
    PushBackWindow(b, head, count, b[head], zero);
    PopFrontWindow(b[Slot(head, count, |b|) := b[head]], head, count + 1, zero);
    var w := Window(b, head, count);
    assert Slot(head, 0, |b|) == head;
    assert (w + [b[head]])[1..] == w[1..] + [w[0]];
  }

  /** Without free space the last element's position becomes the first one, and holds the zero value. */
  lemma FullStepBackLoses<T>(b: seq<T>, head: nat, zero: T)
    requires head < |b|
    ensures var n := |b|; var h := Slot(head, n - 1, n); var b' := b[h := b[h]][h := zero]; var w := Window(b, head, n);
      Window(b', h, n) == [zero] + w[..n - 1]
  {
    var n := |b|;
    var h := Slot(head, n - 1, n);
    forall i | 1 <= i < n
      ensures Slot(h, i, n) == Slot(head, i - 1, n) != h
    {
    }
  }

  /** Moving the last element into the free position before the first. */
  lemma TurnBackward<T>(b: seq<T>, head: nat, count: nat, zero: T)
    requires InRing(b, head, count) && 0 < count < |b| && ClearOutside(b, head, count, zero)
    ensures var n := |b|; var h := Slot(head, n - 1, n); var t := Slot(head, count - 1, n);
      var b' := b[h := b[t]][t := zero]; var w := Window(b, head, count);
      Window(b', h, count) == [w[count - 1]] + w[..count - 1] && ClearOutside(b', h, count, zero)
  {
    var n := |b|;
    var h, t := Slot(head, n - 1, n), Slot(head, count - 1, n);
    var w := Window(b, head, count);
    PushFrontWindow(b, head, count, b[t], zero);
    PopBackWindow(b[h := b[t]], h, count + 1, zero);
    assert Slot(h, count, n) == t;
    assert ([b[t]] + w)[..count] == [w[count - 1]] + w[..count - 1];
  }

  /** s with its last element moved to the front, or lost and replaced by the zero value there. */
  function BackStep<T>(s: seq<T>, loses: bool, zero: T): seq<T>
    requires |s| > 0
  {
    [if loses then zero else s[|s| - 1]] + s[..|s| - 1]
  }

  /** One backward step of the rotate loop, with or without a free position. */
  lemma StepBack<T>(b: seq<T>, head: nat, count: nat, zero: T)
    requires InRing(b, head, count) && 0 < count && ClearOutside(b, head, count, zero)
    ensures var n := |b|; var h := Slot(head, n - 1, n); var t := Slot(head, count - 1, n);
      var b' := b[h := b[t]][t := zero]; var w := Window(b, head, count);
      && Window(b', h, count) == BackStep(w, count == n, zero)
      && ClearOutside(b', h, count, zero) && Slot(h, count, n) == t
  {
    if count == |b| {
      FullStepBackLoses(b, head, zero);
    } else {
      TurnBackward(b, head, count, zero);
    }
  }
}

/** The generic double-ended queue: a ring buffer that doubles when full and halves when a quarter full. */
module Deques {
  import opened Bits
  import opened DequeCost
  import opened Ring

  /** The remainder of Go's "%", which has the sign of the dividend. */
  function Remainder(a: int, b: int): (r: int)
    requires b > 0
    ensures -b < r < b
  {
    if a >= 0 then a % b else -((-a) % b)
  }

  lemma NegatedModulus(a: int, b: int)
    requires a < 0 < b
    ensures a % b == if (-a) % b == 0 then 0 else b - (-a) % b
  {
    var q, r := (-a) / b, (-a) % b;
    assert -a == b * q + r;
    if r == 0 {
      Distribute(b, 0, q);
      QuotientUnique(a, b, -q, 0);
    } else {
      Distribute(b, 0, q + 1);
      Distribute(b, q, -1);
      QuotientUnique(a, b, -q - 1, b - r);
    }
  }

  /** Go's remainder is the modulus, or the modulus less one lap for a negative dividend. */
  lemma RemainderSign(a: int, b: int)
    requires b > 0
    ensures Remainder(a, b) == if a >= 0 || a % b == 0 then a % b else a % b - b
    ensures 0 <= a % b < b
  {
    if a < 0 {
      NegatedModulus(a, b);
    }
  }

  /** s with its first k elements moved to the end. */
  function SplitAt<T>(s: seq<T>, k: nat): seq<T>
    requires k <= |s|
  {
    s[k..] + s[..k]
  }

  lemma TurnNone<T>(s: seq<T>)
    ensures SplitAt(s, 0) == s && SplitAt(s, |s|) == s
  {
  }

  lemma TurnOneMore<T>(s: seq<T>, k: nat)
    requires k < |s|
    ensures var c := SplitAt(s, k); c[1..] + [c[0]] == SplitAt(s, k + 1)
  {
  }

  /** s with its last k elements moved to the front, or lost and replaced by the zero value there. */
  function TurnedBack<T>(s: seq<T>, k: nat, loses: bool, zero: T): (r: seq<T>)
    requires k <= |s|
    ensures |r| == |s|
  {
    seq(|s|, i requires 0 <= i < |s| => if k <= i then s[i - k] else if loses then zero else s[|s| + i - k])
  }

  lemma KeptIsSplit<T>(s: seq<T>, k: nat, zero: T)
    requires k <= |s|
    ensures TurnedBack(s, k, false, zero) == SplitAt(s, |s| - k)
  {
  }

  /** k backward steps, one after another. */
  function BackSteps<T>(s: seq<T>, k: nat, loses: bool, zero: T): (r: seq<T>)
    requires |s| > 0
    ensures |r| == |s|
  {
    if k == 0 then s else BackStep(BackSteps(s, k - 1, loses, zero), loses, zero)
  }

  lemma {:induction false} BackStepsTurn<T>(s: seq<T>, k: nat, loses: bool, zero: T)
    requires 0 < |s| && k <= |s|
    ensures BackSteps(s, k, loses, zero) == TurnedBack(s, k, loses, zero)
  {
    if k > 0 {
      BackStepsTurn(s, k - 1, loses, zero);
    }
  }

  lemma BackStepsSplit<T>(s: seq<T>, k: nat, zero: T)
    requires 0 < |s| && k <= |s|
    ensures BackSteps(s, k, false, zero) == SplitAt(s, |s| - k)
  {
    BackStepsTurn(s, k, false, zero);
    KeptIsSplit(s, k, zero);
  }

  /** The loss goes unnoticed exactly when all that is lost was the zero value anyway. */
  lemma LossUnnoticedIff<T>(s: seq<T>, k: nat, zero: T)
    requires k <= |s|
    ensures TurnedBack(s, k, true, zero) == SplitAt(s, |s| - k) <==> forall i :: |s| - k <= i < |s| ==> s[i] == zero
  {
    KeptIsSplit(s, k, zero);
    var lost, kept := TurnedBack(s, k, true, zero), TurnedBack(s, k, false, zero);
    if lost == kept {
      forall i | |s| - k <= i < |s|
        ensures s[i] == zero
      {
        assert kept[i - (|s| - k)] == s[i] && lost[i - (|s| - k)] == zero;
      }
    }
  }

  /** Moving the start of a full ring by n, masked, turns its window. */
  lemma TurnedByMask<T>(b: seq<T>, head: nat, n: int, zero: T)
    requires head < |b| && IsPowerOfTwo(|b|) && -|b| < n < |b|
    ensures var h := And(head + n, |b| - 1); var k := if n >= 0 then n else n + |b|;
      && 0 <= h < |b| && Slot(h, |b|, |b|) == h && ClearOutside(b, h, |b|, zero)
      && Window(b, h, |b|) == SplitAt(Window(b, head, |b|), k)
  {
    var k := if n >= 0 then n else n + |b|;
    MaskOneLap(head + n, |b|);
    FullWindowTurns(b, head, k);
    FullClear(b, Slot(head, k, |b|), zero);
  }

  /** Writing a at the front of s, then b behind it, covers the front with a + b. */
  lemma CoverFront<T>(s: seq<T>, a: seq<T>, b: seq<T>)
    requires |a| + |b| <= |s|
    ensures var t := s[..0] + a + s[|a|..]; |t| == |s| && t[..|a|] + b + t[|a| + |b|..] == (a + b) + s[|a| + |b|..]
    ensures b == [] ==> s[..0] + a + s[|a|..] == a + s[|a|..]
  {
  }

  /** s with x in front of its element i. */
  function With<T>(s: seq<T>, i: nat, x: T): seq<T>
    requires i <= |s|
  {
    s[..i] + [x] + s[i..]
  }

  lemma SameFirst<T>(x: T, s: seq<T>, y: T, t: seq<T>)
    requires [x] + s == [y] + t
    ensures x == y && s == t
  {
    assert ([x] + s)[0] == x && ([y] + t)[0] == y;
    assert ([x] + s)[1..] == s && ([y] + t)[1..] == t;
  }

  lemma SameLast<T>(x: T, s: seq<T>, y: T, t: seq<T>)
    requires s + [x] == t + [y]
    ensures x == y && s == t
  {
    assert |s| == |t| && (s + [x])[|s|] == x && (t + [y])[|t|] == y;
    assert (s + [x])[..|s|] == s && (t + [y])[..|t|] == t;
  }

  lemma ExchangeMovesOn<T>(s: seq<T>, i: nat, x: T)
    requires i < |s|
    ensures var c := With(s, i, x); c[i := c[i + 1]][i + 1 := c[i]] == With(s, i + 1, x)
    ensures var c := With(s, i + 1, x); c[i + 1 := c[i]][i := c[i + 1]] == With(s, i, x)
    ensures var c := With(s, i + 1, x); c[i := c[i + 1]][i + 1 := c[i]] == With(s, i, x)
  {
  }

  /** s turned n steps front to back; backwards for a negative n. */
  function Turned<T>(s: seq<T>, n: int): seq<T>
    requires |s| > 0
  {
    SplitAt(s, n % |s|)
  }

  lemma TurnedByRemainder<T>(s: seq<T>, n: int)
    requires |s| > 0
    ensures var r := Remainder(n, |s|); -|s| < r < |s| && Turned(s, n) == Turned(s, r)
    ensures var r := Remainder(n, |s|); Turned(s, n) == SplitAt(s, if r >= 0 then r else |s| + r)
  {
    var c, r := |s|, Remainder(n, |s|);
    RemainderSign(n, c);
    QuotientUnique(r, c, if r >= 0 then 0 else -1, n % c);
  }

  /** How far to turn is Go's remainder, less than one lap. */
  lemma TurnedAt<T>(s: seq<T>, n0: int)
    requires |s| > 0
    ensures var n := Remainder(n0, |s|); var at: nat := if n >= 0 then n else n + |s|;
      at == n0 % |s| && Turned(s, n0) == SplitAt(s, at) && (n == 0 ==> Turned(s, n0) == s)
  {
    RemainderSign(n0, |s|);
    TurnNone(s);
  }

  /** The loop of backward steps is the rotation, unless it loses elements. */
  lemma BackwardTurn<T>(s: seq<T>, n0: int, n: int, zero: T)
    requires |s| > 0 && n == Remainder(n0, |s|) < 0
    ensures BackSteps(s, -n, false, zero) == Turned(s, n0)
  {
    TurnedAt(s, n0);
    BackwardPlan(s, n0, -n, zero);
  }

  lemma BackwardPlan<T>(s: seq<T>, n0: int, k: nat, zero: T)
    requires 0 < k < |s| && |s| - k == n0 % |s|
    ensures BackSteps(s, k, false, zero) == Turned(s, n0)
  {
    BackStepsSplit(s, k, zero);
  }

  /** The first of start, 2 * start, 4 * start, ... that is at least `need`. */
  function DoubledTo(start: nat, need: nat): (c: nat)
    requires start > 0
    ensures c >= need && (c == start || c < 2 * need)
    decreases need - start
  {
    if start >= need then start else DoubledTo(2 * start, need)
  }

  lemma MinCapacityIsPower()
    ensures IsPowerOfTwo(MIN_CAPACITY)
  {
    assert IsPowerOfTwo(1) && IsPowerOfTwo(2) && IsPowerOfTwo(4);
  }

  /** The doubling loop of Grow, SetBaseCap, CopyInSlice and shrinkToFit. */
  method DoubleUntil(start: nat, need: int) returns (c: nat)
    requires IsPowerOfTwo(start)
    ensures IsPowerOfTwo(c) && c == DoubledTo(start, if need < 0 then 0 else need)
  {
    c := start;
    ghost var n: nat := if need < 0 then 0 else need;
    while c < need
      invariant IsPowerOfTwo(c) && DoubledTo(c, n) == DoubledTo(start, n)
      decreases need - c
    {
      PowerDoubles(c);
      c := 2 * c;
    }
  }

  function Doubled(start: nat, times: nat): nat
    decreases times
  {
    if times == 0 then start else Doubled(2 * start, times - 1)
  }

  lemma {:induction false} DoubledZero(times: nat)
    ensures Doubled(0, times) == 0
  {
    if times > 0 {
      DoubledZero(times - 1);
    }
  }

  lemma {:induction false} DoubledReaches(start: nat, need: nat) returns (times: nat)
    requires start > 0
    ensures Doubled(start, times) >= need
    decreases need - start
  {
    if start >= need {
      times := 0;
    } else {
      var rest := DoubledReaches(2 * start, need);
      times := rest + 1;
    }
  }

  /** The doubling loop of shrinkToFit comes to an end exactly when it starts above zero or has nothing to reach. */
  lemma FitLoopEnds(minCap: nat, count: nat)
    ensures (exists times :: Doubled(minCap, times) >= count) <==> minCap > 0 || count == 0
  {
    if minCap > 0 {
      var times := DoubledReaches(minCap, count);
    } else {
      if times: nat :| Doubled(minCap, times) >= count {
        DoubledZero(times);
      }
      assert Doubled(minCap, 0) == 0;
    }
  }

  class Deque<T> {
    const zero: T
    var buf: array<T>
    var head: nat
    var tail: nat
    var count: nat
    var minCap: nat
    /** Elements copied by resizing since the deque was made. */
    ghost var copied: nat

    /** Everything but the position of `tail`. */
    ghost predicate Filled()
      reads this, buf
    {
      && InRing(buf[..], head, count)
      && (buf.Length > 0 ==> IsPowerOfTwo(buf.Length)) && IsBaseCap(minCap)
      && ClearOutside(buf[..], head, count, zero)
    }

    ghost predicate Valid()
      reads this, buf
    {
      Filled() && tail == if buf.Length == 0 then 0 else Slot(head, count, buf.Length)
    }

    /** As Valid, but `tail` stands at the end of the buffer where it should have wrapped around to 0. */
    ghost predicate Overrun()
      reads this, buf
    {
      Filled() && buf.Length > 0 && tail == buf.Length && Slot(head, count, buf.Length) == 0
    }

    /** The states a deque can be in between calls. */
    ghost predicate Sound()
      reads this, buf
    {
      Valid() || Overrun()
    }

    /** PushBack stores at `tail`, after growing if the deque is full. */
    ghost predicate CanPushBack()
      reads this, buf
    {
      Valid() || (Overrun() && count == buf.Length)
    }

    /** The position PushBack stores at, if it does not grow first, is in range exactly when it can be used. */
    lemma StoreInRange()
      requires Sound()
      ensures CanPushBack() <==> count == buf.Length || tail < buf.Length
    {
    }

    ghost function Contents(): (s: seq<T>)
      requires Filled()
      reads this, buf
      ensures |s| == count
    {
      Window(buf[..], head, count)
    }

    ghost function GetShape(): Shape
      reads this
    {
      Shape(buf.Length, count, minCap)
    }

    /** What every operation leaves alone: the zero value, and the buffer unless it is a new one. */
    twostate predicate SameOrNewBuffer()
      reads this
    {
      buf == old(buf) || fresh(buf)
    }

    constructor (zero: T)
      ensures Valid() && Contents() == [] && this.zero == zero
      ensures GetShape() == Shape(0, 0, 0) && copied == 0 && fresh(buf)
    {
      this.zero := zero;
      buf := new T[0];
      head, tail, count, minCap, copied := 0, 0, 0, 0, 0;
    }

    function Prev(i: nat): (p: nat)
      requires IsPowerOfTwo(buf.Length) && i <= buf.Length
      reads this
      ensures p == if i == buf.Length then i - 1 else Slot(i, buf.Length - 1, buf.Length)
    {
      MaskOneLap(i - 1, buf.Length);
      And(i - 1, buf.Length - 1)
    }

    function Next(i: nat): (p: nat)
      requires IsPowerOfTwo(buf.Length) && i < buf.Length
      reads this
      ensures p == Slot(i, 1, buf.Length)
    {
      MaskOneLap(i + 1, buf.Length);
      And(i + 1, buf.Length - 1)
    }

    function Position(i: nat): (p: nat)
      requires IsPowerOfTwo(buf.Length) && head < buf.Length && i < buf.Length
      reads this
      ensures p == Slot(head, i, buf.Length)
    {
      MaskOneLap(head + i, buf.Length);
      And(head + i, buf.Length - 1)
    }

    /** Go's copy: as many elements as fit from dst[at] on. */
    static method CopyInto(dst: array<T>, at: nat, src: seq<T>) returns (n: nat)
      requires at <= dst.Length
      modifies dst
      ensures n == if |src| <= dst.Length - at then |src| else dst.Length - at
      ensures dst[..] == old(dst[..])[..at] + src[..n] + old(dst[..])[at + n..]
    {
      n := if |src| <= dst.Length - at then |src| else dst.Length - at;
      forall i | 0 <= i < n {
        dst[at + i] := src[i];
      }
    }

    lemma ContentsAreSlices()
      requires Sound() && count > 0
      ensures tail > head ==> Contents() == buf[head..tail] + []
      ensures tail <= head ==> Contents() == buf[head..] + buf[..tail]
    {
      WindowSlices(buf[..], head, count);
      var b := buf[..];
      assert b[head..] + b[..0] == b[head..];
      if tail > head {
        assert Contents() == b[head..tail];
      }
    }

    /** Copies the elements, front first, to the start of another buffer. */
    method CopyOut(newBuf: array<T>)
      requires Sound() && 0 < count <= newBuf.Length && newBuf != buf
      modifies newBuf
      ensures newBuf[..] == Contents() + old(newBuf[..])[count..]
    {
      ContentsAreSlices();
      if tail > head {
        CopyTwo(newBuf, buf[head..tail], []);
      } else {
        CopyTwo(newBuf, buf[head..], buf[..tail]);
      }
    }

    /** Copies a to the front of a buffer and b, if there is any, behind it. */
    static method CopyTwo(newBuf: array<T>, a: seq<T>, b: seq<T>)
      requires |a| + |b| <= newBuf.Length
      modifies newBuf
      ensures newBuf[..] == (a + b) + old(newBuf[..])[|a| + |b|..]
    {
      CoverFront(newBuf[..], a, b);
      CopyAt(newBuf, 0, a);
      if |b| > 0 {
        CopyAt(newBuf, |a|, b);
      }
    }

    static method CopyAt(dst: array<T>, at: nat, src: seq<T>)
      requires at + |src| <= dst.Length
      modifies dst
      ensures dst[..] == old(dst[..])[..at] + src + old(dst[..])[at + |src|..]
    {
      var n := CopyInto(dst, at, src);
      assert src[..n] == src;
    }

    /** Moves the elements to the start of a buffer of the given size; Valid unless they fill it exactly. */
    method Resize(newSize: nat)
      requires Sound() && 0 < count <= newSize && IsPowerOfTwo(newSize)
      modifies this
      ensures Filled() && fresh(buf) && buf.Length == newSize && Contents() == old(Contents())
      ensures if count < newSize then Valid() else Overrun()
      ensures count == old(count) && minCap == old(minCap) && copied == old(copied) + count
      ensures head == 0 && tail == count
    {
      ghost var was := Contents();
      var newBuf := new T[newSize](_ => zero);
      CopyOut(newBuf);
      head := 0;
      tail := count;
      buf := newBuf;
      copied := copied + count;
      assert buf[..count] == was;
      FrontWindow(buf[..], count);
      FrontClear(buf[..], count, zero);
      assert count < newSize ==> Slot(0, count, newSize) == count;
    }

    method GrowIfFull()
      requires Sound()
      modifies this
      ensures Sound() && Contents() == old(Contents()) && count < buf.Length && (old(CanPushBack()) ==> Valid())
      ensures old(count) < old(buf.Length) ==> buf == old(buf) && tail == old(tail) && head == old(head)
      ensures old(count) == old(buf.Length) ==> Valid()
      ensures GetShape() == Grown(old(GetShape())) && copied == old(copied) + PushCost(old(GetShape()))
      ensures SameOrNewBuffer()
    {
      if count != buf.Length {
        return;
      }
      if buf.Length == 0 {
        if minCap == 0 {
          minCap := MIN_CAPACITY;
        }
        MinCapacityIsPower();
        buf := new T[minCap](_ => zero);
        FrontClear(buf[..], 0, zero);
        return;
      }
      PowerDoubles(buf.Length);
      Resize(2 * count);
    }

    method ShrinkIfExcess()
      requires Sound() && (buf.Length > 0 ==> count < buf.Length)
      modifies this
      ensures Sound() && Contents() == old(Contents())
      ensures Valid() <==> old(Valid()) || Shrunk(old(GetShape())) != old(GetShape())
      ensures GetShape() == Shrunk(old(GetShape()))
      ensures copied == old(copied) + if Shrunk(old(GetShape())) != old(GetShape()) then count else 0
      ensures SameOrNewBuffer()
    {
      if buf.Length > minCap && 4 * count == buf.Length {
        PowerHalves(buf.Length, 1);
        Resize(2 * count);
      }
    }

    method PushBack(elem: T)
      requires CanPushBack()
      modifies this, buf
      ensures old(count) < old(buf.Length) ==> buf == old(buf) && head == old(head)
      ensures Valid() && Contents() == old(Contents()) + [elem]
      ensures GetShape() == AfterPush(old(GetShape())) && copied == old(copied) + PushCost(old(GetShape()))
      ensures SameOrNewBuffer()
    {
      GrowIfFull();
      PushBackWindow(buf[..], head, count, elem, zero);
      buf[tail] := elem;
      tail := Next(tail);
      count := count + 1;
    }

    method PushFront(elem: T)
      requires Sound()
      modifies this, buf
      ensures Sound() && Contents() == [elem] + old(Contents())
      ensures Valid() <==> old(CanPushBack())
      ensures old(count) < old(buf.Length) ==> buf == old(buf) && tail == old(tail)
      ensures GetShape() == AfterPush(old(GetShape())) && copied == old(copied) + PushCost(old(GetShape()))
      ensures SameOrNewBuffer()
    {
      GrowIfFull();
      StoreFront(elem);
    }

    method StoreFront(elem: T)
      requires Sound() && count < buf.Length
      modifies this, buf
      ensures Sound() && (Valid() <==> old(Valid())) && Contents() == [elem] + old(Contents())
      ensures buf == old(buf) && tail == old(tail) && GetShape() == old(GetShape()).(count := count) && count == old(count) + 1
      ensures copied == old(copied)
    {
      PushFrontWindow(buf[..], head, count, elem, zero);
      head := Prev(head);
      buf[head] := elem;
      count := count + 1;
    }

    /** Removes the front element without shrinking. */
    method TakeFront() returns (ret: T)
      requires Sound() && count > 0
      modifies this, buf
      ensures Sound() && (Valid() <==> old(Valid())) && [ret] + Contents() == old(Contents())
      ensures buf == old(buf) && GetShape() == old(GetShape()).(count := old(count) - 1) && copied == old(copied)
    {
      ghost var was := Contents();
      PopFrontWindow(buf[..], head, count, zero);
      assert Slot(head, 0, buf.Length) == head;
      ret := buf[head];
      buf[head] := zero;
      head := Next(head);
      count := count - 1;
      assert Contents() == was[1..];
    }

    method PopFront() returns (ret: T)
      requires Sound() && count > 0
      modifies this, buf
      ensures Sound() && [ret] + Contents() == old(Contents())
      ensures Valid() <==> old(Valid()) || PopCost(old(GetShape())) > 0
      ensures GetShape() == AfterPop(old(GetShape())) && copied == old(copied) + PopCost(old(GetShape()))
      ensures SameOrNewBuffer()
    {
      ret := TakeFront();
      ShrinkIfExcess();
    }

    /** Removes the back element without shrinking. */
    method TakeBack() returns (ret: T)
      requires Sound() && count > 0
      modifies this, buf
      ensures Valid() && Contents() + [ret] == old(Contents())
      ensures buf == old(buf) && GetShape() == old(GetShape()).(count := old(count) - 1) && copied == old(copied)
    {
      ghost var was := Contents();
      PopBackWindow(buf[..], head, count, zero);
      tail := Prev(tail);
      ret := buf[tail];
      buf[tail] := zero;
      count := count - 1;
      assert Contents() == was[..count];
    }

    method PopBack() returns (ret: T)
      requires Sound() && count > 0
      modifies this, buf
      ensures Valid() && Contents() + [ret] == old(Contents())
      ensures GetShape() == AfterPop(old(GetShape())) && copied == old(copied) + PopCost(old(GetShape()))
      ensures SameOrNewBuffer()
    {
      ret := TakeBack();
      ShrinkIfExcess();
    }

    function Front(): (x: T)
      requires Sound() && count > 0
      reads this, buf
      ensures x == Contents()[0]
    {
      assert Slot(head, 0, buf.Length) == head;
      buf[head]
    }

    function Back(): (x: T)
      requires Sound() && count > 0
      reads this, buf
      ensures x == Contents()[count - 1]
    {
      assert Prev(tail) == Slot(head, count - 1, buf.Length);
      buf[Prev(tail)]
    }

    function At(i: nat): (x: T)
      requires Sound() && i < count
      reads this, buf
      ensures x == Contents()[i]
    {
      buf[Position(i)]
    }

    method Set(i: nat, item: T)
      requires Sound() && i < count
      modifies buf
      ensures Filled() && Contents() == old(Contents())[i := item]
    {
      SetWindow(buf[..], head, count, i, item, zero);
      buf[Position(i)] := item;
    }

    method ClearRange(lo: nat, hi: nat)
      requires lo <= hi <= buf.Length
      modifies buf
      ensures forall k :: 0 <= k < buf.Length ==> buf[k] == if lo <= k < hi then zero else old(buf[k])
    {
      for i := lo to hi
        invariant forall k :: 0 <= k < buf.Length ==> buf[k] == if lo <= k < i then zero else old(buf[k])
      {
        buf[i] := zero;
      }
    }

    lemma EmptyIsZero()
      requires Filled() && count == 0
      ensures forall k :: 0 <= k < buf.Length ==> buf[k] == zero
    {
      forall k | 0 <= k < buf.Length
        ensures buf[k] == zero
      {
        var i := if k >= head then k - head else k + buf.Length - head;
        assert Slot(head, i, buf.Length) == k;
      }
    }

    lemma OutsideIsZero(lo: nat)
      requires Sound() && count > 0 && lo < buf.Length
      requires if head >= tail then tail <= lo < head else lo < head || tail <= lo
      ensures buf[lo] == zero
    {
      var i := if lo >= head then lo - head else lo + buf.Length - head;
      assert Slot(head, i, buf.Length) == lo;
    }

    /** Removes everything and keeps the capacity. */
    method Clear()
      requires Sound()
      modifies this, buf
      ensures Sound() && (Valid() <==> old(Valid()) || old(count) > 0) && Contents() == [] && GetShape() == old(GetShape()).(count := 0)
      ensures buf == old(buf) && copied == old(copied)
      ensures forall k :: 0 <= k < buf.Length ==> buf[k] == zero
    {
      if count == 0 {
        EmptyIsZero();
        return;
      }
      forall lo | 0 <= lo < buf.Length && (if head >= tail then tail <= lo < head else lo < head || tail <= lo)
        ensures buf[lo] == zero
      {
        OutsideIsZero(lo);
      }
      var h, t := head, tail;
      count := 0;
      head := 0;
      tail := 0;
      if h >= t {
        ClearRange(h, buf.Length);
        h := 0;
      }
      ClearRange(h, t);
      FrontClear(buf[..], 0, zero);
    }

    /** Makes room for n more elements. */
    method Grow(n: nat)
      requires Sound()
      modifies this
      ensures Sound() && (Valid() <==> old(Valid()) || buf != old(buf)) && Contents() == old(Contents()) && buf.Length - count >= n
      ensures n <= old(buf.Length - count) ==> buf == old(buf)
      ensures buf == old(buf) || (fresh(buf) && buf.Length == DoubledTo(if old(buf.Length) == 0 then MIN_CAPACITY else old(buf.Length), count + n))
      ensures count == old(count) && minCap == old(minCap)
      ensures copied == old(copied) + if buf == old(buf) then 0 else count
    {
      var c := buf.Length;
      if n <= c - count {
        return;
      }
      MinCapacityIsPower();
      if c == 0 {
        c := MIN_CAPACITY;
      }
      c := DoubleUntil(c, count + n);
      if count == 0 {
        buf := new T[c](_ => zero);
        head := 0;
        tail := 0;
        FrontClear(buf[..], 0, zero);
      } else {
        Resize(c);
      }
    }

    ghost predicate IsTurned(s: seq<T>, k: nat)
      reads this, buf
    {
      Sound() && k <= |s| && Contents() == SplitAt(s, k)
    }

    /** Moves the first element behind the last, into free space. */
    method StepForward()
      requires Valid() && 0 < count < buf.Length
      modifies this`head, this`tail, buf
      ensures Valid() && Contents() == old(Contents())[1..] + [old(Contents())[0]]
    {
      TurnForward(buf[..], head, count, zero);
      buf[tail] := buf[head];
      buf[head] := zero;
      head := Next(head);
      tail := Next(tail);
    }

    /** What a backward step leaves in the buffer, for its new head and tail. */
    ghost predicate StepsBackTo(s: seq<T>)
      reads this, buf
    {
      && IsPowerOfTwo(buf.Length) && IsBaseCap(minCap) && 0 < count <= buf.Length && head < buf.Length && tail <= buf.Length
      && var h, t := Prev(head), Prev(tail); var moved := buf[..][h := buf[t]][t := zero];
      Window(moved, h, count) == s && ClearOutside(moved, h, count, zero) && Slot(h, count, buf.Length) == t
    }

    lemma StepsBack()
      requires Sound() && 0 < count
      ensures StepsBackTo(BackStep(Contents(), count == buf.Length, zero))
    {
      StepBack(buf[..], head, count, zero);
      assert Prev(tail) == Slot(head, count - 1, buf.Length);
    }

    method StoreBack(ghost s: seq<T>)
      requires StepsBackTo(s)
      modifies this`head, this`tail, buf
      ensures Valid() && Contents() == s
    {
      ghost var h, t := Prev(head), Prev(tail);
      ghost var moved := buf[..][h := buf[t]][t := zero];
      head := Prev(head);
      tail := Prev(tail);
      buf[head] := buf[tail];
      buf[tail] := zero;
      assert buf[..] == moved;
    }

    /** Moves the last element before the first; without free space that is its own position, which is then cleared. */
    method StepBackward()
      requires Sound() && 0 < count
      modifies this`head, this`tail, buf
      ensures Valid() && Contents() == BackStep(old(Contents()), count == buf.Length, zero)
    {
      StepsBack();
      StoreBack(BackStep(Contents(), count == buf.Length, zero));
    }

    /** One step of the forward loop: from k - 1 steps to k. */
    method TurnOn(ghost s: seq<T>, ghost k: nat)
      requires Valid() && 0 < count < buf.Length && 0 < k <= |s| && IsTurned(s, k - 1)
      modifies this`head, this`tail, buf
      ensures Valid() && IsTurned(s, k)
    {
      TurnOneMore(s, k - 1);
      StepForward();
    }

    ghost predicate IsTurnedBack(s: seq<T>, k: nat, loses: bool)
      reads this, buf
    {
      && (if k == 0 then Sound() else Valid()) && loses == (count == buf.Length)
      && |s| == count > 0 && Contents() == BackSteps(s, k, loses, zero)
    }

    /** One step of the backward loop. */
    method TurnBack(ghost s: seq<T>, ghost k: nat, ghost loses: bool)
      requires 0 < k && IsTurnedBack(s, k - 1, loses)
      modifies this`head, this`tail, buf
      ensures IsTurnedBack(s, k, loses)
    {
      StepBackward();
    }

    /** Rotating forwards from an overrun stores at `tail`, one past the end. */
    ghost predicate RotationFails(n: int)
      reads this, buf
    {
      Overrun() && count >= 2 && Remainder(n, count) > 0
    }

    /** Rotating backwards from an overrun without a free position clears what it should move. */
    ghost predicate RotationLoses(n: int)
      reads this, buf
    {
      Overrun() && count >= 2 && Remainder(n, count) < 0 && count == buf.Length
    }

    /** The overrun deques on which a rotation neither fails nor loses anything, without Go's remainder. */
    lemma RotationWorksIff(n: int)
      requires Overrun() && count >= 2
      ensures !RotationFails(n) && !RotationLoses(n) <==> n % count == 0 || (n < 0 && count < buf.Length)
    {
      RemainderSign(n, count);
    }

    /** Rotates by n, backwards for a negative n. Where the original panics `ok` is false; it has changed nothing then. */
    method Rotate(n0: int) returns (ok: bool)
      requires Sound()
      modifies this`head, this`tail, buf
      ensures ok <==> !old(RotationFails(n0))
      ensures !ok ==> Overrun() && buf[..] == old(buf[..]) && head == old(head) && tail == old(tail) == buf.Length
      ensures Sound() && (old(Valid()) ==> Valid())
      ensures ok && !old(RotationLoses(n0)) ==> Contents() == if old(count) == 0 then [] else Turned(old(Contents()), n0)
      ensures old(RotationLoses(n0)) ==> Contents() == TurnedBack(old(Contents()), -Remainder(n0, old(count)), true, zero)
      ensures buf == old(buf) && GetShape() == old(GetShape()) && copied == old(copied)
    {
      ok := true;
      if count <= 1 {
        if count == 1 {
          QuotientUnique(n0, 1, n0, 0);
        }
        return;
      }
      var n := Remainder(n0, count);
      if n == 0 {
        TurnedAt(Contents(), n0);
        return;
      }
      ok := RotatePart(n0, n);
    }

    /** Rotates by less than a lap, which is what is left of n0. */
    method RotatePart(ghost n0: int, n: int) returns (ok: bool)
      requires Sound() && count >= 2 && n == Remainder(n0, count) != 0
      modifies this`head, this`tail, buf
      ensures ok <==> !old(RotationFails(n0))
      ensures if ok then Valid() else Overrun() && buf[..] == old(buf[..]) && head == old(head) && tail == old(tail)
      ensures ok && !old(RotationLoses(n0)) ==> Contents() == Turned(old(Contents()), n0)
      ensures old(RotationLoses(n0)) ==> Contents() == TurnedBack(old(Contents()), -n, true, zero)
    {
      ghost var was := Contents();
      ghost var full, loses := head == tail, RotationLoses(n0);
      RotationCases(n0, n);
      ok := RotateBy(n);
      if loses {
        BackStepsTurn(was, -n, true, zero);
      } else if full || 0 < n {
        TurnedAt(was, n0);
      } else {
        BackwardTurn(was, n0, n, zero);
      }
    }

    /** Which of its ways the code takes, told by the two indices. */
    lemma RotationCases(n0: int, n: int)
      requires Sound() && count >= 2 && n == Remainder(n0, count) != 0
      ensures RotationFails(n0) <==> 0 < n && tail == buf.Length
      ensures RotationLoses(n0) <==> n < 0 && head != tail && count == buf.Length
      ensures head == tail ==> tail < buf.Length == count
    {
      IndicesMeet();
    }

    lemma IndicesMeet()
      requires Sound() && count > 0
      ensures head == tail <==> Valid() && count == buf.Length
      ensures tail == buf.Length <==> Overrun()
    {
    }

    method RotateBy(n: int) returns (ok: bool)
      requires Sound() && count >= 2 && n != 0 && n < count && 0 < n + count
      modifies this`head, this`tail, buf
      ensures ok <==> n < 0 || old(tail) < buf.Length
      ensures if ok then Valid() else Overrun() && buf[..] == old(buf[..]) && head == old(head) && tail == old(tail)
      ensures old(head == tail) ==> Contents() == SplitAt(old(Contents()), if n >= 0 then n else n + count)
      ensures old(head != tail) && n < 0 ==> Contents() == BackSteps(old(Contents()), -n, count == buf.Length, zero)
      ensures old(head != tail) && 0 < n && ok ==> Contents() == SplitAt(old(Contents()), n)
    {
      IndicesMeet();
      // without a free position only the two indices move
      if head == tail {
        TurnFull(n);
        return true;
      }
      if n < 0 {
        RotateBackward(n);
        return true;
      }
      if tail == buf.Length {
        return false;
      }
      RotateForward(n);
      return true;
    }

    method TurnFull(n: int)
      requires Valid() && 0 < count == buf.Length && n < count && 0 < n + count
      modifies this`head, this`tail
      ensures Valid()
      ensures Contents() == var k := if n >= 0 then n else n + count; SplitAt(old(Contents()), k)
    {
      TurnedByMask(buf[..], head, n, zero);
      head := And(head + n, buf.Length - 1);
      tail := head;
    }

    method RotateBackward(n0: int)
      requires Sound() && n0 < 0 < count + n0
      modifies this`head, this`tail, buf
      ensures Valid() && Contents() == BackSteps(old(Contents()), -n0, count == buf.Length, zero)
    {
      ghost var was, loses := Contents(), count == buf.Length;
      ghost var k := 0;
      var n := n0;
      while n < 0
        invariant n0 <= n <= 0 && k == n - n0
        invariant IsTurnedBack(was, k, loses)
        decreases -n
      {
        ghost var more := k + 1;
        TurnBack(was, more, loses);
        n, k := n + 1, more;
      }
    }

    method RotateForward(n0: int)
      requires Valid() && 0 < n0 < count < buf.Length
      modifies this`head, this`tail, buf
      ensures Valid() && Contents() == SplitAt(old(Contents()), n0)
    {
      ghost var was := Contents();
      ghost var k := 0;
      var n := n0;
      TurnNone(was);
      while n > 0
        invariant 0 <= n <= n0 && k == n0 - n
        invariant Valid() && IsTurned(was, k)
        decreases n
      {
        ghost var more := k + 1;
        TurnOn(was, more);
        n, k := n - 1, more;
      }
    }

    /** Exchanges the elements at two buffer positions, those of elements i and j. */
    method Exchange(a: nat, b: nat, ghost i: nat, ghost j: nat)
      requires Filled() && i < count && j < count && a == Slot(head, i, buf.Length) && b == Slot(head, j, buf.Length)
      modifies buf
      ensures Filled() && Contents() == old(Contents())[i := old(Contents())[j]][j := old(Contents())[i]]
    {
      SetWindow(buf[..], head, count, i, buf[b], zero);
      SetWindow(buf[..][a := buf[b]], head, count, j, buf[a], zero);
      buf[a], buf[b] := buf[b], buf[a];
    }

    method Swap(idxA: nat, idxB: nat)
      requires Sound() && idxA < count && idxB < count
      modifies buf
      ensures Filled() && Contents() == old(Contents())[idxA := old(Contents())[idxB]][idxB := old(Contents())[idxA]]
    {
      if idxA == idxB {
        return;
      }
      Exchange(Position(idxA), Position(idxB), idxA, idxB);
    }

    /** Whether Insert adds the element at the front and moves it back from there. */
    predicate InsertsFromFront(at: int)
      reads this
    {
      at <= 0 || (at < count && at * 2 < count)
    }

    /** Inserts before element `at`; out-of-range positions mean the nearer end. */
    method Insert(at: int, item: T)
      requires if InsertsFromFront(at) then Sound() else CanPushBack()
      modifies this, buf
      ensures Sound() && (Valid() <==> old(CanPushBack()))
      ensures old(count) < old(buf.Length) ==>
        buf == old(buf) && if old(InsertsFromFront(at)) then tail == old(tail) else head == old(head)
      ensures var s := old(Contents()); var k := if at <= 0 then 0 else if at >= |s| then |s| else at;
        Contents() == s[..k] + [item] + s[k..]
      ensures GetShape() == AfterPush(old(GetShape())) && copied == old(copied) + PushCost(old(GetShape()))
      ensures SameOrNewBuffer()
    {
      if at <= 0 {
        PushFront(item);
        return;
      }
      if at >= count {
        PushBack(item);
        return;
      }
      if at * 2 < count {
        InsertFromFront(at, item);
        return;
      }
      InsertFromBack(at, item);
    }

    method InsertFromFront(at: nat, item: T)
      requires Sound() && at <= count
      modifies this, buf
      ensures old(count) < old(buf.Length) ==> buf == old(buf) && tail == old(tail)
      ensures Sound() && (Valid() <==> old(CanPushBack())) && Contents() == With(old(Contents()), at, item)
      ensures GetShape() == AfterPush(old(GetShape())) && copied == old(copied) + PushCost(old(GetShape()))
      ensures SameOrNewBuffer()
    {
      ghost var s := Contents();
      PushFront(item);
      assert Contents() == With(s, 0, item);
      MoveBack(at, s, item);
    }

    method InsertFromBack(at: nat, item: T)
      requires CanPushBack() && at <= count
      modifies this, buf
      ensures old(count) < old(buf.Length) ==> buf == old(buf) && head == old(head)
      ensures Valid() && Contents() == With(old(Contents()), at, item)
      ensures GetShape() == AfterPush(old(GetShape())) && copied == old(copied) + PushCost(old(GetShape()))
      ensures SameOrNewBuffer()
    {
      ghost var s := Contents();
      var swaps := count - at;
      PushBack(item);
      assert Contents() == With(s, |s|, item);
      MoveForward(swaps, s, item, at);
    }

    /** The contents are t with x in front of its element i, and x is at buffer position p. */
    ghost predicate Holding(t: seq<T>, x: T, i: nat, p: nat)
      reads this, buf
    {
      Filled() && i <= |t| && count == |t| + 1 && Contents() == With(t, i, x) && p == Slot(head, i, buf.Length)
    }

    ghost predicate HoldingBehind(t: seq<T>, x: T, start: nat, steps: nat, p: nat)
      reads this, buf
    {
      Holding(t, x, start + steps, p)
    }

    ghost predicate HoldingBefore(t: seq<T>, x: T, start: nat, steps: nat, p: nat)
      reads this, buf
    {
      steps <= start && Holding(t, x, start - steps, p)
    }

    /** Swaps an element one place back. */
    method SwapBack(p: nat, ghost t: seq<T>, ghost x: T, ghost start: nat, ghost steps: nat) returns (next: nat)
      requires 0 < steps && start + steps <= |t| && HoldingBehind(t, x, start, steps - 1, p)
      modifies buf
      ensures HoldingBehind(t, x, start, steps, next)
    {
      ghost var i := start + steps - 1;
      next := Next(p);
      ExchangeMovesOn(t, i, x);
      Exchange(p, next, i, i + 1);
    }

    /** Swaps an element one place forward. */
    method SwapForward(p: nat, ghost t: seq<T>, ghost x: T, ghost start: nat, ghost steps: nat) returns (prev: nat)
      requires 0 < steps <= start && HoldingBefore(t, x, start, steps - 1, p)
      modifies buf
      ensures HoldingBefore(t, x, start, steps, prev)
    {
      ghost var i := start - steps;
      prev := Prev(p);
      assert prev == Slot(head, i, buf.Length);
      ExchangeMovesOn(t, i, x);
      Exchange(p, prev, i + 1, i);
    }

    /** Swaps the first element backwards, one place at a time. */
    method MoveBack(at: nat, ghost s: seq<T>, ghost item: T)
      requires Filled() && at <= |s| && Contents() == With(s, 0, item)
      modifies buf
      ensures Filled() && Contents() == With(s, at, item)
    {
      var front := head;
      assert Slot(head, 0, buf.Length) == head;
      for i := 0 to at
        invariant HoldingBehind(s, item, 0, i, front)
      {
        front := SwapBack(front, s, item, 0, i + 1);
      }
    }

    /** Swaps the last element forwards, one place at a time. */
    method MoveForward(swaps: nat, ghost s: seq<T>, ghost item: T, ghost at: nat)
      requires Valid() && swaps + at == |s| && Contents() == With(s, |s|, item)
      modifies buf
      ensures Valid() && Contents() == With(s, at, item)
    {
      assert Prev(tail) == Slot(head, count - 1, buf.Length);
      var back := Prev(tail);
      for i := 0 to swaps
        invariant HoldingBefore(s, item, |s|, i, back)
      {
        back := SwapForward(back, s, item, |s|, i + 1);
      }
      assert |s| - swaps == at;
    }

    method Remove(at: nat) returns (ret: T)
      requires Sound() && at < count
      modifies this, buf
      ensures Sound() && (Valid() <==> old(Valid()) || at * 2 >= old(count) || PopCost(old(GetShape())) > 0)
      ensures ret == old(Contents())[at] && Contents() == old(Contents())[..at] + old(Contents())[at + 1..]
      ensures GetShape() == AfterPop(old(GetShape())) && copied == old(copied) + PopCost(old(GetShape()))
      ensures SameOrNewBuffer()
    {
      ghost var s := Contents();
      ghost var t := s[..at] + s[at + 1..];
      assert s == With(t, at, s[at]);
      if at * 2 < count {
        BringToFront(at, t, s[at]);
        ret := PopFront();
        SameFirst(ret, Contents(), s[at], t);
        return;
      }
      BringToBack(at, t, s[at]);
      ret := PopBack();
      SameLast(ret, Contents(), s[at], t);
    }

    method BringToFront(at: nat, ghost t: seq<T>, ghost x: T)
      requires Filled() && at <= |t| && Contents() == With(t, at, x)
      modifies buf
      ensures Filled() && Contents() == [x] + t
    {
      var rm := Position(at);
      for i := 0 to at
        invariant HoldingBefore(t, x, at, i, rm)
      {
        rm := SwapForward(rm, t, x, at, i + 1);
      }
      assert With(t, 0, x) == [x] + t;
    }

    method BringToBack(at: nat, ghost t: seq<T>, ghost x: T)
      requires Filled() && at <= |t| && Contents() == With(t, at, x)
      modifies buf
      ensures Filled() && Contents() == t + [x]
    {
      var rm := Position(at);
      var swaps := count - at - 1;
      for i := 0 to swaps
        invariant HoldingBehind(t, x, at, i, rm)
      {
        rm := SwapBack(rm, t, x, at, i + 1);
      }
      assert With(t, |t|, x) == t + [x];
    }

    method SetBaseCap(baseCap: int)
      requires Sound()
      modifies this
      ensures Sound() && (Valid() <==> old(Valid())) && Contents() == old(Contents()) && buf == old(buf) && copied == old(copied)
      ensures minCap == DoubledTo(MIN_CAPACITY, if baseCap < 0 then 0 else baseCap)
    {
      MinCapacityIsPower();
      minCap := DoubleUntil(MIN_CAPACITY, baseCap);
    }

    // ----- operations that can leave the deque full with `tail` past the end -----

    /** The capacity CopyInSlice ends up with. */
    ghost function CapacityFor(n: nat): nat
      reads this
    {
      if buf.Length >= n then buf.Length
      else DoubledTo(if buf.Length == 0 then MIN_CAPACITY else buf.Length, n)
    }

    /**
     Replaces the contents. The elements always arrive; the deque stays usable exactly when they
     do not fill the buffer, because `tail` is set to their number without wrapping around.
     */
    method CopyInSlice(input: seq<T>)
      requires Sound()
      modifies this, buf
      ensures Sound() && Contents() == input && buf.Length == old(CapacityFor(|input|))
      ensures Valid() <==> |input| < old(CapacityFor(|input|)) || input == []
      ensures SameOrNewBuffer() && copied == old(copied)
    {
      if buf.Length < |input| {
        Allocate(|input|);
      } else if buf.Length > |input| {
        Clear();
      }
      Refill(input);
    }

    /** A new buffer, doubled from the capacity until n elements fit. */
    method Allocate(n: nat)
      requires Sound() && buf.Length < n
      modifies this
      ensures IsBaseCap(minCap) && IsPowerOfTwo(buf.Length) && buf.Length == old(CapacityFor(n)) && fresh(buf)
      ensures (forall i :: 0 <= i < buf.Length ==> buf[i] == zero) && copied == old(copied)
    {
      var newCap := buf.Length;
      MinCapacityIsPower();
      if newCap == 0 {
        newCap := MIN_CAPACITY;
        minCap := MIN_CAPACITY;
      }
      newCap := DoubleUntil(newCap, n);
      buf := new T[newCap](_ => zero);
    }

    method Refill(input: seq<T>)
      requires |input| <= buf.Length && (buf.Length > 0 ==> IsPowerOfTwo(buf.Length)) && IsBaseCap(minCap)
      requires forall i :: |input| <= i < buf.Length ==> buf[i] == zero
      modifies buf, this`count, this`tail, this`head
      ensures Filled() && Contents() == input
      ensures if |input| < buf.Length || input == [] then Valid() else Overrun()
    {
      var n := CopyInto(buf, 0, input);
      count := n;
      tail := n;
      head := 0;
      assert buf[..n] == input;
      FrontWindow(buf[..], n);
      FrontClear(buf[..], n, zero);
      assert n < buf.Length ==> Slot(0, n, buf.Length) == n;
    }

    predicate FitShrinks()
      reads this
    {
      buf.Length > minCap && 4 * count <= buf.Length
    }

    /**
     Gives back excess capacity after many removals. When the call does not come to an end, because
     there is no base capacity to double from, `ends` is false and nothing has changed.
     */
    method ShrinkToFit() returns (ends: bool)
      requires Sound()
      modifies this
      ensures ends <==> !old(FitShrinks()) || minCap > 0 || count == 0
      ensures Sound() && Contents() == old(Contents()) && minCap == old(minCap) && SameOrNewBuffer()
      ensures !ends || !old(FitShrinks()) ==> buf == old(buf) && (Valid() <==> old(Valid()))
      ensures ends && old(FitShrinks()) ==>
        && buf.Length == (if count == 0 then minCap else DoubledTo(minCap, count))
        && (Valid() <==> !(0 < count == DoubledTo(minCap, count)))
    {
      if buf.Length > minCap && 4 * count <= buf.Length {
        if count == 0 {
          head := 0;
          tail := 0;
          buf := new T[minCap](_ => zero);
          FrontClear(buf[..], 0, zero);
          return true;
        }
        if minCap == 0 {
          // FitLoopEnds: doubling zero never reaches the count
          return false;
        }
        var c := DoubleUntil(minCap, count);
        Resize(c);
      }
      return true;
    }

    ghost predicate HandedOut(items: seq<T>, s: seq<T>)
      reads this, buf
    {
      Sound() && items + Contents() == s
    }

    method TakeNext(items: seq<T>, ghost s: seq<T>) returns (more: seq<T>)
      requires HandedOut(items, s) && count > 0
      modifies this, buf
      ensures HandedOut(more, s) && (Valid() <==> old(Valid())) && |more| == |items| + 1
      ensures buf == old(buf) && GetShape() == old(GetShape()).(count := old(count) - 1)
    {
      var ret := TakeFront();
      more := items + [ret];
      assert items + ([ret] + Contents()) == more + Contents();
    }

    method TakeUntil(stop: nat) returns (items: seq<T>)
      requires Sound() && stop >= 1
      modifies this, buf
      ensures Sound() && (Valid() <==> old(Valid())) && items + Contents() == old(Contents())
      ensures |items| == if stop < old(count) then stop else old(count)
      ensures buf == old(buf) && GetShape() == old(GetShape()).(count := old(count) - |items|)
    {
      items := [];
      ghost var was := Contents();
      ghost var b, shape := buf, GetShape();
      assert items + Contents() == was;
      while count != 0
        invariant HandedOut(items, was) && (Valid() <==> old(Valid())) && buf == b && GetShape() == shape.(count := count)
        invariant |items| + count == shape.count && |items| < stop
        decreases count
      {
        items := TakeNext(items, was);
        if |items| == stop {
          break;
        }
      }
    }

    /**
     Hands elements out from the front until the consumer stops, at its `stop`-th element, or none
     is left; then gives back excess capacity once, which may not come to an end.
     */
    method IterPopFront(stop: nat) returns (items: seq<T>, ends: bool)
      requires Sound() && stop >= 1
      modifies this, buf
      ensures Sound() && items + Contents() == old(Contents()) && minCap == old(minCap)
      ensures |items| == if stop < old(count) then stop else old(count)
      ensures var shrinks := old(buf.Length) > minCap && 4 * count <= old(buf.Length) && old(count) > 0;
        && (ends <==> !shrinks || minCap > 0 || count == 0)
        && (Valid() <==> if ends && shrinks then !(0 < count == DoubledTo(minCap, count)) else old(Valid()))
    {
      items, ends := [], true;
      if count == 0 {
        return;
      }
      items := TakeUntil(stop);
      ends := ShrinkToFit();
    }
  }
  // ----- runs of calls -----

  /** Grow with room for all items first, then a push for each: only Grow can copy or change the buffer. */
  method GrowThenPush<T>(d: Deque<T>, items: seq<T>)
    requires d.Valid()
    modifies d, d.buf
    ensures d.Valid() && d.Contents() == old(d.Contents()) + items && d.minCap == old(d.minCap)
    ensures |items| <= old(d.buf.Length - d.count) ==> d.buf == old(d.buf) && d.copied == old(d.copied)
    ensures d.copied <= old(d.copied) + old(d.count)
  {
    d.Grow(|items|);
    PushAll(d, items);
  }

  /** i items have been pushed, without copying, since the deque held `was`. */
  ghost predicate Pushed<T>(d: Deque<T>, was: seq<T>, shape: Shape, copied: nat, items: seq<T>, i: nat)
    reads d, d.buf
  {
    && d.Valid() && i <= |items| && d.Contents() == was + items[..i]
    && d.GetShape() == AfterPushes(shape, i) && d.copied == copied + PushesCost(shape, i)
  }

  method PushNext<T>(d: Deque<T>, items: seq<T>, i: nat, ghost was: seq<T>, ghost shape: Shape, ghost copied: nat)
    requires i < |items| && shape.count + |items| <= shape.cap && Pushed(d, was, shape, copied, items, i)
    modifies d, d.buf
    ensures Pushed(d, was, shape, copied, items, i + 1) && d.buf == old(d.buf)
  {
    RoomMeansNoResize(shape, i);
    d.PushBack(items[i]);
    assert was + items[..i + 1] == (was + items[..i]) + [items[i]];
  }

  /** With room for all items the pushes copy nothing and keep the buffer. */
  method PushAll<T>(d: Deque<T>, items: seq<T>)
    requires d.Valid() && d.count + |items| <= d.buf.Length
    modifies d, d.buf
    ensures d.Valid() && d.Contents() == old(d.Contents()) + items
    ensures d.buf == old(d.buf) && d.copied == old(d.copied) && d.minCap == old(d.minCap)
  {
    ghost var was, shape, copied := d.Contents(), d.GetShape(), d.copied;
    assert was + items[..0] == was;
    for i := 0 to |items|
      invariant Pushed(d, was, shape, copied, items, i) && d.buf == old(d.buf)
    {
      PushNext(d, items, i, was, shape, copied);
    }
    RoomMeansNoResize(shape, |items|);
    assert items[..|items|] == items;
  }

  /** Filling the buffer exactly and popping the front leaves a deque whose next PushBack stores one past the end. */
  method ExactFillThenPop() returns (d: Deque<int>)
    ensures fresh(d) && fresh(d.buf) && d.Sound() && d.Contents() == [2, 3, 4, 5, 6, 7, 8]
    ensures !d.CanPushBack() && d.tail == d.buf.Length == 8
  {
    d := new Deque(0);
    d.CopyInSlice([1, 2, 3, 4, 5, 6, 7, 8]);
    var first := d.PopFront();
    assert ([first] + d.Contents())[1..] == d.Contents();
  }

  /** A deque that has grown without a base capacity: shrinking to fit does not come to an end. */
  method GrownWithoutBase() returns (d: Deque<int>)
    ensures fresh(d) && fresh(d.buf) && d.Valid() && d.Contents() == [1] && d.FitShrinks() && d.minCap == 0
  {
    d := new Deque(0);
    d.Grow(9);
    d.PushBack(1);
  }
}
