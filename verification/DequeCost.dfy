/**
 The capacity policy of the deque, apart from its elements: when it resizes, and how many
 elements each resize copies. The class Deque is proved to follow this policy; here the policy
 is proved cheap over whole runs.
 */
module DequeCost {
  import opened Bits

  /** Capacity, element count and base capacity of a deque. */
  datatype Shape = Shape(cap: nat, count: nat, minCap: nat)

  datatype Op = Push | Pop

  const MIN_CAPACITY := 8

  /** growIfFull. */
  function Grown(s: Shape): Shape {
    if s.count != s.cap then s
    else if s.cap == 0 then
      var base := if s.minCap == 0 then MIN_CAPACITY else s.minCap;
      Shape(base, s.count, base)
    else s.(cap := 2 * s.count)
  }

  /** shrinkIfExcess. */
  function Shrunk(s: Shape): Shape {
    if s.cap > s.minCap && 4 * s.count == s.cap then s.(cap := 2 * s.count) else s
  }

  function AfterPush(s: Shape): Shape {
    var g := Grown(s);
    g.(count := g.count + 1)
  }

  function AfterPop(s: Shape): Shape
    requires s.count > 0
  {
    Shrunk(s.(count := s.count - 1))
  }

  /** Elements copied: a resize copies every element held at that moment. */
  function PushCost(s: Shape): nat {
    if s.count == s.cap && s.cap != 0 then s.count else 0
  }

  function PopCost(s: Shape): nat
    requires s.count > 0
  {
    var c := s.(count := s.count - 1);
    if c.cap > c.minCap && 4 * c.count == c.cap then c.count else 0
  }

  predicate IsBaseCap(minCap: nat) {
    minCap == 0 || (IsPowerOfTwo(minCap) && minCap >= MIN_CAPACITY)
  }

  /** The shapes a deque takes between pushes and pops. */
  predicate WellShaped(s: Shape) {
    && s.count <= s.cap && IsBaseCap(s.minCap)
    && (s.cap > 0 ==> IsPowerOfTwo(s.cap) && s.cap >= s.minCap > 0)
  }

  /** Above the base capacity a deque is more than a quarter full. */
  predicate Tight(s: Shape) {
    s.cap > s.minCap ==> s.cap < 4 * s.count
  }

  lemma PushKeepsShape(s: Shape)
    requires WellShaped(s)
    ensures WellShaped(AfterPush(s)) && (Tight(s) ==> Tight(AfterPush(s)))
  {
    if s.cap > 0 {
      PowerDoubles(s.cap);
    }
    assert IsPowerOfTwo(1) && IsPowerOfTwo(2) && IsPowerOfTwo(4) && IsPowerOfTwo(8);
  }

  lemma PopKeepsShape(s: Shape)
    requires WellShaped(s) && s.count > 0
    ensures WellShaped(AfterPop(s)) && (Tight(s) ==> Tight(AfterPop(s)))
  {
    PopKeepsWellShaped(s);
    if s.cap > s.minCap {
      PowerDividesByFour(s.cap);
      if Tight(s) {
        PopKeepsTight(s);
      }
    }
  }

  lemma PopKeepsWellShaped(s: Shape)
    requires WellShaped(s) && s.count > 0
    ensures WellShaped(AfterPop(s))
  {
    if s.cap > s.minCap && 4 * (s.count - 1) == s.cap {
      PowerHalves(s.cap, s.minCap);
      assert AfterPop(s).cap == s.cap / 2;
    }
  }

  lemma PopKeepsTight(s: Shape)
    requires s.count > 0 && s.cap > s.minCap > 0 && s.cap % 4 == 0 && Tight(s)
    ensures Tight(AfterPop(s))
  {
  }

  // ----- runs -----

  /** A run only pops while something is left; popping an empty deque panics. */
  predicate Runs(s: Shape, ops: seq<Op>)
    requires WellShaped(s)
    decreases |ops|
  {
    |ops| == 0 ||
    match ops[0]
    case Push => PushKeepsShape(s); Runs(AfterPush(s), ops[1..])
    case Pop => s.count > 0 && (PopKeepsShape(s); Runs(AfterPop(s), ops[1..]))
  }

  function Final(s: Shape, ops: seq<Op>): Shape
    requires WellShaped(s) && Runs(s, ops)
    decreases |ops|
  {
    if |ops| == 0 then s
    else match ops[0]
      case Push => PushKeepsShape(s); Final(AfterPush(s), ops[1..])
      case Pop => PopKeepsShape(s); Final(AfterPop(s), ops[1..])
  }

  function TotalCost(s: Shape, ops: seq<Op>): nat
    requires WellShaped(s) && Runs(s, ops)
    decreases |ops|
  {
    if |ops| == 0 then 0
    else match ops[0]
      case Push => PushKeepsShape(s); PushCost(s) + TotalCost(AfterPush(s), ops[1..])
      case Pop => PopKeepsShape(s); PopCost(s) + TotalCost(AfterPop(s), ops[1..])
  }

  function Pushes(ops: seq<Op>): nat {
    if |ops| == 0 then 0 else (if ops[0].Push? then 1 else 0) + Pushes(ops[1..])
  }

  /** Work saved up for the next resize: two per push past half full, one per pop below. */
  function Potential(s: Shape): nat {
    if 2 * s.count >= s.cap then 2 * s.count - s.cap
    else if s.cap > s.minCap then s.cap / 2 - s.count
    else 0
  }

  /** A push pays for what it copies and saves up at most two. */
  lemma PushPays(s: Shape)
    requires WellShaped(s) && Tight(s)
    ensures PushCost(s) + Potential(AfterPush(s)) <= Potential(s) + 2
  {
  }

  /** A pop pays for what it copies and saves up at most one. */
  lemma PopPays(s: Shape)
    requires WellShaped(s) && Tight(s) && s.count > 0
    ensures PopCost(s) + Potential(AfterPop(s)) <= Potential(s) + 1
  {
    if s.cap > s.minCap {
      PowerHalves(s.cap, s.minCap);
      PowerDividesByFour(s.cap);
    }
  }

  lemma {:induction false} RunCost(s: Shape, ops: seq<Op>)
    requires WellShaped(s) && Tight(s) && Runs(s, ops)
    ensures TotalCost(s, ops) + Potential(Final(s, ops)) <= Potential(s) + |ops| + Pushes(ops)
    ensures WellShaped(Final(s, ops)) && Tight(Final(s, ops))
    decreases |ops|
  {
    if |ops| > 0 {
      match ops[0]
      case Push =>
        PushKeepsShape(s);
        PushPays(s);
        RunCost(AfterPush(s), ops[1..]);
      case Pop =>
        PopKeepsShape(s);
        PopPays(s);
        RunCost(AfterPop(s), ops[1..]);
    }
  }

  /**
   Over any run of pushes and pops from an empty deque, resizing copies at most two elements a
   push and one a pop, and the capacity never reaches four times the count above the base.
   */
  lemma AmortisedBound(minCap: nat, ops: seq<Op>)
    requires IsBaseCap(minCap) && Runs(Shape(0, 0, minCap), ops)
    ensures TotalCost(Shape(0, 0, minCap), ops) <= 2 * Pushes(ops) + (|ops| - Pushes(ops)) <= 2 * |ops|
    ensures var end := Final(Shape(0, 0, minCap), ops); end.cap > end.minCap ==> end.cap < 4 * end.count
  {
    RunCost(Shape(0, 0, minCap), ops);
    PushesBounded(ops);
  }

  lemma {:induction false} PushesBounded(ops: seq<Op>)
    ensures Pushes(ops) <= |ops|
  {
    if |ops| > 0 {
      PushesBounded(ops[1..]);
    }
  }

  /** When the capacity changes: the first push makes room for 8 or the base capacity, a push on a full
      buffer doubles it, and a pop that leaves a quarter of more than the base capacity halves it. */
  lemma CapacityChanges(s: Shape)
    requires WellShaped(s)
    ensures var c := AfterPush(s).cap;
      if s.cap == 0 then c == (if s.minCap == 0 then 8 else s.minCap) else c == if s.count == s.cap then 2 * s.cap else s.cap
    ensures s.count > 0 ==>
      var c := AfterPop(s).cap; if s.cap > s.minCap && s.cap == 4 * (s.count - 1) then c == s.cap / 2 else c == s.cap
    ensures AfterPush(s).count == s.count + 1 && (s.count > 0 ==> AfterPop(s).count == s.count - 1)
  {
  }

  /** The shape after n pushes in a row, whatever shape they start from. */
  function AfterPushes(s: Shape, n: nat): Shape {
    if n == 0 then s else AfterPush(AfterPushes(s, n - 1))
  }

  /** Elements copied by n pushes in a row. */
  function PushesCost(s: Shape, n: nat): nat {
    if n == 0 then 0 else PushesCost(s, n - 1) + PushCost(AfterPushes(s, n - 1))
  }

  /** What Grow(n) is for: with room for n more elements, n pushes copy nothing and keep the buffer. */
  lemma {:induction false} RoomMeansNoResize(s: Shape, n: nat)
    requires s.count + n <= s.cap
    ensures AfterPushes(s, n) == s.(count := s.count + n) && PushesCost(s, n) == 0
  {
    if n > 0 {
      RoomMeansNoResize(s, n - 1);
    }
  }
}
