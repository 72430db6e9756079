/** The SBUS dispatcher: one call per pending bit that has a handler, highest bit
    first, found with the processor's leading-bit count. */
module SbusDispatch {

  const BITS: nat := 32

  function Pow2(n: nat): (r: nat)
    ensures r > 0
  {
    if n == 0 then 1 else 2 * Pow2(n - 1)
  }

  /** Is bit `b` of `x` set? */
  predicate Bit(x: nat, b: nat) {
    if b == 0 then x % 2 == 1 else Bit(x / 2, b - 1)
  }

  /** `x & ~y`, bit by bit. */
  function AndNot(x: nat, y: nat): (r: nat)
    ensures r <= x
  {
    if x == 0 then 0
    else (if x % 2 == 1 && y % 2 == 0 then 1 else 0) + 2 * AndNot(x / 2, y / 2)
  }

  /** How many of the bits `b`, `b - 1`, … are zero before the first that is set. */
  function ZerosFrom(x: nat, b: int): (n: nat)
    requires b >= -1
    decreases b + 1
  {
    if b < 0 || Bit(x, b) then 0 else 1 + ZerosFrom(x, b - 1)
  }

  /** The `plzcw` instruction on a word whose top bit is clear: the number of
      leading zeros, less one. */
  function LeadingCount(x: nat): int {
    ZerosFrom(x, 31) - 1
  }

  /** The dispatcher's bit number: 31 for the top bit, else by leading-bit count. */
  function DispatchBit(x: nat): int {
    if Bit(x, 31) then 31 else 30 - LeadingCount(x)
  }

  // ----- facts about bits -----

  lemma {:induction false} BitOfPow2(k: nat, b: nat)
    ensures Bit(Pow2(k), b) <==> b == k
  {
    if k == 0 {
      if b > 0 {
        ZeroBit(b - 1);
      }
    } else {
      assert Pow2(k) / 2 == Pow2(k - 1) && Pow2(k) % 2 == 0;
      if b > 0 {
        BitOfPow2(k - 1, b - 1);
      }
    }
  }

  lemma {:induction false} ZeroBit(b: nat)
    ensures !Bit(0, b)
  {
    if b > 0 {
      ZeroBit(b - 1);
    }
  }

  lemma {:induction false} BitOfAndNot(x: nat, y: nat, b: nat)
    ensures Bit(AndNot(x, y), b) <==> Bit(x, b) && !Bit(y, b)
  {
    if x == 0 {
      ZeroBit(b);
    } else {
      var r := AndNot(x, y);
      assert r / 2 == AndNot(x / 2, y / 2);
      if b > 0 {
        BitOfAndNot(x / 2, y / 2, b - 1);
      }
    }
  }

  /** Clearing a set bit makes the mask smaller. */
  lemma {:induction false} ClearingShrinks(x: nat, k: nat)
    requires Bit(x, k)
    ensures AndNot(x, Pow2(k)) < x
  {
    if x == 0 {
      ZeroBit(k);
    } else if k == 0 {
    } else {
      assert Pow2(k) / 2 == Pow2(k - 1) && Pow2(k) % 2 == 0;
      ClearingShrinks(x / 2, k - 1);
    }
  }

  lemma {:induction false} SomeBit(x: nat, n: nat) returns (b: nat)
    requires 0 < x < Pow2(n)
    ensures b < n && Bit(x, b)
  {
    if x % 2 == 1 {
      b := 0;
    } else {
      b := SomeBit(x / 2, n - 1);
      b := b + 1;
    }
  }

  lemma {:induction false} ZerosFromSpec(x: nat, b: int)
    requires b >= -1
    ensures var n := ZerosFrom(x, b);
            && n <= b + 1
            && (forall j | b - n < j <= b :: j >= 0 && !Bit(x, j))
            && (n <= b ==> Bit(x, b - n))
    decreases b + 1
  {
    if b >= 0 && !Bit(x, b) {
      ZerosFromSpec(x, b - 1);
    }
  }

  /** For every nonzero 32-bit mask the instruction sequence finds its highest set bit. */
  lemma HighestBit(x: nat)
    requires 0 < x < Pow2(BITS)
    ensures 0 <= DispatchBit(x) < BITS && Bit(x, DispatchBit(x))
    ensures forall j | DispatchBit(x) < j < BITS :: !Bit(x, j)
  {
    var b := SomeBit(x, BITS);
    ZerosFromSpec(x, 31);
    assert ZerosFrom(x, 31) <= 31 - b;
  }

  // ----- the dispatcher -----

  /** A call of the handler for a bit; bits below 16 are acknowledged first. */
  datatype Call = Call(bit: nat, acknowledged: bool)

  /** What should happen for the bits below `n`: highest first, if handled. */
  function Expected(mask: nat, handled: nat -> bool, n: nat): seq<Call> {
    if n == 0 then []
    else (if Bit(mask, n - 1) && handled(n - 1) then [Call(n - 1, n - 1 < 16)] else [])
         + Expected(mask, handled, n - 1)
  }

  lemma {:induction false} ExpectedSkips(mask: nat, handled: nat -> bool, from: nat, n: nat)
    requires from <= n && forall j | from <= j < n :: !Bit(mask, j)
    ensures Expected(mask, handled, n) == Expected(mask, handled, from)
  {
    if from < n {
      ExpectedSkips(mask, handled, from, n - 1);
    }
  }

  lemma {:induction false} ExpectedSame(m1: nat, m2: nat, handled: nat -> bool, n: nat)
    requires forall j | 0 <= j < n :: Bit(m1, j) == Bit(m2, j)
    ensures Expected(m1, handled, n) == Expected(m2, handled, n)
  {
    if n > 0 {
      ExpectedSame(m1, m2, handled, n - 1);
    }
  }

  /** Taking the highest bit off a mask takes the first call off the list. */
  lemma ExpectedStep(mask: nat, handled: nat -> bool, b: nat)
    requires b < BITS && Bit(mask, b) && forall j | b < j < BITS :: !Bit(mask, j)
    ensures Expected(mask, handled, BITS)
         == (if handled(b) then [Call(b, b < 16)] else []) + Expected(AndNot(mask, Pow2(b)), handled, BITS)
  {
    var rest := AndNot(mask, Pow2(b));
    forall j: nat ensures Bit(rest, j) <==> Bit(mask, j) && j != b {
      BitOfAndNot(mask, Pow2(b), j);
      BitOfPow2(b, j);
    }
    ExpectedSkips(mask, handled, b + 1, BITS);
    ExpectedSkips(rest, handled, b, BITS);
    ExpectedSame(mask, rest, handled, b);
  }

  /** One turn of the loop on a nonzero mask. */
  lemma DispatchStep(mask: nat, handled: nat -> bool)
    requires 0 < mask < Pow2(BITS)
    ensures var b := DispatchBit(mask);
            && 0 <= b < BITS
            && AndNot(mask, Pow2(b)) < mask
            && Expected(mask, handled, BITS)
               == (if handled(b) then [Call(b, b < 16)] else []) + Expected(AndNot(mask, Pow2(b)), handled, BITS)
  {
    HighestBit(mask);
    var b := DispatchBit(mask);
    ExpectedStep(mask, handled, b);
    ClearingShrinks(mask, b);
  }

  /** The loop ends for every 32-bit mask, having called each pending bit's handler
      once, in descending order. */
  method Dispatch(pending: nat, handled: nat -> bool) returns (calls: seq<Call>)
    requires pending < Pow2(BITS)
    ensures calls == Expected(pending, handled, BITS)
  {
    var smflag: nat := pending;
    calls := [];
    while smflag != 0
      invariant smflag <= pending
      invariant calls + Expected(smflag, handled, BITS) == Expected(pending, handled, BITS)
      decreases smflag
    {
      DispatchStep(smflag, handled);
      var bit := DispatchBit(smflag);
      var left := AndNot(smflag, Pow2(bit));
      Regroup(calls, if handled(bit) then [Call(bit, bit < 16)] else [], Expected(left, handled, BITS));
      smflag := left;
      if handled(bit) {
        calls := calls + [Call(bit, bit < 16)];
      }
    }
    NothingPending(handled, BITS);
  }

  lemma Regroup(a: seq<Call>, b: seq<Call>, c: seq<Call>)
    ensures (a + b) + c == a + (b + c)
    ensures b == [] ==> a + (b + c) == a + c
  {
  }

  lemma {:induction false} NothingPending(handled: nat -> bool, n: nat)
    ensures Expected(0, handled, n) == []
  {
    if n > 0 {
      ZeroBit(n - 1);
      NothingPending(handled, n - 1);
    }
  }

  /** What the list of calls means: a call is on it exactly when its bit is pending
      and handled, and later calls are for lower bits. */
  lemma {:induction false} ExpectedMeans(mask: nat, handled: nat -> bool, n: nat)
    ensures var calls := Expected(mask, handled, n);
            && (forall c :: c in calls <==>
                 c.bit < n && Bit(mask, c.bit) && handled(c.bit) && c.acknowledged == (c.bit < 16))
            && (forall i, j | 0 <= i < j < |calls| :: calls[i].bit > calls[j].bit)
  {
    if n > 0 {
      ExpectedMeans(mask, handled, n - 1);
      var calls, rest := Expected(mask, handled, n), Expected(mask, handled, n - 1);
      assert forall i | 0 <= i < |rest| :: rest[i] in rest;
      var first := Call(n - 1, n - 1 < 16);
      forall c ensures c in calls <==> c in rest || (c == first && Bit(mask, n - 1) && handled(n - 1)) {
        if Bit(mask, n - 1) && handled(n - 1) {
          assert calls == [first] + rest;
        }
      }
    }
  }
}
