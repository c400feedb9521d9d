/** Polynomials over the field of two elements, as sequences of coefficients from the highest power
    down, and long division of one by another. */
module Polynomials {
  import opened BitMachine

  function Zeros(n: nat): seq<bool> {
    seq(n, _ => false)
  }

  function Ones(n: nat): seq<bool> {
    seq(n, _ => true)
  }

  function Plus(a: seq<bool>, b: seq<bool>): seq<bool>
    requires |a| == |b|
  {
    seq(|a|, i requires 0 <= i < |a| => a[i] != b[i])
  }

  /** Addition to the highest coefficients. */
  function PlusFront(p: seq<bool>, g: seq<bool>): seq<bool>
    requires |g| <= |p|
  {
    Plus(p[..|g|], g) + p[|g|..]
  }

  /** One step of long division: the highest coefficient is cancelled and dropped. */
  function Cancel(p: seq<bool>, g: seq<bool>): seq<bool>
    requires 0 < |g| <= |p|
  {
    (if p[0] then PlusFront(p, g) else p)[1..]
  }

  function Remainder(p: seq<bool>, g: seq<bool>): (r: seq<bool>)
    requires |g| > 0
    ensures |p| >= |g| - 1 ==> |r| == |g| - 1
    decreases |p|
  {
    if |p| < |g| then p else Remainder(Cancel(p, g), g)
  }

  function Quotient(p: seq<bool>, g: seq<bool>): (q: seq<bool>)
    requires |g| > 0
    ensures |q| == if |p| < |g| then 0 else |p| - |g| + 1
    decreases |p|
  {
    if |p| < |g| then [] else [p[0]] + Quotient(Cancel(p, g), g)
  }

  /** The product, with room for the highest power that can occur. */
  function Times(q: seq<bool>, g: seq<bool>): (r: seq<bool>)
    requires |g| > 0
    ensures |r| == |q| + |g| - 1
  {
    if q == [] then Zeros(|g| - 1)
    else Plus((if q[0] then g else Zeros(|g|)) + Zeros(|q| - 1), [false] + Times(q[1..], g))
  }

  /** Dividend is quotient times divisor plus remainder, and the remainder is of lower degree. */
  lemma {:induction false} DivisionIsExact(p: seq<bool>, g: seq<bool>)
    requires 0 < |g| <= |p| + 1 && g[0]
    ensures |Remainder(p, g)| == |g| - 1
    ensures p == Plus(Times(Quotient(p, g), g), Zeros(|p| - (|g| - 1)) + Remainder(p, g))
    decreases |p|
  {
    var r := Remainder(p, g);
    if |p| < |g| {
      assert Plus(Zeros(|g| - 1), Zeros(0) + r) == r;
    } else {
      var next := Cancel(p, g);
      DivisionIsExact(next, g);
      DivisionStep(p, g, Times(Quotient(next, g), g), r);
      assert Quotient(p, g)[1..] == Quotient(next, g);
    }
  }

  lemma DivisionStep(p: seq<bool>, g: seq<bool>, t: seq<bool>, r: seq<bool>)
    requires 0 < |g| <= |p| && g[0] && |r| == |g| - 1 && |t| == |p| - 1
    requires Cancel(p, g) == Plus(t, Zeros(|p| - |g|) + r)
    ensures p == Plus(Plus((if p[0] then g else Zeros(|g|)) + Zeros(|p| - |g|), [false] + t), Zeros(|p| - (|g| - 1)) + r)
  {
    var next := Cancel(p, g);
    forall i | 0 < i < |p|
      ensures next[i - 1] == (if p[0] && i < |g| then p[i] != g[i] else p[i])
    {
    }
  }

  lemma PlusFrontAt(p: seq<bool>, g: seq<bool>, i: nat)
    requires |g| <= |p| && i < |p|
    ensures PlusFront(p, g)[i] == if i < |g| then p[i] != g[i] else p[i]
  {
  }

  /** Cancelling while a sequence is still to be added in front. */
  lemma CancelFront(b: bool, rest: seq<bool>, r: seq<bool>, g: seq<bool>)
    requires 0 < |r| == |g| - 1 && |rest| >= |r| && g[0]
    ensures Cancel(PlusFront([b] + rest, r), g)
            == PlusFront(rest, Plus(r[1..] + [false], if b != r[0] then g[1..] else Zeros(|r|)))
  {
    var p := PlusFront([b] + rest, r);
    var next := Plus(r[1..] + [false], if b != r[0] then g[1..] else Zeros(|r|));
    PlusFrontAt([b] + rest, r, 0);
    forall i | 0 <= i < |rest| ensures Cancel(p, g)[i] == PlusFront(rest, next)[i] {
      PlusFrontAt([b] + rest, r, i + 1);
      PlusFrontAt(rest, next, i);
      if p[0] {
        PlusFrontAt(p, g, i + 1);
      }
    }
  }

  // ---------------------------------------------------------------------------
  // Shift registers that divide.

  /** Feeding a bit is one step of the division by `g`, on the register read as coefficients. */
  ghost predicate Divides<W>(m: Machine<W>, read: W -> seq<bool>, g: seq<bool>, w: W, b: bool) {
    && |read(w)| == |read(m.shift(m.xor(w, m.bit(b))))| == |g| - 1 > 0 && g[0]
    && read(m.shift(m.xor(w, m.bit(b))))
         == Plus(read(w)[1..] + [false], if b != read(w)[0] then g[1..] else Zeros(|g| - 1))
  }

  /** What such a register holds after some bits is the remainder of the bits, moved up by the width,
      with the first contents added in front. */
  lemma {:induction false} FeedIsRemainder<W(!new)>(m: Machine<W>, read: W -> seq<bool>, g: seq<bool>, w: W, bits: seq<bool>)
    requires forall w', b {:trigger Divides(m, read, g, w', b)} :: Divides(m, read, g, w', b)
    ensures |g| > 1 && |read(w)| == |g| - 1
    ensures read(Feed(m, w, bits)) == Remainder(PlusFront(bits + Zeros(|g| - 1), read(w)), g)
    decreases |bits|
  {
    var r := read(w);
    assert Divides(m, read, g, w, bits != [] && bits[0]);
    if bits == [] {
      assert PlusFront(bits + Zeros(|g| - 1), r) == r;
    } else {
      var rest := bits[1..] + Zeros(|g| - 1);
      assert bits + Zeros(|g| - 1) == [bits[0]] + rest;
      CancelFront(bits[0], rest, r, g);
      FeedIsRemainder(m, read, g, m.shift(m.xor(w, m.bit(bits[0]))), bits[1..]);
    }
  }

  // ---------------------------------------------------------------------------
  // Words read as bits.

  /** How a word is taken apart: `low` is its lowest bit and `half` the others, moved down. */
  datatype Reader<!W> = Reader(half: W -> W, low: W -> bool, xor: (W, W) -> W, fits: (W, nat) -> bool)

  ghost predicate XorReads<W>(m: Reader<W>, a: W, b: W) {
    m.half(m.xor(a, b)) == m.xor(m.half(a), m.half(b)) && m.low(m.xor(a, b)) == (m.low(a) != m.low(b))
  }

  ghost predicate FitReads<W>(m: Reader<W>, w: W, n: nat) {
    m.fits(w, n) ==> if n == 0 then !m.low(w) else m.fits(m.half(w), n - 1)
  }

  ghost predicate Readable<W(!new)>(m: Reader<W>) {
    && (forall a, b {:trigger XorReads(m, a, b)} :: XorReads(m, a, b))
    && (forall w, n: nat {:trigger FitReads(m, w, n)} :: FitReads(m, w, n))
  }

  /** The `n` lowest bits, lowest first. */
  function LowFirst<W>(m: Reader<W>, w: W, n: nat): (bits: seq<bool>)
    ensures |bits| == n
  {
    if n == 0 then [] else [m.low(w)] + LowFirst(m, m.half(w), n - 1)
  }

  lemma {:induction false} LowFirstXor<W(!new)>(m: Reader<W>, a: W, b: W, n: nat)
    requires Readable(m)
    ensures LowFirst(m, m.xor(a, b), n) == Plus(LowFirst(m, a, n), LowFirst(m, b, n))
  {
    if n > 0 {
      assert XorReads(m, a, b);
      LowFirstXor(m, m.half(a), m.half(b), n - 1);
    }
  }

  lemma {:induction false} NothingAbove<W(!new)>(m: Reader<W>, w: W, n: nat)
    requires Readable(m) && m.fits(w, n)
    ensures LowFirst(m, w, n + 1) == LowFirst(m, w, n) + [false]
  {
    assert FitReads(m, w, n);
    if n > 0 {
      NothingAbove(m, m.half(w), n - 1);
    } else {
      assert LowFirst(m, m.half(w), 0) == [];
    }
  }

  lemma HalfLowFirst<W(!new)>(m: Reader<W>, w: W, n: nat)
    requires Readable(m) && m.fits(w, n) && n > 0
    ensures LowFirst(m, m.half(w), n) == LowFirst(m, w, n)[1..] + [false]
  {
    NothingAbove(m, w, n);
    assert LowFirst(m, w, n + 1)[1..] == LowFirst(m, m.half(w), n);
    assert (LowFirst(m, w, n) + [false])[1..] == LowFirst(m, w, n)[1..] + [false];
  }

  function Halves<W>(m: Reader<W>, w: W, k: nat): W
    decreases k
  {
    if k == 0 then w else Halves(m, m.half(w), k - 1)
  }

  lemma {:induction false} LowFirstSplits<W>(m: Reader<W>, w: W, k: nat, n: nat)
    ensures LowFirst(m, w, k + n) == LowFirst(m, w, k) + LowFirst(m, Halves(m, w, k), n)
    decreases k
  {
    if k > 0 {
      LowFirstSplits(m, m.half(w), k - 1, n);
    } else {
      assert LowFirst(m, w, 0) == [];
    }
  }

  lemma ReadTwo<W>(m: Reader<W>, w: W, n: nat)
    requires n >= 2
    ensures LowFirst(m, w, n) == [m.low(w), m.low(m.half(w))] + LowFirst(m, m.half(m.half(w)), n - 2)
    ensures Halves(m, w, n) == Halves(m, m.half(m.half(w)), n - 2)
  {
  }

  lemma ReadFour<W>(m: Reader<W>, w: W, w1: W, w2: W, w3: W, w4: W, n: nat)
    requires w1 == m.half(w) && w2 == m.half(w1) && w3 == m.half(w2) && w4 == m.half(w3) && n >= 4
    ensures LowFirst(m, w, n) == [m.low(w), m.low(w1), m.low(w2), m.low(w3)] + LowFirst(m, w4, n - 4)
    ensures Halves(m, w, n) == Halves(m, w4, n - 4)
  {
    ReadTwo(m, w, n);
    ReadTwo(m, w2, n - 2);
  }

  lemma ReadEight<W>(m: Reader<W>, w: W, w1: W, w2: W, w3: W, w4: W, w5: W, w6: W, w7: W, w8: W)
    requires w1 == m.half(w) && w2 == m.half(w1) && w3 == m.half(w2) && w4 == m.half(w3)
    requires w5 == m.half(w4) && w6 == m.half(w5) && w7 == m.half(w6) && w8 == m.half(w7)
    ensures LowFirst(m, w, 8)
            == [m.low(w), m.low(w1), m.low(w2), m.low(w3), m.low(w4), m.low(w5), m.low(w6), m.low(w7)]
    ensures Halves(m, w, 8) == w8
  {
    ReadFour(m, w, w1, w2, w3, w4, 8);
    ReadFour(m, w4, w5, w6, w7, w8, 4);
    assert |LowFirst(m, w8, 0)| == 0 && Halves(m, w8, 0) == w8;
  }

  lemma ReadQuarters<W>(m: Reader<W>, w: W, a: W, b: W, c: W)
    requires a == Halves(m, w, 8) && b == Halves(m, a, 8) && c == Halves(m, b, 8)
    ensures LowFirst(m, w, 32)
            == LowFirst(m, w, 8) + (LowFirst(m, a, 8) + (LowFirst(m, b, 8) + LowFirst(m, c, 8)))
  {
    LowFirstSplits(m, w, 8, 24);
    LowFirstSplits(m, a, 8, 16);
    LowFirstSplits(m, b, 8, 8);
  }
}
