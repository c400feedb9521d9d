/** Shift registers that take one bit at a time: what follows from a shift step being invertible
    and distributing over exclusive or, whatever the register's width and polynomial. */
module BitMachine {

  /** A register of type `W`. `join(w, b)` puts bit `b` below the bits of `w`, and `fits(w, n)`
      says that `w` occupies its `n` lowest bits only. `double` moves every bit up by one, and
      `width` is the register's width. */
  datatype Machine<!W> = Machine(
    width: nat,
    zero: W,
    shift: W -> W,
    xor: (W, W) -> W,
    bit: bool -> W,
    double: W -> W,
    join: (W, bool) -> W,
    fits: (W, nat) -> bool)

  ghost predicate InvertibleShift<W(!new)>(m: Machine<W>) {
    forall a, b :: m.shift(a) == m.shift(b) ==> a == b
  }

  ghost predicate XorLaws<W(!new)>(m: Machine<W>) {
    && (forall c :: m.xor(c, m.zero) == c)
    && (forall c, x, y :: m.xor(c, x) == m.xor(c, y) ==> x == y)
    && (forall a, b, x :: m.xor(a, x) == m.xor(b, x) ==> a == b)
  }

  ghost predicate JoinFits<W>(m: Machine<W>, w: W, b: bool, n: nat) {
    n < m.width && m.fits(w, n) ==> m.fits(m.join(w, b), n + 1)
  }

  ghost predicate JoinSplits<W>(m: Machine<W>, w: W, b: bool, w': W, b': bool, n: nat) {
    n < m.width && m.fits(w, n) && m.fits(w', n) && m.join(w, b) == m.join(w', b') ==> w == w' && b == b'
  }

  /** Shifting a whole word is shifting its lowest bit and keeping the others for later. */
  ghost predicate ShiftDistributes<W>(m: Machine<W>, c: W, w: W, b: bool, n: nat) {
    n < m.width && m.fits(w, n) ==>
      m.shift(m.xor(c, m.join(w, b))) == m.xor(m.shift(m.xor(c, m.bit(b))), w)
  }

  ghost predicate JoinLaws<W(!new)>(m: Machine<W>) {
    && m.fits(m.zero, 0)
    && (forall w, b, n: nat :: JoinFits(m, w, b, n))
    && (forall w, b, w', b', n: nat :: JoinSplits(m, w, b, w', b', n))
  }

  ghost predicate ShiftOverXor<W>(m: Machine<W>, a: W, b: W, c: W) {
    c == m.xor(a, b) ==> m.shift(c) == m.xor(m.shift(a), m.shift(b))
  }

  ghost predicate JoinIsXor<W>(m: Machine<W>, c: W, w: W, b: bool) {
    m.xor(c, m.join(w, b)) == m.xor(m.xor(c, m.bit(b)), m.double(w))
  }

  ghost predicate ShiftUndoesDouble<W>(m: Machine<W>, w: W, n: nat) {
    n < m.width && m.fits(w, n) ==> m.shift(m.double(w)) == w
  }

  ghost predicate LinearShift<W(!new)>(m: Machine<W>) {
    && (forall a, b, c :: ShiftOverXor(m, a, b, c))
    && (forall c, w, b :: JoinIsXor(m, c, w, b))
    && (forall w, n: nat :: ShiftUndoesDouble(m, w, n))
  }

  lemma Distributes<W(!new)>(m: Machine<W>, c: W, w: W, b: bool, n: nat)
    requires Lawful(m)
    ensures ShiftDistributes(m, c, w, b, n)
  {
    assert JoinIsXor(m, c, w, b);
    var x := m.xor(c, m.bit(b));
    assert ShiftOverXor(m, x, m.double(w), m.xor(x, m.double(w)));
    assert ShiftUndoesDouble(m, w, n);
  }

  ghost predicate Lawful<W(!new)>(m: Machine<W>) {
    InvertibleShift(m) && XorLaws(m) && JoinLaws(m) && LinearShift(m)
  }

  function Shifts<W>(m: Machine<W>, w: W, n: nat): W
    decreases n
  {
    if n == 0 then w else Shifts(m, m.shift(w), n - 1)
  }

  function Feed<W>(m: Machine<W>, w: W, bits: seq<bool>): W
    decreases |bits|
  {
    if bits == [] then w else Feed(m, m.shift(m.xor(w, m.bit(bits[0]))), bits[1..])
  }

  /** A window of bits read as a word, first bit lowest. */
  function Word<W>(m: Machine<W>, bits: seq<bool>): W {
    if bits == [] then m.zero else m.join(Word(m, bits[1..]), bits[0])
  }

  lemma {:induction false} ShiftsInjective<W(!new)>(m: Machine<W>, a: W, b: W, n: nat)
    requires Lawful(m) && Shifts(m, a, n) == Shifts(m, b, n)
    ensures a == b
    decreases n
  {
    if n > 0 {
      ShiftsInjective(m, m.shift(a), m.shift(b), n - 1);
    }
  }

  lemma {:induction false} WordFits<W(!new)>(m: Machine<W>, bits: seq<bool>)
    requires Lawful(m) && |bits| <= m.width
    ensures m.fits(Word(m, bits), |bits|)
  {
    if bits != [] {
      WordFits(m, bits[1..]);
      var w, n := Word(m, bits[1..]), |bits[1..]|;
      assert JoinFits(m, w, bits[0], n);
    }
  }

  /** Feeding a window bit by bit is one xor of the whole window followed by that many shifts. */
  lemma {:induction false} WindowIsOneXor<W(!new)>(m: Machine<W>, c: W, bits: seq<bool>)
    requires Lawful(m) && |bits| <= m.width
    ensures Feed(m, c, bits) == Shifts(m, m.xor(c, Word(m, bits)), |bits|)
    decreases |bits|
  {
    if bits != [] {
      var w, n := Word(m, bits[1..]), |bits[1..]|;
      WordFits(m, bits[1..]);
      Distributes(m, c, w, bits[0], n);
      WindowIsOneXor(m, m.shift(m.xor(c, m.bit(bits[0]))), bits[1..]);
    }
  }

  lemma {:induction false} WordInjective<W(!new)>(m: Machine<W>, u: seq<bool>, v: seq<bool>)
    requires Lawful(m) && |u| == |v| <= m.width && Word(m, u) == Word(m, v)
    ensures u == v
  {
    if u != [] {
      WordFits(m, u[1..]);
      WordFits(m, v[1..]);
      var w, w', n := Word(m, u[1..]), Word(m, v[1..]), |u[1..]|;
      assert JoinSplits(m, w, u[0], w', v[0], n);
      WordInjective(m, u[1..], v[1..]);
      assert u == [u[0]] + u[1..] && v == [v[0]] + v[1..];
    }
  }

  lemma WindowInjective<W(!new)>(m: Machine<W>, c: W, u: seq<bool>, v: seq<bool>)
    requires Lawful(m) && |u| == |v| <= m.width && Feed(m, c, u) == Feed(m, c, v)
    ensures u == v
  {
    WindowIsOneXor(m, c, u);
    WindowIsOneXor(m, c, v);
    ShiftsInjective(m, m.xor(c, Word(m, u)), m.xor(c, Word(m, v)), |u|);
    WordInjective(m, u, v);
  }

  lemma {:induction false} FeedAppend<W>(m: Machine<W>, c: W, u: seq<bool>, v: seq<bool>)
    ensures Feed(m, c, u + v) == Feed(m, Feed(m, c, u), v)
    decreases |u|
  {
    if u == [] {
      assert u + v == v;
    } else {
      FeedAppend(m, m.shift(m.xor(c, m.bit(u[0]))), u[1..], v);
      assert (u + v)[1..] == u[1..] + v;
    }
  }

  lemma {:induction false} FeedInjective<W(!new)>(m: Machine<W>, a: W, b: W, bits: seq<bool>)
    requires Lawful(m) && Feed(m, a, bits) == Feed(m, b, bits)
    ensures a == b
    decreases |bits|
  {
    if bits != [] {
      var x := m.bit(bits[0]);
      FeedInjective(m, m.shift(m.xor(a, x)), m.shift(m.xor(b, x)), bits[1..]);
    }
  }

  lemma FeedThree<W>(m: Machine<W>, c: W, pre: seq<bool>, u: seq<bool>, post: seq<bool>)
    ensures Feed(m, c, pre + u + post) == Feed(m, Feed(m, Feed(m, c, pre), u), post)
  {
    FeedAppend(m, c, pre + u, post);
    FeedAppend(m, c, pre, u);
  }

  /** Two bit strings that differ only inside one window no wider than the register never leave
      the same register behind. */
  lemma BurstChangesRegister<W(!new)>(m: Machine<W>, c: W, x: seq<bool>, y: seq<bool>,
                                      start: nat, width: nat)
    requires Lawful(m) && |x| == |y| && width <= m.width && start + width <= |x|
    requires x[..start] == y[..start] && x[start + width..] == y[start + width..]
    requires Feed(m, c, x) == Feed(m, c, y)
    ensures x == y
  {
    var pre, post := x[..start], x[start + width..];
    var u, v := x[start..start + width], y[start..start + width];
    assert x == pre + u + post && y == pre + v + post;
    FeedThree(m, c, pre, u, post);
    FeedThree(m, c, pre, v, post);
    var d := Feed(m, c, pre);
    FeedInjective(m, Feed(m, d, u), Feed(m, d, v), post);
    WindowInjective(m, d, u, v);
  }

  /** Eight bits put in front of a window, joined one at a time. */
  function JoinEight<W>(m: Machine<W>, w: W, b: seq<bool>): W
    requires |b| == 8
  {
    var w4 := m.join(m.join(m.join(m.join(w, b[7]), b[6]), b[5]), b[4]);
    m.join(m.join(m.join(m.join(w4, b[3]), b[2]), b[1]), b[0])
  }

  lemma WordOfEight<W>(m: Machine<W>, b: seq<bool>, rest: seq<bool>)
    requires |b| == 8
    ensures Word(m, b + rest) == JoinEight(m, Word(m, rest), b)
  {
    var hi := b[4..];
    WordOfFour(m, hi, rest);
    WordOfFour(m, b[..4], hi + rest);
    assert b + rest == b[..4] + (hi + rest);
  }

  lemma WordOfFour<W>(m: Machine<W>, b: seq<bool>, rest: seq<bool>)
    requires |b| == 4
    ensures Word(m, b + rest) == m.join(m.join(m.join(m.join(Word(m, rest), b[3]), b[2]), b[1]), b[0])
  {
    var s := b + rest;
    var s1, s2, s3 := s[1..], s[2..], s[3..];
    assert s1[1..] == s2 && s2[1..] == s3 && s3[1..] == rest;
    assert Word(m, s3) == m.join(Word(m, rest), b[3]);
    assert Word(m, s2) == m.join(Word(m, s3), b[2]);
    assert Word(m, s1) == m.join(Word(m, s2), b[1]);
  }

  // ---------------------------------------------------------------------------
  // Symbols of eight bits each, in order.

  function Unpack<B>(f: B -> seq<bool>, data: seq<B>): seq<bool> {
    if data == [] then [] else f(data[0]) + Unpack(f, data[1..])
  }

  ghost predicate EightBits<B(!new)>(f: B -> seq<bool>) {
    forall b :: |f(b)| == 8
  }

  lemma {:induction false} UnpackLength<B(!new)>(f: B -> seq<bool>, data: seq<B>)
    requires EightBits(f)
    ensures |Unpack(f, data)| == 8 * |data|
  {
    if data != [] {
      UnpackLength(f, data[1..]);
    }
  }

  lemma {:induction false} UnpackAppend<B>(f: B -> seq<bool>, a: seq<B>, b: seq<B>)
    ensures Unpack(f, a + b) == Unpack(f, a) + Unpack(f, b)
  {
    if a == [] {
      assert a + b == b;
    } else {
      var t := a[1..];
      UnpackAppend(f, t, b);
      assert (a + b)[1..] == t + b && (a + b)[0] == a[0];
      Associative(f(a[0]), Unpack(f, t), Unpack(f, b));
    }
  }

  lemma Associative(a: seq<bool>, b: seq<bool>, c: seq<bool>)
    ensures a + (b + c) == (a + b) + c
  {
  }

  /** Symbol strings that agree outside a window unpack to bits that agree outside its bits. */
  lemma UnpackWindow<B(!new)>(f: B -> seq<bool>, pre: seq<B>, u: seq<B>, v: seq<B>, post: seq<B>)
    requires EightBits(f) && |u| == |v|
    ensures var x, y := Unpack(f, pre + u + post), Unpack(f, pre + v + post);
            var start, end := 8 * |pre|, 8 * |pre| + 8 * |u|;
            && |x| == |y| && end <= |x|
            && x[..start] == y[..start] && x[end..] == y[end..]
  {
    UnpackAppend(f, pre + u, post);
    UnpackAppend(f, pre + v, post);
    UnpackAppend(f, pre, u);
    UnpackAppend(f, pre, v);
    UnpackLength(f, pre);
    UnpackLength(f, u);
    UnpackLength(f, v);
  }

  lemma {:induction false} UnpackInjective<B(!new)>(f: B -> seq<bool>, a: seq<B>, b: seq<B>)
    requires EightBits(f) && (forall x, y :: f(x) == f(y) ==> x == y)
    requires |a| == |b| && Unpack(f, a) == Unpack(f, b)
    ensures a == b
  {
    if a != [] {
      assert Unpack(f, a)[..8] == f(a[0]) && Unpack(f, b)[..8] == f(b[0]);
      assert Unpack(f, a)[8..] == Unpack(f, a[1..]) && Unpack(f, b)[8..] == Unpack(f, b[1..]);
      UnpackInjective(f, a[1..], b[1..]);
      assert a == [a[0]] + a[1..] && b == [b[0]] + b[1..];
    }
  }
}
