/** Error detection: the checksum tells apart any two messages whose difference fits into sixteen
    consecutive bits. */
module Crc16Bursts {
  import opened Bytes
  import opened Crc16

  // ---------------------------------------------------------------- shift registers in the abstract

  /** A register that takes in one bit per shift. `near(x, y, m)` stands for: `x` and `y` agree outside the
      places of the mask `m`; `open(m)`: `m` leaves out the highest place; `wider(m, w)`: `w` has one low
      place more than the open mask `m`. */
  datatype Register<!V> = Register(shift: V -> V, xor: (V, V) -> V, low: V -> V, down: V -> V,
                                   bit: V -> bool, near: (V, V, V) -> bool,
                                   open: V -> bool, wider: (V, V) -> bool)

  function Run<V>(g: Register<V>, c: V, u: seq<V>): V {
    if u == [] then c else g.shift(g.xor(Run(g, c, u[..|u| - 1]), u[|u| - 1]))
  }

  function Iterate<V>(f: V -> V, c: V, n: nat): V {
    if n == 0 then c else f(Iterate(f, c, n - 1))
  }

  lemma {:induction false} RunConcat<V>(g: Register<V>, c: V, u: seq<V>, v: seq<V>)
    ensures Run(g, c, u + v) == Run(g, Run(g, c, u), v)
  {
    if v == [] {
      assert u + v == u;
    } else {
      var rest := v[..|v| - 1];
      assert (u + v)[..|u + v| - 1] == u + rest;
      RunConcat(g, c, u, rest);
    }
  }

  // Taking in a whole word at once, and shifting it through, is taking in its bits one by one.

  ghost predicate AbsorbsAt<V>(g: Register<V>, s: V, q: V) {
    g.shift(g.xor(s, q)) == g.xor(g.shift(g.xor(s, g.low(q))), g.down(q))
  }

  ghost predicate Absorbs<V(!new)>(g: Register<V>) {
    forall s: V, q: V :: AbsorbsAt(g, s, q)
  }

  lemma {:induction false} RunBesideRest<V(!new)>(g: Register<V>, c: V, r: V, u: seq<V>)
    requires Absorbs(g)
    requires forall k :: 0 <= k < |u| ==> u[k] == g.low(Iterate(g.down, r, k))
    ensures Iterate(g.shift, g.xor(c, r), |u|) == g.xor(Run(g, c, u), Iterate(g.down, r, |u|))
  {
    if u != [] {
      var n := |u| - 1;
      RunBesideRest(g, c, r, u[..n]);
      assert AbsorbsAt(g, Run(g, c, u[..n]), Iterate(g.down, r, n));
    }
  }

  lemma RunOfWord<V(!new)>(g: Register<V>, c: V, r: V, u: seq<V>, zero: V)
    requires Absorbs(g)
    requires forall k :: 0 <= k < |u| ==> u[k] == g.low(Iterate(g.down, r, k))
    requires Iterate(g.down, r, |u|) == zero && forall x :: g.xor(x, zero) == x
    ensures Iterate(g.shift, g.xor(c, r), |u|) == Run(g, c, u)
  {
    RunBesideRest(g, c, r, u);
  }

  lemma Unroll<V>(f: V -> V, c: V)
    ensures Iterate(f, c, 0) == c
    ensures Iterate(f, c, 1) == f(c)
    ensures Iterate(f, c, 2) == f(f(c))
    ensures Iterate(f, c, 3) == f(f(f(c)))
    ensures Iterate(f, c, 4) == f(f(f(f(c))))
    ensures Iterate(f, c, 5) == f(f(f(f(f(c)))))
    ensures Iterate(f, c, 6) == f(f(f(f(f(f(c))))))
    ensures Iterate(f, c, 7) == f(f(f(f(f(f(f(c)))))))
    ensures Iterate(f, c, 8) == f(f(f(f(f(f(f(f(c))))))))
  {
    assert Iterate(f, c, 1) == f(Iterate(f, c, 0));
    assert Iterate(f, c, 2) == f(Iterate(f, c, 1));
    assert Iterate(f, c, 3) == f(Iterate(f, c, 2));
    assert Iterate(f, c, 4) == f(Iterate(f, c, 3));
    assert Iterate(f, c, 5) == f(Iterate(f, c, 4));
    assert Iterate(f, c, 6) == f(Iterate(f, c, 5));
    assert Iterate(f, c, 7) == f(Iterate(f, c, 6));
    assert Iterate(f, c, 8) == f(Iterate(f, c, 7));
  }

  // Going back one shift widens a difference by one place, and by none if the same bit came in.

  ghost predicate WidensByOneAt<V>(g: Register<V>, x: V, y: V, a: V, b: V, m: V, w: V) {
    g.bit(a) && g.bit(b) && g.wider(m, w) && g.near(g.shift(g.xor(x, a)), g.shift(g.xor(y, b)), m) ==>
      g.near(x, y, w)
  }

  ghost predicate WidensByNoneAt<V>(g: Register<V>, x: V, y: V, a: V) {
    g.shift(g.xor(x, a)) == g.shift(g.xor(y, a)) ==> x == y
  }

  /** Different bits into equal registers differ in the highest place at once. */
  ghost predicate PartsAt<V>(g: Register<V>, x: V, a: V, b: V, m: V) {
    g.bit(a) && g.bit(b) && a != b && g.open(m) ==> !g.near(g.shift(g.xor(x, a)), g.shift(g.xor(x, b)), m)
  }

  ghost predicate Detects<V(!new)>(g: Register<V>) {
    && (forall x: V, y: V, a: V, b: V, m: V, w: V :: WidensByOneAt(g, x, y, a, b, m, w))
    && (forall x: V, y: V, a: V :: WidensByNoneAt(g, x, y, a))
    && (forall x: V, a: V, b: V, m: V :: PartsAt(g, x, a, b, m))
  }

  /** Sixteen masks, from the empty one up, each one place wider, the last still open. */
  ghost predicate Masks<V(!new)>(g: Register<V>, ms: seq<V>) {
    && |ms| == 16
    && (forall k :: 0 <= k < 16 ==> g.open(ms[k]))
    && (forall k {:trigger ms[k]} :: 0 <= k < 15 ==> g.wider(ms[k], ms[k + 1]))
    && (forall x: V :: g.near(x, x, ms[0]))
  }

  ghost predicate Bits<V>(g: Register<V>, u: seq<V>) {
    forall i :: 0 <= i < |u| ==> g.bit(u[i])
  }

  lemma RunStep<V>(g: Register<V>, c: V, u: seq<V>, n: nat)
    requires n < |u|
    ensures Run(g, c, u[..n + 1]) == g.shift(g.xor(Run(g, c, u[..n]), u[n]))
  {
    assert u[..n + 1][..n] == u[..n];
  }

  /** Equal after `m` bits, and fed the same between `n` and `m`: equal after `n` bits. */
  lemma {:induction false} SameTail<V(!new)>(g: Register<V>, c: V, u: seq<V>, v: seq<V>, n: nat, m: nat)
    requires Detects(g) && n <= m <= |u| == |v|
    requires forall i :: n <= i < m ==> u[i] == v[i]
    requires Run(g, c, u[..m]) == Run(g, c, v[..m])
    ensures Run(g, c, u[..n]) == Run(g, c, v[..n])
    decreases m
  {
    if n < m {
      RunStep(g, c, u, m - 1);
      RunStep(g, c, v, m - 1);
      assert WidensByNoneAt(g, Run(g, c, u[..m - 1]), Run(g, c, v[..m - 1]), u[m - 1]);
      SameTail(g, c, u, v, n, m - 1);
    }
  }

  /** Equal after `m` bits: `n` bits before that, at most `n` places differ. */
  lemma {:induction false} WidensBack<V(!new)>(g: Register<V>, ms: seq<V>, c: V, u: seq<V>, v: seq<V>, m: nat, n: nat)
    requires Detects(g) && Masks(g, ms) && Bits(g, u) && Bits(g, v)
    requires m <= |u| == |v| && n <= m && n <= 15
    requires Run(g, c, u[..m]) == Run(g, c, v[..m])
    ensures g.near(Run(g, c, u[..m - n]), Run(g, c, v[..m - n]), ms[n])
  {
    if n > 0 {
      WidensBack(g, ms, c, u, v, m, n - 1);
      var l := m - n;
      RunStep(g, c, u, l);
      RunStep(g, c, v, l);
      assert g.wider(ms[n - 1], ms[n - 1 + 1]);
      assert WidensByOneAt(g, Run(g, c, u[..l]), Run(g, c, v[..l]), u[l], v[l], ms[n - 1], ms[n]);
    }
  }

  lemma FirstDifference<V>(u: seq<V>, v: seq<V>) returns (j: nat)
    requires |u| == |v| && u != v
    ensures j < |u| && u[j] != v[j] && u[..j] == v[..j]
  {
    var n := |u| - 1;
    assert u == u[..n] + [u[n]] && v == v[..n] + [v[n]];
    if u[..n] == v[..n] {
      j := n;
    } else {
      j := FirstDifference(u[..n], v[..n]);
      assert u[..n][..j] == u[..j] && v[..n][..j] == v[..j];
    }
  }

  lemma PartAtDifference<V(!new)>(g: Register<V>, c: V, u: seq<V>, v: seq<V>, j: nat, m: V)
    requires Detects(g) && Bits(g, u) && Bits(g, v) && g.open(m)
    requires j < |u| == |v| && u[j] != v[j] && u[..j] == v[..j]
    ensures !g.near(Run(g, c, u[..j + 1]), Run(g, c, v[..j + 1]), m)
  {
    RunStep(g, c, u, j);
    RunStep(g, c, v, j);
    assert PartsAt(g, Run(g, c, u[..j]), u[j], v[j], m);
  }

  /** Bit strings that differ, but only inside sixteen places, leave different registers. */
  lemma BurstChangesRegister<V(!new)>(g: Register<V>, ms: seq<V>, c: V, u: seq<V>, v: seq<V>, p: nat)
    requires Detects(g) && Masks(g, ms) && Bits(g, u) && Bits(g, v) && |u| == |v| && u != v
    requires forall i :: 0 <= i < |u| && !(p <= i < p + 16) ==> u[i] == v[i]
    ensures Run(g, c, u) != Run(g, c, v)
  {
    var j := FirstDifference(u, v);
    var m := if j + 16 <= |u| then j + 16 else |u|;
    PartAtDifference(g, c, u, v, j, ms[m - (j + 1)]);
    assert u[..|u|] == u && v[..|v|] == v;
    if Run(g, c, u) == Run(g, c, v) {
      SameTail(g, c, u, v, m, |u|);
      WidensBack(g, ms, c, u, v, m, m - (j + 1));
    }
  }

  // ---------------------------------------------------------------- the CRC register

  function Half(c: bv16): bv16 { c >> 1 }
  function Odd(c: bv16): bv16 { c & 1 }
  function Xor(x: bv16, y: bv16): bv16 { x ^ y }
  predicate IsBit(c: bv16) { c <= 1 }
  predicate Near(x: bv16, y: bv16, m: bv16) { (x ^ y) & !m == 0 }
  predicate Open(m: bv16) { m & 0x8000 == 0 }
  predicate Wider(m: bv16, w: bv16) { m & 0x8000 == 0 && w == (m << 1) | 1 }

  const REGISTER: Register<bv16> := Register(Shift, Xor, Odd, Half, IsBit, Near, Open, Wider)

  const MASKS: seq<bv16> := [
    0x0000, 0x0001, 0x0003, 0x0007, 0x000F, 0x001F, 0x003F, 0x007F,
    0x00FF, 0x01FF, 0x03FF, 0x07FF, 0x0FFF, 0x1FFF, 0x3FFF, 0x7FFF
  ]

  lemma ShiftAbsorbs(s: bv16, q: bv16)
    ensures Shift(s ^ q) == Shift(s ^ (q & 1)) ^ (q >> 1)
  {
  }

  lemma RegisterAbsorbs()
    ensures Absorbs(REGISTER)
  {
    forall s: bv16, q: bv16 ensures AbsorbsAt(REGISTER, s, q) {
      ShiftAbsorbs(s, q);
    }
  }

  lemma MasksAreMasks()
    ensures Masks(REGISTER, MASKS)
  {
    forall k {:trigger MASKS[k]} | 0 <= k < 15 ensures Wider(MASKS[k], MASKS[k + 1]) {
      if k == 0 {} else if k == 1 {} else if k == 2 {} else if k == 3 {} else if k == 4 {} else if k == 5 {}
      else if k == 6 {} else if k == 7 {} else if k == 8 {} else if k == 9 {} else if k == 10 {}
      else if k == 11 {} else if k == 12 {} else if k == 13 {} else {}
    }
    assert Open(MASKS[15]);
  }

  lemma WidensByOne(x: bv16, y: bv16, a: bv16, b: bv16, m: bv16, w: bv16)
    ensures IsBit(a) && IsBit(b) && Wider(m, w) && Near(Shift(x ^ a), Shift(y ^ b), m) ==> Near(x, y, w)
  {
  }

  lemma WidensByNone(x: bv16, y: bv16, a: bv16)
    ensures Shift(x ^ a) == Shift(y ^ a) ==> x == y
  {
  }

  lemma Parts(x: bv16, a: bv16, b: bv16, m: bv16)
    ensures IsBit(a) && IsBit(b) && a != b && Open(m) ==> !Near(Shift(x ^ a), Shift(x ^ b), m)
  {
  }

  lemma RegisterDetects()
    ensures Detects(REGISTER)
  {
    forall x: bv16, y: bv16, a: bv16, b: bv16, m: bv16, w: bv16 ensures WidensByOneAt(REGISTER, x, y, a, b, m, w) {
      WidensByOne(x, y, a, b, m, w);
    }
    forall x: bv16, y: bv16, a: bv16 ensures WidensByNoneAt(REGISTER, x, y, a) {
      WidensByNone(x, y, a);
    }
    forall x: bv16, a: bv16, b: bv16, m: bv16 ensures PartsAt(REGISTER, x, a, b, m) {
      Parts(x, a, b, m);
    }
  }

  // ---------------------------------------------------------------- messages as bit strings

  /** Bit `k` of a byte, in the order in which the register takes them in. */
  function BitOf(b: byte, k: nat): bv16
    requires k < 8
  {
    ((b >> k) & 1) as bv16
  }

  function ByteBits(b: byte): seq<bv16> {
    [BitOf(b, 0), BitOf(b, 1), BitOf(b, 2), BitOf(b, 3), BitOf(b, 4), BitOf(b, 5), BitOf(b, 6), BitOf(b, 7)]
  }

  function MessageBits(s: seq<byte>): (u: seq<bv16>)
    ensures |u| == 8 * |s|
  {
    if s == [] then [] else MessageBits(s[..|s| - 1]) + ByteBits(s[|s| - 1])
  }

  lemma Halves(r: bv16)
    ensures Half(r) == r >> 1
    ensures Half(Half(r)) == r >> 2
    ensures Half(Half(Half(r))) == r >> 3
    ensures Half(Half(Half(Half(r)))) == r >> 4
    ensures Half(Half(Half(Half(Half(r))))) == r >> 5
    ensures Half(Half(Half(Half(Half(Half(r)))))) == r >> 6
    ensures Half(Half(Half(Half(Half(Half(Half(r))))))) == r >> 7
    ensures Half(Half(Half(Half(Half(Half(Half(Half(r)))))))) == r >> 8
  {
  }

  lemma BitsOfWord(b: byte, r: bv16)
    requires r == b as bv16
    ensures BitOf(b, 0) == r & 1 && BitOf(b, 1) == (r >> 1) & 1 && BitOf(b, 2) == (r >> 2) & 1
    ensures BitOf(b, 3) == (r >> 3) & 1 && BitOf(b, 4) == (r >> 4) & 1 && BitOf(b, 5) == (r >> 5) & 1
    ensures BitOf(b, 6) == (r >> 6) & 1 && BitOf(b, 7) == (r >> 7) & 1 && r >> 8 == 0
  {
  }

  lemma RestsOfByte(b: byte, r: bv16)
    requires r == b as bv16
    ensures Iterate(Half, r, 8) == 0
    ensures forall k :: 0 <= k < 8 ==> ByteBits(b)[k] == Iterate(Half, r, k) & 1
  {
    Unroll(Half, r);
    Halves(r);
    BitsOfWord(b, r);
  }

  lemma IterateIsRun(c: bv16, b: byte, u: seq<bv16>, n: nat)
    requires u == ByteBits(b) && n == 8
    ensures Iterate(REGISTER.shift, REGISTER.xor(c, b as bv16), n) == Run(REGISTER, c, u)
  {
    RegisterAbsorbs();
    RestsOfByte(b, b as bv16);
    RunOfWord(REGISTER, c, b as bv16, u, 0);
  }

  lemma IterateIsShift8(c: bv16)
    ensures Iterate(Shift, c, 8) == Shift8(c)
  {
    Unroll(Shift, c);
  }

  lemma FeedIsRun(c: bv16, b: byte, u: seq<bv16>)
    requires u == ByteBits(b)
    ensures Feed(c, b) == Run(REGISTER, c, u)
  {
    IterateIsRun(c, b, u, 8);
    IterateIsShift8(c ^ (b as bv16));
  }

  /** The checksum is the register after taking in the message bit by bit. */
  lemma {:induction false} CrcIsRun(c: bv16, s: seq<byte>)
    ensures CrcFrom(c, s) == Run(REGISTER, c, MessageBits(s))
  {
    if s != [] {
      var rest, last := s[..|s| - 1], s[|s| - 1];
      CrcIsRun(c, rest);
      FeedIsRun(CrcFrom(c, rest), last, ByteBits(last));
      RunConcat(REGISTER, c, MessageBits(rest), ByteBits(last));
    }
  }

  lemma BitOfIsBit(b: byte, k: nat)
    requires k < 8
    ensures IsBit(BitOf(b, k))
  {
  }

  lemma BitsAreBits(b: byte)
    ensures Bits(REGISTER, ByteBits(b))
  {
    BitOfIsBit(b, 0); BitOfIsBit(b, 1); BitOfIsBit(b, 2); BitOfIsBit(b, 3);
    BitOfIsBit(b, 4); BitOfIsBit(b, 5); BitOfIsBit(b, 6); BitOfIsBit(b, 7);
  }

  lemma {:induction false} MessageBitsAreBits(s: seq<byte>)
    ensures Bits(REGISTER, MessageBits(s))
  {
    if s != [] {
      MessageBitsAreBits(s[..|s| - 1]);
      BitsAreBits(s[|s| - 1]);
    }
  }

  lemma BitsDetermineByte(a: byte, b: byte)
    requires ByteBits(a) == ByteBits(b)
    ensures a == b
  {
    assert forall k: nat :: k < 8 ==> ByteBits(a)[k] == ByteBits(b)[k];
    assert BitOf(a, 0) == ByteBits(a)[0] && BitOf(a, 1) == ByteBits(a)[1] && BitOf(a, 2) == ByteBits(a)[2];
    assert BitOf(a, 3) == ByteBits(a)[3] && BitOf(a, 4) == ByteBits(a)[4] && BitOf(a, 5) == ByteBits(a)[5];
    assert BitOf(a, 6) == ByteBits(a)[6] && BitOf(a, 7) == ByteBits(a)[7];
  }

  lemma {:induction false} BitsDetermineMessage(s: seq<byte>, t: seq<byte>)
    requires |s| == |t| && MessageBits(s) == MessageBits(t)
    ensures s == t
  {
    if s != [] {
      var n := |s| - 1;
      assert MessageBits(s)[..8 * n] == MessageBits(s[..n]) && MessageBits(t)[..8 * n] == MessageBits(t[..n]);
      assert MessageBits(s)[8 * n..] == ByteBits(s[n]) && MessageBits(t)[8 * n..] == ByteBits(t[n]);
      BitsDetermineMessage(s[..n], t[..n]);
      BitsDetermineByte(s[n], t[n]);
      assert s == s[..n] + [s[n]] && t == t[..n] + [t[n]];
    }
  }

  /** Any corruption of a message that stays within sixteen consecutive bits changes its checksum. */
  lemma BurstIsDetected(s: seq<byte>, t: seq<byte>, p: nat)
    requires |s| == |t| && s != t
    requires forall i :: 0 <= i < 8 * |s| && !(p <= i < p + 16) ==> MessageBits(s)[i] == MessageBits(t)[i]
    ensures Crc(s) != Crc(t)
  {
    CrcIsRun(0xFFFF, s);
    CrcIsRun(0xFFFF, t);
    MessageBitsAreBits(s);
    MessageBitsAreBits(t);
    RegisterDetects();
    MasksAreMasks();
    if MessageBits(s) == MessageBits(t) {
      BitsDetermineMessage(s, t);
    }
    BurstChangesRegister(REGISTER, MASKS, 0xFFFF, MessageBits(s), MessageBits(t), p);
  }

  lemma {:induction false} BitOfMessage(s: seq<byte>, n: nat, k: nat)
    requires n < |s| && k < 8
    ensures MessageBits(s)[8 * n + k] == ByteBits(s[n])[k]
  {
    if n < |s| - 1 {
      BitOfMessage(s[..|s| - 1], n, k);
    }
  }

  /** In particular one that stays within two neighbouring bytes. */
  lemma TwoByteErrorIsDetected(s: seq<byte>, t: seq<byte>, n: nat)
    requires |s| == |t| && s != t
    requires forall i :: 0 <= i < |s| && i != n && i != n + 1 ==> s[i] == t[i]
    ensures Crc(s) != Crc(t)
  {
    forall i | 0 <= i < 8 * |s| && !(8 * n <= i < 8 * n + 16)
      ensures MessageBits(s)[i] == MessageBits(t)[i]
    {
      var b, k := i / 8, i % 8;
      assert i == 8 * b + k && s[b] == t[b];
      BitOfMessage(s, b, k);
      BitOfMessage(t, b, k);
    }
    BurstIsDetected(s, t, 8 * n);
  }
}
