/** Error detection by parity: the polynomial is divisible by x + 1, so the checksum tells apart any two messages
    that differ in an odd number of bits, wherever these are. */
module Crc16Parity {
  import opened Bytes
  import opened Crc16
  import opened Crc16Bursts

  // ---------------------------------------------------------------- parity of shift registers in the abstract

  function Ones<V>(one: V -> bool, u: seq<V>): nat {
    if u == [] then 0 else Ones(one, u[..|u| - 1]) + if one(u[|u| - 1]) then 1 else 0
  }

  /** Places at which two bit strings differ. */
  function Differences<V(==)>(u: seq<V>, v: seq<V>): nat
    requires |u| == |v|
  {
    if u == [] then 0
    else Differences(u[..|u| - 1], v[..|v| - 1]) + if u[|u| - 1] != v[|v| - 1] then 1 else 0
  }

  /** A shift changes the parity of the register exactly when it takes in a one. */
  ghost predicate KeepsParityAt<V>(g: Register<V>, odd: V -> bool, one: V -> bool, s: V, a: V) {
    g.bit(a) ==> (odd(g.shift(g.xor(s, a))) <==> odd(s) != one(a))
  }

  ghost predicate KeepsParity<V(!new)>(g: Register<V>, odd: V -> bool, one: V -> bool) {
    forall s: V, a: V :: KeepsParityAt(g, odd, one, s, a)
  }

  ghost predicate TwoBits<V(!new)>(g: Register<V>, one: V -> bool) {
    forall a: V, b: V :: g.bit(a) && g.bit(b) ==> (a == b <==> one(a) == one(b))
  }

  lemma {:induction false} ParityOfRun<V(!new)>(g: Register<V>, odd: V -> bool, one: V -> bool, c: V, u: seq<V>)
    requires KeepsParity(g, odd, one) && Bits(g, u)
    ensures odd(Run(g, c, u)) <==> odd(c) != (Ones(one, u) % 2 == 1)
  {
    if u != [] {
      var n := |u| - 1;
      ParityOfRun(g, odd, one, c, u[..n]);
      assert KeepsParityAt(g, odd, one, Run(g, c, u[..n]), u[n]);
    }
  }

  lemma {:induction false} DifferencesOfOnes<V(!new)>(g: Register<V>, one: V -> bool, u: seq<V>, v: seq<V>)
    requires TwoBits(g, one) && Bits(g, u) && Bits(g, v) && |u| == |v|
    ensures Differences(u, v) % 2 == (Ones(one, u) + Ones(one, v)) % 2
  {
    if u != [] {
      DifferencesOfOnes(g, one, u[..|u| - 1], v[..|v| - 1]);
    }
  }

  /** Bit strings that differ in an odd number of places leave different registers. */
  lemma OddErrorChangesRegister<V(!new)>(g: Register<V>, odd: V -> bool, one: V -> bool, c: V, u: seq<V>, v: seq<V>)
    requires KeepsParity(g, odd, one) && TwoBits(g, one) && Bits(g, u) && Bits(g, v)
    requires |u| == |v| && Differences(u, v) % 2 == 1
    ensures Run(g, c, u) != Run(g, c, v)
  {
    ParityOfRun(g, odd, one, c, u);
    ParityOfRun(g, odd, one, c, v);
    DifferencesOfOnes(g, one, u, v);
  }

  /** Shifting keeps the parity, and taking in a bit adds it. */
  ghost predicate EvenAt<V>(g: Register<V>, par: V -> V, s: V, a: V) {
    par(g.shift(s)) == par(s) && (g.bit(a) ==> par(g.xor(s, a)) == g.xor(par(s), a))
  }

  /** Adding a bit to a parity turns it exactly when the bit is a one. */
  ghost predicate FlipsAt<V>(g: Register<V>, par: V -> V, odd: V -> bool, one: V -> bool, s: V, a: V, t: V) {
    g.bit(a) && par(t) == g.xor(par(s), a) ==> (odd(t) <==> odd(s) != one(a))
  }

  lemma EvenFeedbackKeepsParity<V(!new)>(g: Register<V>, par: V -> V, odd: V -> bool, one: V -> bool)
    requires forall s: V, a: V :: EvenAt(g, par, s, a)
    requires forall s: V, a: V, t: V :: FlipsAt(g, par, odd, one, s, a, t)
    ensures KeepsParity(g, odd, one)
  {
    forall s: V, a: V ensures KeepsParityAt(g, odd, one, s, a) {
      var taken := g.xor(s, a);
      assert EvenAt(g, par, s, a) && EvenAt(g, par, taken, a);
      assert FlipsAt(g, par, odd, one, s, a, g.shift(taken));
    }
  }

  // ---------------------------------------------------------------- the CRC register

  /** 1 exactly when an odd number of the sixteen bits are set. */
  function Parity16(c: bv16): bv16 {
    (c ^ (c >> 1) ^ (c >> 2) ^ (c >> 3) ^ (c >> 4) ^ (c >> 5) ^ (c >> 6) ^ (c >> 7) ^
     (c >> 8) ^ (c >> 9) ^ (c >> 10) ^ (c >> 11) ^ (c >> 12) ^ (c >> 13) ^ (c >> 14) ^ (c >> 15)) & 1
  }

  predicate IsOdd(c: bv16) { Parity16(c) == 1 }
  predicate IsOne(a: bv16) { a == 1 }

  /** The bit shifted out is fed back at three places, an odd number, so nothing is lost. */
  lemma ParityOfShifted(c: bv16, d: bv16)
    requires d == (c >> 1) ^ ((c & 1) << 15) ^ ((c & 1) << 13) ^ (c & 1)
    ensures Parity16(d) == Parity16(c)
  {
  }

  lemma ShiftKeepsParity(c: bv16)
    ensures Parity16(Shift(c)) == Parity16(c)
  {
    ParityOfShifted(c, Shift(c));
  }

  /** Written out, since the solver compares the two sums place by place. */
  lemma OneMoreBit(s: bv16, a: bv16, p: bv16, q: bv16)
    requires a <= 1
    requires p == (s ^ (s >> 1) ^ (s >> 2) ^ (s >> 3) ^ (s >> 4) ^ (s >> 5) ^ (s >> 6) ^ (s >> 7) ^
                   (s >> 8) ^ (s >> 9) ^ (s >> 10) ^ (s >> 11) ^ (s >> 12) ^ (s >> 13) ^ (s >> 14) ^ (s >> 15)) & 1
    requires q == ((s ^ a) ^ ((s ^ a) >> 1) ^ ((s ^ a) >> 2) ^ ((s ^ a) >> 3) ^ ((s ^ a) >> 4) ^ ((s ^ a) >> 5) ^
                   ((s ^ a) >> 6) ^ ((s ^ a) >> 7) ^ ((s ^ a) >> 8) ^ ((s ^ a) >> 9) ^ ((s ^ a) >> 10) ^
                   ((s ^ a) >> 11) ^ ((s ^ a) >> 12) ^ ((s ^ a) >> 13) ^ ((s ^ a) >> 14) ^ ((s ^ a) >> 15)) & 1
    ensures q == p ^ a
  {
  }

  lemma BitAddsToParity(s: bv16, a: bv16)
    requires a <= 1
    ensures Parity16(s ^ a) == Parity16(s) ^ a
  {
    OneMoreBit(s, a, Parity16(s), Parity16(s ^ a));
  }

  lemma ShiftIsEven()
    ensures forall s: bv16, a: bv16 :: EvenAt(REGISTER, Parity16, s, a)
  {
    forall s: bv16, a: bv16 ensures EvenAt(REGISTER, Parity16, s, a) {
      ShiftKeepsParity(s);
      if IsBit(a) {
        BitAddsToParity(s, a);
      }
    }
  }

  lemma OneFlips(p: bv16, q: bv16, a: bv16)
    ensures p & 1 == p && IsBit(a) && q == p ^ a ==> (q == 1 <==> (p == 1) != (a == 1))
  {
  }

  lemma ParityFlips()
    ensures forall s: bv16, a: bv16, t: bv16 :: FlipsAt(REGISTER, Parity16, IsOdd, IsOne, s, a, t)
  {
    forall s: bv16, a: bv16, t: bv16 ensures FlipsAt(REGISTER, Parity16, IsOdd, IsOne, s, a, t) {
      OneFlips(Parity16(s), Parity16(t), a);
    }
  }

  lemma BitsAreTwo()
    ensures TwoBits(REGISTER, IsOne)
  {
  }

  /** Any corruption of a message that flips an odd number of bits changes its checksum. */
  lemma OddErrorIsDetected(s: seq<byte>, t: seq<byte>)
    requires |s| == |t| && Differences(MessageBits(s), MessageBits(t)) % 2 == 1
    ensures Crc(s) != Crc(t)
  {
    CrcIsRun(0xFFFF, s);
    CrcIsRun(0xFFFF, t);
    MessageBitsAreBits(s);
    MessageBitsAreBits(t);
    ShiftIsEven();
    ParityFlips();
    BitsAreTwo();
    EvenFeedbackKeepsParity(REGISTER, Parity16, IsOdd, IsOne);
    OddErrorChangesRegister(REGISTER, IsOdd, IsOne, 0xFFFF, MessageBits(s), MessageBits(t));
  }
}
