/** A 32-bit linear-feedback shift register over GF(2), as the bits of its word with the least
    significant bit first. Everything here holds for every feedback polynomial whose top
    coefficient is set; CRC-32 is one instance. */
module ShiftRegister {

  type Register = r: seq<bool> | |r| == 32 witness seq(32, _ => false)

  function Zeros(n: nat): (z: seq<bool>)
    ensures |z| == n && forall i :: 0 <= i < n ==> !z[i]
  {
    seq(n, _ => false)
  }

  function Xor(a: seq<bool>, b: seq<bool>): (r: seq<bool>)
    requires |a| == |b|
    ensures |r| == |a| && forall i :: 0 <= i < |r| ==> r[i] == (a[i] != b[i])
  {
    seq(|a|, i requires 0 <= i < |a| => a[i] != b[i])
  }

  function Not(a: seq<bool>): (r: seq<bool>)
    ensures |r| == |a| && forall i :: 0 <= i < |r| ==> r[i] == !a[i]
  {
    seq(|a|, i requires 0 <= i < |a| => !a[i])
  }

  lemma NotNot(r: Register)
    ensures Not(Not(r)) == r
  {
  }

  lemma NotInjective(a: Register, b: Register)
    requires Not(a) == Not(b)
    ensures a == b
  {
    NotNot(a);
    NotNot(b);
  }

  /** Bits widened to a register. */
  function Widen(bits: seq<bool>): (r: Register)
    requires |bits| <= 32
  {
    bits + Zeros(32 - |bits|)
  }

  function Shift(r: Register): (next: Register) {
    r[1..] + [false]
  }

  /** One shift of the register: a bit shifted out feeds the polynomial back. */
  function Step(p: Register, r: Register): (next: Register) {
    if r[0] then Xor(Shift(r), p) else Shift(r)
  }

  function Steps(p: Register, n: nat, r: Register): (next: Register) {
    if n == 0 then r else Steps(p, n - 1, Step(p, r))
  }

  /** The register after absorbing bits, each added to the lowest bit before a shift. */
  function Absorb(p: Register, r: Register, bits: seq<bool>): (next: Register)
    decreases |bits|
  {
    if bits == [] then r else Absorb(p, Step(p, r[0 := r[0] != bits[0]]), bits[1..])
  }

  // ---- Linearity ----

  lemma StepXor(p: Register, a: Register, b: Register)
    ensures Step(p, Xor(a, b)) == Xor(Step(p, a), Step(p, b))
  {
  }

  lemma {:induction false} StepsXor(p: Register, n: nat, a: Register, b: Register)
    ensures Steps(p, n, Xor(a, b)) == Xor(Steps(p, n, a), Steps(p, n, b))
  {
    if n > 0 {
      StepXor(p, a, b);
      StepsXor(p, n - 1, Step(p, a), Step(p, b));
    }
  }

  lemma {:induction false} AbsorbXor(p: Register, r: Register, s: Register, a: seq<bool>, b: seq<bool>)
    requires |a| == |b|
    ensures Absorb(p, Xor(r, s), Xor(a, b)) == Xor(Absorb(p, r, a), Absorb(p, s, b))
    decreases |a|
  {
    if a != [] {
      var x, y := r[0 := r[0] != a[0]], s[0 := s[0] != b[0]];
      assert Xor(r, s)[0 := Xor(r, s)[0] != Xor(a, b)[0]] == Xor(x, y);
      StepXor(p, x, y);
      assert Xor(a, b)[1..] == Xor(a[1..], b[1..]);
      AbsorbXor(p, Step(p, x), Step(p, y), a[1..], b[1..]);
    }
  }

  // ---- Injectivity ----

  /** The top bit after a shift is the bit that was shifted out. */
  lemma StepInjective(p: Register, a: Register, b: Register)
    requires p[31] && Step(p, a) == Step(p, b)
    ensures a == b
  {
    assert Step(p, a)[31] == a[0] && Step(p, b)[31] == b[0];
    forall i | 0 < i < 32 ensures a[i] == b[i] {
      assert Step(p, a)[i - 1] == (a[i] != (a[0] && p[i - 1]));
      assert Step(p, b)[i - 1] == (b[i] != (b[0] && p[i - 1]));
    }
  }

  lemma {:induction false} StepsInjective(p: Register, n: nat, a: Register, b: Register)
    requires p[31] && Steps(p, n, a) == Steps(p, n, b)
    ensures a == b
  {
    hide Step;
    if n > 0 {
      StepsInjective(p, n - 1, Step(p, a), Step(p, b));
      StepInjective(p, a, b);
    }
  }

  lemma {:induction false} AbsorbInjective(p: Register, a: Register, b: Register, bits: seq<bool>)
    requires p[31] && Absorb(p, a, bits) == Absorb(p, b, bits)
    ensures a == b
    decreases |bits|
  {
    hide Step;
    if bits != [] {
      var x, y := a[0 := a[0] != bits[0]], b[0 := b[0] != bits[0]];
      AbsorbInjective(p, Step(p, x), Step(p, y), bits[1..]);
      StepInjective(p, x, y);
      forall i | 0 <= i < 32 ensures a[i] == b[i] {
        assert x[i] == y[i];
      }
    }
  }

  // ---- Absorbing many bits at once ----

  lemma {:induction false} AbsorbAppend(p: Register, r: Register, a: seq<bool>, b: seq<bool>)
    ensures Absorb(p, r, a + b) == Absorb(p, Absorb(p, r, a), b)
    decreases |a|
  {
    if a == [] {
      assert a + b == b;
    } else {
      assert (a + b)[1..] == a[1..] + b;
      AbsorbAppend(p, Step(p, r[0 := r[0] != a[0]]), a[1..], b);
    }
  }

  lemma StepRaised(p: Register, rest: seq<bool>, raised: Register)
    requires |rest| < 32 && raised == [false] + Widen(rest)[..31]
    ensures Step(p, raised) == Widen(rest)
  {
  }

  lemma FedRaised(r: Register, bits: seq<bool>, fed: Register, raised: Register)
    requires 0 < |bits| <= 32 && fed == r[0 := r[0] != bits[0]]
    requires raised == [false] + Widen(bits[1..])[..31]
    ensures Xor(fed, raised) == Xor(r, Widen(bits))
  {
  }

  /** Feeding one bit and shifting commutes with adding the remaining bits. */
  lemma FeedFirst(p: Register, r: Register, bits: seq<bool>)
    requires 0 < |bits| <= 32
    ensures Step(p, Xor(r, Widen(bits)))
         == Xor(Step(p, r[0 := r[0] != bits[0]]), Widen(bits[1..]))
  {
    var rest, fed := bits[1..], r[0 := r[0] != bits[0]];
    var raised: Register := [false] + Widen(rest)[..31];
    StepRaised(p, rest, raised);
    FedRaised(r, bits, fed, raised);
    hide Step;
    StepXor(p, fed, raised);
  }

  /** Up to 32 bits may be added to the register at once before shifting. */
  lemma {:induction false} Window(p: Register, r: Register, bits: seq<bool>)
    requires |bits| <= 32
    ensures Absorb(p, r, bits) == Steps(p, |bits|, Xor(r, Widen(bits)))
    decreases |bits|
  {
    if bits == [] {
      assert Xor(r, Widen([])) == r;
    } else {
      Window(p, Step(p, r[0 := r[0] != bits[0]]), bits[1..]);
      FeedFirst(p, r, bits);
    }
  }

  /** Zeros in the low bits are shifted out without feedback. */
  lemma {:induction false} StepsOfZeros(p: Register, n: nat, t: seq<bool>)
    requires n + |t| == 32
    ensures Steps(p, n, Zeros(n) + t) == t + Zeros(n)
    decreases n
  {
    if n == 0 {
      assert Zeros(0) + t == t + Zeros(0);
    } else {
      var r: Register := Zeros(n) + t;
      assert Step(p, r) == Zeros(n - 1) + (t + [false]);
      StepsOfZeros(p, n - 1, t + [false]);
      assert (t + [false]) + Zeros(n - 1) == t + Zeros(n);
    }
  }

  // ---- Bursts ----

  lemma WindowInjective(p: Register, r: Register, u: seq<bool>, v: seq<bool>)
    requires p[31] && |u| == |v| <= 32 && Absorb(p, r, u) == Absorb(p, r, v)
    ensures u == v
  {
    Window(p, r, u);
    Window(p, r, v);
    StepsInjective(p, |u|, Xor(r, Widen(u)), Xor(r, Widen(v)));
    forall i | 0 <= i < |u| ensures u[i] == v[i] {
      assert Xor(r, Widen(u))[i] == Xor(r, Widen(v))[i];
    }
  }

  lemma AbsorbThreeParts(p: Register, r: Register, a: seq<bool>, lo: nat, hi: nat)
    requires lo <= hi <= |a|
    ensures Absorb(p, r, a) == Absorb(p, Absorb(p, Absorb(p, r, a[..lo]), a[lo..hi]), a[hi..])
  {
    assert a == a[..lo] + (a[lo..hi] + a[hi..]);
    AbsorbAppend(p, r, a[..lo], a[lo..hi] + a[hi..]);
    AbsorbAppend(p, Absorb(p, r, a[..lo]), a[lo..hi], a[hi..]);
  }

  /** Bit streams that differ only inside a window of 32 bits leave different registers. */
  lemma Burst(p: Register, r: Register, a: seq<bool>, b: seq<bool>, lo: nat, hi: nat)
    requires p[31] && |a| == |b| && lo <= hi <= |a| && hi - lo <= 32
    requires a[..lo] == b[..lo] && a[hi..] == b[hi..]
    requires Absorb(p, r, a) == Absorb(p, r, b)
    ensures a == b
  {
    hide Absorb;
    AbsorbThreeParts(p, r, a, lo, hi);
    AbsorbThreeParts(p, r, b, lo, hi);
    var s := Absorb(p, r, a[..lo]);
    AbsorbInjective(p, Absorb(p, s, a[lo..hi]), Absorb(p, s, b[lo..hi]), a[hi..]);
    WindowInjective(p, s, a[lo..hi], b[lo..hi]);
    assert a == a[..lo] + a[lo..hi] + a[hi..] && b == b[..lo] + b[lo..hi] + b[hi..];
  }
}
