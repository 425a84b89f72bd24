// Iterated steps and folds of a step over bytes, and the laws that hold of any step: these keep
// the bit-vector reasoning of the checksum out of its inductions.
module Fold {
  import opened Base

  function Iterate<T>(f: T -> T, x: T, n: nat): T
    decreases n
  {
    if n == 0 then x else Iterate(f, f(x), n - 1)
  }

  function Over<T>(g: (T, Byte) -> T, x: T, data: Bytes): T
    decreases |data|
  {
    if data == [] then x else Over(g, g(x, data[0]), data[1..])
  }

  ghost predicate Linear<T(!new)>(f: T -> T, plus: (T, T) -> T) {
    forall a, b :: f(plus(a, b)) == plus(f(a), f(b))
  }

  ghost predicate Injective<T(!new)>(f: T -> T) {
    forall a, b :: f(a) == f(b) ==> a == b
  }

  ghost predicate InjectiveInState<T(!new)>(g: (T, Byte) -> T) {
    forall a, b, c :: g(a, c) == g(b, c) ==> a == b
  }

  ghost predicate Associative<T(!new)>(plus: (T, T) -> T) {
    forall a, b, c :: plus(plus(a, b), c) == plus(a, plus(b, c))
  }

  ghost predicate Interchange<T(!new)>(plus: (T, T) -> T) {
    forall a, b, c, d :: plus(plus(a, b), plus(c, d)) == plus(plus(a, c), plus(b, d))
  }

  ghost predicate Commutative<T(!new)>(plus: (T, T) -> T) {
    forall a, b :: plus(a, b) == plus(b, a)
  }

  lemma InterchangeFromLaws<T(!new)>(plus: (T, T) -> T)
    requires Associative(plus) && Commutative(plus)
    ensures Interchange(plus)
  {
    forall a, b, c, d ensures plus(plus(a, b), plus(c, d)) == plus(plus(a, c), plus(b, d)) {
      calc {
        plus(plus(a, b), plus(c, d));
        plus(a, plus(b, plus(c, d)));
        plus(a, plus(plus(b, c), d));
        plus(a, plus(plus(c, b), d));
        plus(a, plus(c, plus(b, d)));
        plus(plus(a, c), plus(b, d));
      }
    }
  }

  ghost predicate LinearLift<T(!new)>(lift: Byte -> T, op: (Byte, Byte) -> Byte, plus: (T, T) -> T) {
    forall c, d :: lift(op(c, d)) == plus(lift(c), lift(d))
  }

  ghost predicate LiftedMix<T(!new)>(mix: (T, Byte) -> T, plus: (T, T) -> T, lift: Byte -> T) {
    forall x, c :: mix(x, c) == plus(x, lift(c))
  }

  ghost predicate Stepped<T(!new)>(g: (T, Byte) -> T, f: T -> T, mix: (T, Byte) -> T, n: nat) {
    forall x, c :: g(x, c) == Iterate(f, mix(x, c), n)
  }

  ghost predicate LinearFold<T(!new)>(g: (T, Byte) -> T, plus: (T, T) -> T, op: (Byte, Byte) -> Byte) {
    forall x, y, c, d :: g(plus(x, y), op(c, d)) == plus(g(x, c), g(y, d))
  }

  lemma {:induction false} IterateLinear<T(!new)>(f: T -> T, plus: (T, T) -> T, a: T, b: T, n: nat)
    requires Linear(f, plus)
    ensures Iterate(f, plus(a, b), n) == plus(Iterate(f, a, n), Iterate(f, b, n))
    decreases n
  {
    if n > 0 {
      IterateLinear(f, plus, f(a), f(b), n - 1);
    }
  }

  lemma {:induction false} IterateInjective<T(!new)>(f: T -> T, a: T, b: T, n: nat)
    requires Injective(f)
    requires Iterate(f, a, n) == Iterate(f, b, n)
    ensures a == b
    decreases n
  {
    if n > 0 {
      IterateInjective(f, f(a), f(b), n - 1);
    }
  }

  lemma IterateAfterInjective<T(!new)>(f: T -> T, mix: (T, Byte) -> T, g: (T, Byte) -> T, n: nat)
    requires Injective(f) && InjectiveInState(mix)
    requires Stepped(g, f, mix, n)
    ensures InjectiveInState(g)
  {
    forall a, b, c | g(a, c) == g(b, c) ensures a == b {
      IterateInjective(f, mix(a, c), mix(b, c), n);
    }
  }

  lemma {:induction false} IterateCompose<T>(f: T -> T, x: T, m: nat, n: nat)
    ensures Iterate(f, Iterate(f, x, m), n) == Iterate(f, x, m + n)
    decreases m
  {
    if m > 0 {
      IterateCompose(f, f(x), m - 1, n);
    }
  }

  lemma {:induction false} OverConcat<T>(g: (T, Byte) -> T, x: T, a: Bytes, b: Bytes)
    ensures Over(g, Over(g, x, a), b) == Over(g, x, a + b)
    decreases |a|
  {
    if a == [] {
      assert a + b == b;
    } else {
      assert (a + b)[1..] == a[1..] + b;
      OverConcat(g, g(x, a[0]), a[1..], b);
    }
  }

  lemma {:induction false} OverInjective<T(!new)>(g: (T, Byte) -> T, a: T, b: T, data: Bytes)
    requires InjectiveInState(g)
    requires Over(g, a, data) == Over(g, b, data)
    ensures a == b
    decreases |data|
  {
    if data != [] {
      OverInjective(g, g(a, data[0]), g(b, data[0]), data[1..]);
    }
  }

  function Zip(op: (Byte, Byte) -> Byte, a: Bytes, b: Bytes): (r: Bytes)
    requires |a| == |b|
    ensures |r| == |a|
    decreases |a|
  {
    if a == [] then [] else [op(a[0], b[0])] + Zip(op, a[1..], b[1..])
  }

  lemma {:induction false} OverLinear<T(!new)>(g: (T, Byte) -> T, plus: (T, T) -> T, op: (Byte, Byte) -> Byte,
                                               x: T, y: T, a: Bytes, b: Bytes)
    requires |a| == |b|
    requires LinearFold(g, plus, op)
    ensures Over(g, plus(x, y), Zip(op, a, b)) == plus(Over(g, x, a), Over(g, y, b))
    decreases |a|
  {
    if a != [] {
      OverLinear(g, plus, op, g(x, a[0]), g(y, b[0]), a[1..], b[1..]);
      assert Zip(op, a, b)[1..] == Zip(op, a[1..], b[1..]);
    }
  }

  // If the byte is lifted linearly and mixed in by addition, a linear step after it is linear in both.
  lemma IterateAfterLinear<T(!new)>(f: T -> T, mix: (T, Byte) -> T, g: (T, Byte) -> T, lift: Byte -> T,
                                    plus: (T, T) -> T, op: (Byte, Byte) -> Byte, n: nat)
    requires Linear(f, plus)
    requires Interchange(plus) && LinearLift(lift, op, plus)
    requires LiftedMix(mix, plus, lift) && Stepped(g, f, mix, n)
    ensures LinearFold(g, plus, op)
  {
    forall x, y, c, d ensures g(plus(x, y), op(c, d)) == plus(g(x, c), g(y, d)) {
      assert mix(plus(x, y), op(c, d)) == plus(mix(x, c), mix(y, d));
      IterateLinear(f, plus, mix(x, c), mix(y, d), n);
    }
  }

  // If f undoes g wherever there is room left, n steps of f undo n steps of g.
  lemma {:induction false} IterateUndo<T(!new)>(f: T -> T, g: T -> T, room: (T, nat) -> bool, x: T, n: nat)
    requires room(x, n)
    requires forall y, k: nat :: k > 0 && room(y, k) ==> room(g(y), k - 1) && f(g(y)) == y
    ensures Iterate(f, Iterate(g, x, n), n) == x
    decreases n
  {
    if n > 0 {
      IterateUndo(f, g, room, g(x), n - 1);
      IterateCompose(f, Iterate(g, x, n), n - 1, 1);
    }
  }

  // The word spelled by a byte string, first byte innermost.
  function Spell<T>(join: (Byte, T) -> T, zero: T, data: Bytes): T
    decreases |data|
  {
    if data == [] then zero else join(data[0], Spell(join, zero, data[1..]))
  }

  // Stepping a word in with a byte, or after it, comes to the same while it fits in `room` bytes.
  ghost predicate Absorbing<T(!new)>(f: T -> T, g: (T, Byte) -> T, plus: (T, T) -> T, join: (Byte, T) -> T,
                                     fits: (T, nat) -> bool, bits: nat, room: nat) {
    forall x, b, h :: fits(h, room) ==> plus(g(x, b), h) == Iterate(f, plus(x, join(b, h)), bits)
  }

  ghost predicate Fitting<T(!new)>(join: (Byte, T) -> T, zero: T, fits: (T, nat) -> bool, room: nat) {
    && fits(zero, 0)
    && (forall b, h, n: nat :: n < room && fits(h, n) ==> fits(join(b, h), n + 1))
    && (forall h, n: nat :: n <= room && fits(h, n) ==> fits(h, room))
  }

  lemma {:induction false} SpellFits<T(!new)>(join: (Byte, T) -> T, zero: T, fits: (T, nat) -> bool, room: nat, data: Bytes)
    requires Fitting(join, zero, fits, room)
    requires |data| <= room
    ensures fits(Spell(join, zero, data), |data|)
    decreases |data|
  {
    if data != [] {
      SpellFits(join, zero, fits, room, data[1..]);
    }
  }

  // Folding a window into a state equals xoring the whole window in, then stepping once per bit.
  lemma {:induction false} WindowAtOnce<T(!new)>(f: T -> T, g: (T, Byte) -> T, plus: (T, T) -> T, join: (Byte, T) -> T,
                                                 zero: T, fits: (T, nat) -> bool, bits: nat, room: nat,
                                                 x: T, window: Bytes)
    requires Absorbing(f, g, plus, join, fits, bits, room)
    requires Fitting(join, zero, fits, room)
    requires forall y :: plus(y, zero) == y
    requires |window| <= room + 1
    ensures Over(g, x, window) == Iterate(f, plus(x, Spell(join, zero, window)), bits * |window|)
    decreases |window|
  {
    if window != [] {
      var rest := window[1..];
      var high := Spell(join, zero, rest);
      SpellFits(join, zero, fits, room, rest);
      assert fits(high, room);
      WindowAtOnce(f, g, plus, join, zero, fits, bits, room, g(x, window[0]), rest);
      assert plus(g(x, window[0]), high) == Iterate(f, plus(x, join(window[0], high)), bits);
      IterateCompose(f, plus(x, Spell(join, zero, window)), bits, bits * |rest|);
      assert bits * |window| == bits + bits * |rest|;
    }
  }

  lemma {:induction false} SpellInjective<T(!new)>(join: (Byte, T) -> T, zero: T, fits: (T, nat) -> bool, room: nat,
                                                   a: Bytes, b: Bytes)
    requires Fitting(join, zero, fits, room)
    requires forall p, q, h, k :: fits(h, room) && fits(k, room) && join(p, h) == join(q, k) ==> p == q && h == k
    requires |a| == |b| <= room + 1
    requires Spell(join, zero, a) == Spell(join, zero, b)
    ensures a == b
    decreases |a|
  {
    if a != [] {
      SpellFits(join, zero, fits, room, a[1..]);
      SpellFits(join, zero, fits, room, b[1..]);
      SpellInjective(join, zero, fits, room, a[1..], b[1..]);
      assert a == [a[0]] + a[1..] && b == [b[0]] + b[1..];
    }
  }

  // The n low binary digits of a number, pushed most significant first.
  function Digits<T>(bit: bool -> T, push: (T, T) -> T, zero: T, v: nat, n: nat): T
    decreases n
  {
    if n == 0 then zero else push(bit(v % 2 == 1), Digits(bit, push, zero, v / 2, n - 1))
  }

  function Pow2(n: nat): nat { if n == 0 then 1 else 2 * Pow2(n - 1) }

  // The bitwise exclusive or of the n low bits of two numbers.
  function XorLow(v: nat, w: nat, n: nat): (r: nat)
    ensures r < Pow2(n)
  {
    if n == 0 then 0 else (v + w) % 2 + 2 * XorLow(v / 2, w / 2, n - 1)
  }

  lemma XorLowStep(v: nat, w: nat, n: nat)
    requires n > 0
    ensures XorLow(v, w, n) / 2 == XorLow(v / 2, w / 2, n - 1)
    ensures (XorLow(v, w, n) % 2 == 1) == ((v % 2 == 1) != (w % 2 == 1))
  {
  }

  ghost predicate LinearPush<T(!new)>(push: (T, T) -> T, plus: (T, T) -> T) {
    forall p, q, x, y :: push(plus(p, q), plus(x, y)) == plus(push(p, x), push(q, y))
  }

  lemma PushFromLaws<T(!new)>(push: (T, T) -> T, plus: (T, T) -> T, up: T -> T)
    requires Interchange(plus) && Linear(up, plus)
    requires forall p, x :: push(p, x) == plus(p, up(x))
    ensures LinearPush(push, plus)
  {
    forall p, q, x, y ensures push(plus(p, q), plus(x, y)) == plus(push(p, x), push(q, y)) {
      assert plus(plus(p, q), plus(up(x), up(y))) == plus(plus(p, up(x)), plus(q, up(y)));
    }
  }

  lemma {:induction false} DigitsLinear<T(!new)>(bit: bool -> T, push: (T, T) -> T, zero: T, plus: (T, T) -> T, v: nat, w: nat, n: nat)
    requires plus(zero, zero) == zero
    requires LinearPush(push, plus)
    requires forall a, b :: bit(a != b) == plus(bit(a), bit(b))
    ensures Digits(bit, push, zero, XorLow(v, w, n), n)
         == plus(Digits(bit, push, zero, v, n), Digits(bit, push, zero, w, n))
    decreases n
  {
    if n > 0 {
      XorLowStep(v, w, n);
      assert bit((v % 2 == 1) != (w % 2 == 1)) == plus(bit(v % 2 == 1), bit(w % 2 == 1));
      DigitsLinear(bit, push, zero, plus, v / 2, w / 2, n - 1);
    }
  }
}
