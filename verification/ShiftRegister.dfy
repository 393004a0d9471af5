/** The algebra of shift registers, over any type of register: what follows from one step being linear. */
module ShiftRegister {
  function Iterate<T>(f: T -> T, x: T, n: nat): T
    decreases n, x
  {
    if n == 0 then x else Iterate(f, f(x), n - 1)
  }

  /** The `n` low bits of `m` enter the register `r`, lowest first. */
  function Feed<T>(bit: (T, bool) -> T, odd: T -> bool, half: T -> T, r: T, m: T, n: nat): T
    decreases n, r
  {
    if n == 0 then r else Feed(bit, odd, half, bit(r, odd(m)), half(m), n - 1)
  }

  lemma {:induction false} IterateTwice<T>(f: T -> T, x: T, m: nat, n: nat)
    ensures Iterate(f, x, m + n) == Iterate(f, Iterate(f, x, m), n)
    decreases m
  {
    if m > 0 {
      IterateTwice(f, f(x), m - 1, n);
    }
  }

  lemma IterateFour<T(!new)>(f: T -> T, x: T)
    ensures Iterate(f, x, 4) == f(f(f(f(x))))
  {
    IterateTwice(f, x, 2, 2);
    assert forall y :: Iterate(f, y, 2) == Iterate(f, f(y), 1) == f(f(y));
  }

  lemma IterateEight<T(!new)>(f: T -> T, x: T)
    ensures Iterate(f, x, 8) == f(f(f(f(f(f(f(f(x))))))))
  {
    IterateTwice(f, x, 4, 4);
    IterateFour(f, x);
    IterateFour(f, f(f(f(f(x)))));
  }

  lemma {:induction false} IterateOfSum<T(!new)>(f: T -> T, add: (T, T) -> T, x: T, y: T, n: nat)
    requires forall a, b :: f(add(a, b)) == add(f(a), f(b))
    ensures Iterate(f, add(x, y), n) == add(Iterate(f, x, n), Iterate(f, y, n))
    decreases n
  {
    if n > 0 {
      IterateOfSum(f, add, f(x), f(y), n - 1);
    }
  }

  lemma {:induction false} IterateIsInjective<T(!new)>(f: T -> T, x: T, y: T, n: nat)
    requires forall a, b :: f(a) == f(b) ==> a == b
    requires Iterate(f, x, n) == Iterate(f, y, n)
    ensures x == y
    decreases n
  {
    if n > 0 {
      IterateIsInjective(f, f(x), f(y), n - 1);
    }
  }

  /** Adding the data to the register and shifting, against feeding the data in bit by bit. */
  lemma {:induction false} FeedIsShift<T(!new)>(
      step: T -> T, add: (T, T) -> T, bit: (T, bool) -> T, odd: T -> bool, half: T -> T, r: T, m: T, n: nat)
    requires forall a, b :: step(add(a, b)) == add(bit(a, odd(b)), half(b))
    ensures Iterate(step, add(r, m), n) == add(Feed(bit, odd, half, r, m, n), Iterate(half, m, n))
    decreases n
  {
    if n > 0 {
      FeedIsShift(step, add, bit, odd, half, bit(r, odd(m)), half(m), n - 1);
    }
  }

  /** Registers driven by data, one item after another. */
  function Absorb<T, B>(enter: (T, B) -> T, r: T, data: seq<B>): T
    decreases |data|
  {
    if data == [] then r else Absorb(enter, enter(r, data[0]), data[1..])
  }

  lemma {:induction false} AbsorbFour<T, B>(enter: (T, B) -> T, r: T, data: seq<B>)
    requires |data| == 4
    ensures Absorb(enter, r, data) == enter(enter(enter(enter(r, data[0]), data[1]), data[2]), data[3])
  {
    var d1, d2, d3 := data[1..], data[2..], data[3..];
    assert d1[1..] == d2 && d2[1..] == d3 && d3[1..] == [];
    var r1 := enter(r, data[0]);
    var r2 := enter(r1, data[1]);
    assert Absorb(enter, r, data) == Absorb(enter, r1, d1);
    assert Absorb(enter, r1, d1) == Absorb(enter, r2, d2);
    var r3 := enter(r2, data[2]);
    assert Absorb(enter, r2, d2) == Absorb(enter, r3, d3);
    assert Absorb(enter, r3, d3) == enter(r3, data[3]);
  }

  lemma {:induction false} AbsorbOfAppend<T, B>(enter: (T, B) -> T, r: T, a: seq<B>, b: seq<B>)
    ensures Absorb(enter, r, a + b) == Absorb(enter, Absorb(enter, r, a), b)
    decreases |a|
  {
    if a == [] {
      assert a + b == b;
    } else {
      assert (a + b)[1..] == a[1..] + b;
      AbsorbOfAppend(enter, enter(r, a[0]), a[1..], b);
    }
  }

  lemma AbsorbOneMore<T, B>(enter: (T, B) -> T, r: T, data: seq<B>, i: nat)
    requires i < |data|
    ensures Absorb(enter, r, data[..i + 1]) == enter(Absorb(enter, r, data[..i]), data[i])
  {
    assert data[..i + 1] == data[..i] + [data[i]];
    AbsorbOfAppend(enter, r, data[..i], [data[i]]);
  }

  lemma {:induction false} AbsorbIsInjective<T(!new), B(!new)>(enter: (T, B) -> T, x: T, y: T, data: seq<B>)
    requires forall a, b, d :: enter(a, d) == enter(b, d) ==> a == b
    requires Absorb(enter, x, data) == Absorb(enter, y, data)
    ensures x == y
    decreases |data|
  {
    if data != [] {
      AbsorbIsInjective(enter, enter(x, data[0]), enter(y, data[0]), data[1..]);
    }
  }
}
