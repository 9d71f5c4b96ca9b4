/** Vocabulary shared by the models: optional values, machine integers and the stack's
    clock. */
module Prelude {

  datatype Option<+T> = None | Some(value: T)

  lemma Grow<T>(s: seq<T>, i: nat)
    requires i < |s|
    ensures s[..i + 1] == s[..i] + [s[i]]
    ensures i + 1 == |s| ==> s[..i + 1] == s
  {
  }

  lemma Regroup<T>(a: seq<T>, b: seq<T>, c: seq<T>)
    ensures a + b + c == a + (b + c)
  {
  }

  /** Each entry is below the next. */
  predicate Increasing(s: seq<nat>) {
    forall i, j :: 0 <= i < j < |s| ==> s[i] < s[j]
  }

  function Singleton<T>(o: Option<T>): seq<T> {
    if o.Some? then [o.value] else []
  }

  /** The results of a partial function along a sequence, skipping where it has none. */
  function Selected<A, B>(s: seq<A>, f: A -> Option<B>): seq<B> {
    if s == [] then [] else Singleton(f(s[0])) + Selected(s[1..], f)
  }

  lemma {:induction false} SelectedConcat<A, B>(s: seq<A>, t: seq<A>, f: A -> Option<B>)
    ensures Selected(s + t, f) == Selected(s, f) + Selected(t, f)
    decreases |s|
  {
    if s == [] {
      assert s + t == t;
    } else {
      assert (s + t)[1..] == s[1..] + t;
      SelectedConcat(s[1..], t, f);
      Regroup(Singleton(f(s[0])), Selected(s[1..], f), Selected(t, f));
    }
  }

  type u8 = x: nat | x < 0x100

  type u16 = x: nat | x < 0x1_0000

  type u32 = x: nat | x < 0x1_0000_0000

  const MAX_INSTANT: nat := 18446744073709551615

  /** Microseconds since the driver's epoch; an unsigned 64-bit count in the source. */
  type Instant = t: nat | t <= 18446744073709551615

  /** The longest `core::time::Duration`, in whole microseconds. */
  const MAX_DURATION: nat := 18446744073709551615999999

  /** A span of time in whole microseconds. */
  type Duration = d: nat | d <= 18446744073709551615999999

  /** Adding a duration to an instant clamps instead of overflowing. */
  function After(t: Instant, d: Duration): Instant {
    if t + d <= MAX_INSTANT then t + d else MAX_INSTANT
  }

  /** Whole multiples and whole quotients as repeated addition and subtraction, which keeps
      every proof about the clock inside linear arithmetic. */
  function Times(d: nat, n: nat): nat {
    if n == 0 then 0 else d + Times(d, n - 1)
  }

  function Quotient(a: nat, i: nat): nat
    requires i > 0
  {
    if a < i then 0 else 1 + Quotient(a - i, i)
  }

  /** Multiplying a duration clamps instead of overflowing. */
  function Scale(d: Duration, n: nat): Duration {
    if Times(d, n) <= MAX_DURATION then Times(d, n) else MAX_DURATION
  }

  lemma TimesIsProduct(d: nat, n: nat)
    ensures Times(d, n) == d * n
  {
  }

  lemma DivisionIsUnique(a: int, i: int, q: int)
    requires i > 0 && i * q <= a < i * q + i
    ensures a / i == q
  {
    var r := a / i;
    assert a == i * r + a % i;
    assert i * (q - r) == i * q - i * r;
    WithinOneMultiple(q - r, i);
  }

  lemma WithinOneMultiple(d: int, i: int)
    requires i > 0 && -i < i * d < i
    ensures d == 0
  {
  }

  lemma QuotientIsDivision(a: nat, i: nat)
    requires i > 0
    ensures Quotient(a, i) == a / i
  {
    QuotientBounds(a, i);
    TimesIsProduct(i, Quotient(a, i));
    DivisionIsUnique(a, i, Quotient(a, i));
  }

  lemma TimesAdds(d: nat, m: nat, n: nat)
    ensures Times(d, m + n) == Times(d, m) + Times(d, n)
  {
    if n > 0 {
      TimesAdds(d, m, n - 1);
    }
  }

  lemma TimesMonotone(d: nat, m: nat, n: nat)
    requires m <= n
    ensures Times(d, m) <= Times(d, n)
  {
    TimesAdds(d, m, n - m);
  }

  lemma QuotientBounds(a: nat, i: nat)
    requires i > 0
    ensures Times(i, Quotient(a, i)) <= a < Times(i, Quotient(a, i)) + i
  {
  }

  /** A quotient is the number of whole intervals: q intervals fit exactly when q <= a / i. */
  lemma FitsIffQuotient(a: nat, q: nat, i: nat)
    requires i > 0
    ensures Times(i, q) <= a <==> q <= Quotient(a, i)
  {
    QuotientBounds(a, i);
    if q <= Quotient(a, i) {
      TimesMonotone(i, q, Quotient(a, i));
    } else {
      TimesMonotone(i, Quotient(a, i) + 1, q);
    }
  }

  lemma QuotientShift(a: nat, k: nat, i: nat)
    requires i > 0 && Times(i, k) <= a
    ensures Quotient(a - Times(i, k), i) == Quotient(a, i) - k
    decreases k
  {
    if k > 0 {
      QuotientShift(a - i, k - 1, i);
    }
  }

  lemma QuotientMonotone(a: nat, b: nat, i: nat)
    requires i > 0 && a <= b
    ensures Quotient(a, i) <= Quotient(b, i)
  {
    QuotientBounds(a, i);
    FitsIffQuotient(b, Quotient(a, i), i);
  }
}
