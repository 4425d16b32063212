/**
  Machine words as lists of bits, the highest first: what the bitwise operators do, and
  what the words mean when read as unsigned numbers.
 */
module Words {
  import opened TimedSets

  type Word = seq<bool>

  function Value(w: Word): nat
  {
    if w == [] then 0 else 2 * Value(w[..|w| - 1]) + if w[|w| - 1] then 1 else 0
  }

  function Zeros(n: nat): (w: Word) ensures |w| == n && forall i | 0 <= i < n :: !w[i] { seq(n, _ => false) }

  function Ones(n: nat): (w: Word) ensures |w| == n && forall i | 0 <= i < n :: w[i] { seq(n, _ => true) }

  function And(a: Word, b: Word): (w: Word)
    requires |a| == |b|
    ensures |w| == |a| && forall i | 0 <= i < |w| :: w[i] == (a[i] && b[i])
  {
    seq(|a|, i requires 0 <= i < |a| => a[i] && b[i])
  }

  function Or(a: Word, b: Word): (w: Word)
    requires |a| == |b|
    ensures |w| == |a| && forall i | 0 <= i < |w| :: w[i] == (a[i] || b[i])
  {
    seq(|a|, i requires 0 <= i < |a| => a[i] || b[i])
  }

  function Not(a: Word): (w: Word)
    ensures |w| == |a| && forall i | 0 <= i < |w| :: w[i] == !a[i]
  {
    seq(|a|, i requires 0 <= i < |a| => !a[i])
  }

  /** `<<`: what leaves on the left is lost. */
  function Shl(a: Word, n: nat): (w: Word)
    requires n <= |a|
    ensures |w| == |a|
  {
    a[n..] + Zeros(n)
  }

  lemma {:induction false} ValueBelow(w: Word)
    ensures Value(w) < Pow2(|w|)
  {
    if w != [] {
      ValueBelow(w[..|w| - 1]);
    }
  }

  lemma {:induction false} ValueOfBoth(a: Word, b: Word)
    ensures Value(a + b) == Value(a) * Pow2(|b|) + Value(b)
  {
    if b == [] {
      assert a + b == a;
    } else {
      var front := b[..|b| - 1];
      ValueOfBoth(a, front);
      assert (a + b)[..|a + b| - 1] == a + front;
      assert Value(a) * Pow2(|b|) == 2 * (Value(a) * Pow2(|front|));
    }
  }

  lemma {:induction false} ValueOfZeros(n: nat)
    ensures Value(Zeros(n)) == 0
  {
    if n > 0 {
      assert Zeros(n)[..n - 1] == Zeros(n - 1);
      ValueOfZeros(n - 1);
    }
  }

  lemma {:induction false} ValueOfOnes(n: nat)
    ensures Value(Ones(n)) == Pow2(n) - 1
  {
    if n > 0 {
      assert Ones(n)[..n - 1] == Ones(n - 1);
      ValueOfOnes(n - 1);
    }
  }

  /** Clearing the low bits is rounding down, setting them is going to the block's end. */
  lemma LowBits(high: Word, low: Word)
    ensures var p := Pow2(|low|); var x := Value(high + low);
            && Value(high + Zeros(|low|)) == x - x % p
            && Value(high + Ones(|low|)) == x - x % p + p - 1
  {
    var q, p := Value(high), Pow2(|low|);
    ValueOfBoth(high, low);
    ValueBelow(low);
    RestIs(q, p, Value(low));
    assert Value(high + low) - Value(high + low) % p == q * p;
    LowEnds(high, |low|);
  }

  lemma LowEnds(high: Word, n: nat)
    ensures Value(high + Zeros(n)) == Value(high) * Pow2(n)
    ensures Value(high + Ones(n)) == Value(high) * Pow2(n) + Pow2(n) - 1
  {
    ValueOfBoth(high, Zeros(n));
    ValueOfBoth(high, Ones(n));
    ValueOfZeros(n);
    ValueOfOnes(n);
  }

  lemma RestIs(q: nat, p: nat, r: nat)
    requires r < p
    ensures (q * p + r) % p == r
  {
    var x := q * p + r;
    var d := q - x / p;
    assert p * d == x % p - r;
    Stretch(p, d);
    Stretch(p, 0 - d);
    assert p * (0 - d) == 0 - p * d;
  }
}
