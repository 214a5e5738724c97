/** Opening a connection with retries: the waits grow by half from attempt to attempt, cut to whole seconds. */
module Retry {
  /** 1.5 to the power a. */
  function Power(a: nat): (p: real)
    ensures p >= 1.0
  {
    if a == 0 then 1.0 else 1.5 * Power(a - 1)
  }

  /** The seconds waited after the failed attempt a, counted from 0. */
  function Wait(a: nat): (s: nat)
    ensures s as real <= Power(a) < s as real + 1.0
  {
    Power(a).Floor
  }

  /** The seconds waited by n attempts that all fail. */
  function TotalWait(n: nat): nat {
    if n == 0 then 0 else TotalWait(n - 1) + Wait(n - 1)
  }

  /** The waits are the geometric series but for what is cut off, less than a second for each attempt. */
  lemma {:induction false} TotalWaitBounds(n: nat)
    ensures TotalWait(n) as real <= 2.0 * (Power(n) - 1.0)
    ensures n > 0 ==> TotalWait(n) as real > 2.0 * (Power(n) - 1.0) - n as real
  {
    if n > 0 {
      TotalWaitBounds(n - 1);
    }
  }

  function PowerOf(b: nat, a: nat): nat {
    if a == 0 then 1 else b * PowerOf(b, a - 1)
  }

  lemma {:induction false} PowerIsAQuotient(a: nat)
    ensures PowerOf(2, a) >= 1 && Power(a) * PowerOf(2, a) as real == PowerOf(3, a) as real
  {
    if a > 0 {
      PowerIsAQuotient(a - 1);
      var p, q := Power(a - 1), PowerOf(2, a - 1) as real;
      assert (1.5 * p) * (2.0 * q) == 3.0 * (p * q);
    }
  }

  /** Each single wait, in whole numbers: the quotient of 3 to the power a by 2 to the power a. */
  lemma WaitIsAQuotient(a: nat)
    ensures PowerOf(2, a) > 0 && Wait(a) == PowerOf(3, a) / PowerOf(2, a)
  {
    PowerIsAQuotient(a);
    FloorOfQuotient(Wait(a), Power(a), PowerOf(2, a), PowerOf(3, a));
  }

  lemma FloorOfQuotient(w: nat, p: real, q: nat, r: nat)
    requires w as real <= p < w as real + 1.0 && q > 0 && p * (q as real) == r as real
    ensures w == r / q
  {
    assert (w + 1) as real == w as real + 1.0;
    ProductBelow(w, p, q, r);
    ProductAbove(w + 1, p, q, r);
    QuotientIs(w, q, r);
  }

  lemma ProductBelow(w: nat, p: real, q: nat, r: nat)
    requires w as real <= p && q > 0 && p * (q as real) == r as real
    ensures w * q <= r
  {
    Scaled(w as real, p, q as real);
    WholeProduct(w, q);
    WholeOrder(w * q, r);
  }

  lemma ProductAbove(w: nat, p: real, q: nat, r: nat)
    requires p < w as real && q > 0 && p * (q as real) == r as real
    ensures r < w * q
  {
    Scaled(p, w as real, q as real);
    WholeProduct(w, q);
    WholeOrder(r, w * q);
  }

  lemma WholeOrder(a: nat, b: nat)
    ensures a as real <= b as real <==> a <= b
    ensures a as real < b as real <==> a < b
  {
  }

  lemma WholeProduct(a: nat, b: nat)
    ensures (a as real) * (b as real) == (a * b) as real
  {
  }

  lemma Scaled(x: real, y: real, q: real)
    requires x <= y && q > 0.0
    ensures x * q <= y * q && (x < y ==> x * q < y * q)
  {
  }

  lemma QuotientIs(w: nat, q: nat, r: nat)
    requires q > 0 && w * q <= r < (w + 1) * q
    ensures w == r / q
  {
    var d := r / q;
    assert d * q <= r < (d + 1) * q;
    Multiples(w + 1, d, q);
    Multiples(d + 1, w, q);
  }

  lemma Multiples(a: nat, b: nat, q: nat)
    ensures a <= b ==> a * q <= b * q
  {
  }

  /** The ten attempts of `openURL` give up after 110 seconds, 72 of them before the last attempt. */
  lemma TenAttempts()
    ensures [Wait(0), Wait(1), Wait(2), Wait(3), Wait(4), Wait(5), Wait(6), Wait(7), Wait(8), Wait(9)] ==
            [1, 1, 2, 3, 5, 7, 11, 17, 25, 38]
    ensures TotalWait(9) == 72 && TotalWait(10) == 110
  {
    assert Power(1) == 1.5 && Power(2) == 2.25 && Power(3) == 3.375 && Power(4) == 5.0625;
    assert Power(5) == 7.59375 && Power(6) == 11.390625 && Power(7) == 17.0859375;
    assert Power(8) == 25.62890625 && Power(9) == 38.443359375;
    assert Wait(0) == 1 && Wait(1) == 1 && Wait(2) == 2 && Wait(3) == 3 && Wait(4) == 5;
    assert Wait(5) == 7 && Wait(6) == 11 && Wait(7) == 17 && Wait(8) == 25 && Wait(9) == 38;
    assert TotalWait(4) == 7;
    assert TotalWait(8) == 47;
  }

  /** The attempt that gets through, if one of the first n does: the earliest one. */
  ghost predicate ConnectsAt(answers: nat -> bool, n: nat, k: nat) {
    k < n && answers(k) && forall j | 0 <= j < k :: !answers(j)
  }

  /**
    `openURLWithAttempts`. `answers` says whether the database would answer an attempt. It stops at the first answer
    and has waited only for the attempts before; without one it has made every attempt and waited after each,
    the last included, before it panics.
   */
  method OpenWithAttempts(answers: nat -> bool, attempts: int) returns (connected: bool, opens: nat, waited: nat)
    ensures connected ==> 0 < opens <= attempts && ConnectsAt(answers, opens, opens - 1)
    ensures connected ==> waited == TotalWait(opens - 1)
    ensures !connected ==> (forall a: nat | a < attempts :: !answers(a)) && waited == TotalWait(opens)
    ensures !connected ==> opens == if attempts < 0 then 0 else attempts
  {
    opens, waited := 0, 0;
    while opens < attempts
      invariant attempts >= 0 ==> opens <= attempts
      invariant attempts < 0 ==> opens == 0
      invariant forall a: nat | a < opens :: !answers(a)
      invariant waited == TotalWait(opens)
    {
      opens := opens + 1;
      if answers(opens - 1) {
        return true, opens, waited;
      }
      waited := waited + Wait(opens - 1);
    }
    return false, opens, waited;
  }

  lemma {:induction false} WaitsGrow(m: nat, n: nat)
    requires m <= n
    ensures TotalWait(m) <= TotalWait(n)
  {
    if m < n {
      WaitsGrow(m, n - 1);
    }
  }

  /** Getting through at the last of ten attempts or before. */
  lemma NineWaitsAtMost(n: nat)
    requires n <= 9
    ensures TotalWait(n) <= 72
  {
    WaitsGrow(n, 9);
    TenAttempts();
  }

  /** `openURL`, with its ten attempts, waits at most 72 seconds to get through. */
  method OpenURL(answers: nat -> bool) returns (connected: bool, waited: nat)
    ensures connected <==> exists k :: ConnectsAt(answers, 10, k)
    ensures if connected then waited <= 72 else waited == 110
  {
    var opens;
    connected, opens, waited := OpenWithAttempts(answers, 10);
    if connected {
      NineWaitsAtMost(opens - 1);
      assert ConnectsAt(answers, 10, opens - 1);
    } else {
      TenAttempts();
    }
  }
}
