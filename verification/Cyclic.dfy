/** Cyclic assignment: position i of a list goes to slot i % k. Tenants are dealt to regions
    this way, and so are cluster nodes. */
module Cyclic {

  lemma {:induction false} MulAtLeast(x: int, k: nat)
    ensures x >= 1 ==> x * k >= k
    ensures x <= -1 ==> x * k + k <= 0
  {
    if x >= 1 {
      assert x * k == (x - 1) * k + k;
      assert (x - 1) * k >= 0;
    } else if x <= -1 {
      assert x * k == (x + 1) * k - k;
      assert (x + 1) * k <= 0;
    }
  }

  lemma DivModUnique(a: nat, k: nat, q: nat, r: nat)
    requires k > 0 && r < k && a == q * k + r
    ensures a / k == q && a % k == r
  {
    MulAtLeast(a / k - q, k);
    assert a == (a / k) * k + a % k;
    assert (a / k - q) * k == (a / k) * k - q * k;
  }

  lemma NextSlot(m: nat, k: nat)
    requires k > 0
    ensures (m + 1) % k == if m % k == k - 1 then 0 else m % k + 1
    ensures (m + 1) / k == m / k + if m % k == k - 1 then 1 else 0
  {
    var q, r := m / k, m % k;
    assert m == q * k + r;
    if r == k - 1 {
      assert m + 1 == (q + 1) * k + 0;
      DivModUnique(m + 1, k, q + 1, 0);
    } else {
      DivModUnique(m + 1, k, q, r + 1);
    }
  }

  lemma SameSlotNextLap(m: nat, k: nat)
    requires k > 0
    ensures (m + k) % k == m % k
  {
    assert m == (m / k) * k + m % k;
    assert m + k == (m / k + 1) * k + m % k;
    DivModUnique(m + k, k, m / k + 1, m % k);
  }

  /** How many of the first m positions fall in slot j. */
  function Dealt(m: nat, k: nat, j: nat): nat
    requires k > 0
  {
    if m == 0 then 0 else Dealt(m - 1, k, j) + if (m - 1) % k == j then 1 else 0
  }

  lemma {:induction false} DealtMonotone(a: nat, b: nat, k: nat, j: nat)
    requires k > 0 && a <= b
    ensures Dealt(a, k, j) <= Dealt(b, k, j) <= Dealt(a, k, j) + (b - a)
    decreases b
  {
    if a < b { DealtMonotone(a, b - 1, k, j); }
  }

  /** An earlier slot leads a later one by one card exactly while the deal is between them. */
  lemma {:induction false} DealtGap(m: nat, k: nat, i: nat, j: nat)
    requires i < j < k
    ensures Dealt(m, k, i) - Dealt(m, k, j) == if i < m % k <= j then 1 else 0
  {
    if m == 0 {
      DivModUnique(0, k, 0, 0);
    } else {
      DealtGap(m - 1, k, i, j);
      NextSlot(m - 1, k);
      assert Dealt(m, k, i) == Dealt(m - 1, k, i) + if (m - 1) % k == i then 1 else 0;
      assert Dealt(m, k, j) == Dealt(m - 1, k, j) + if (m - 1) % k == j then 1 else 0;
    }
  }

  /** Each slot gets one card a lap, and the slots before the end of the last lap one more. */
  lemma {:induction false} DealtClosedForm(m: nat, k: nat, j: nat)
    requires j < k
    ensures Dealt(m, k, j) == m / k + if j < m % k then 1 else 0
  {
    if m == 0 {
      DivModUnique(0, k, 0, 0);
    } else {
      DealtClosedForm(m - 1, k, j);
      NextSlot(m - 1, k);
      assert Dealt(m, k, j) == Dealt(m - 1, k, j) + if (m - 1) % k == j then 1 else 0;
    }
  }

  /** Over any contiguous stretch [a, b) the slots differ by at most one. */
  lemma StretchBalanced(a: nat, b: nat, k: nat, i: nat, j: nat)
    requires i < k && j < k && a <= b
    ensures -1 <= (Dealt(b, k, i) - Dealt(a, k, i)) - (Dealt(b, k, j) - Dealt(a, k, j)) <= 1
  {
    if i < j {
      DealtGap(a, k, i, j);
      DealtGap(b, k, i, j);
    } else if j < i {
      DealtGap(a, k, j, i);
      DealtGap(b, k, j, i);
    }
  }

  lemma {:induction false} FirstLap(m: nat, k: nat, j: nat)
    requires m <= k && j < k
    ensures Dealt(m, k, j) == if j < m then 1 else 0
  {
    if m > 0 {
      FirstLap(m - 1, k, j);
      DivModUnique(m - 1, k, 0, m - 1);
    }
  }

  lemma {:induction false} EveryLapDealsOne(m: nat, k: nat, j: nat)
    requires j < k
    ensures Dealt(m + k, k, j) == Dealt(m, k, j) + 1
  {
    if m == 0 {
      FirstLap(k, k, j);
    } else {
      EveryLapDealsOne(m - 1, k, j);
      SameSlotNextLap(m - 1, k);
    }
  }

  /** A stretch [a, b) reaches every slot exactly when it is at least one lap long. */
  lemma StretchCovers(a: nat, b: nat, k: nat)
    requires k > 0 && a <= b
    ensures b - a >= k <==> forall j :: 0 <= j < k ==> Dealt(b, k, j) > Dealt(a, k, j)
  {
    if b - a >= k {
      forall j | 0 <= j < k ensures Dealt(b, k, j) > Dealt(a, k, j) {
        EveryLapDealsOne(a, k, j);
        DealtMonotone(a + k, b, k, j);
      }
    } else {
      var j := b % k;
      DealtMonotone(a, b, k, j);
      if b + 1 >= k {
        EveryLapDealsOne(b + 1 - k, k, j);
        DealtMonotone(b + 1 - k, a, k, j);
      } else {
        DivModUnique(b, k, 0, b);
        FirstLap(b, k, j);
      }
      assert Dealt(b, k, j) == Dealt(a, k, j);
    }
  }
}
