/** The home-page card carousel: an index into a fixed list of cards, moved by the arrows,
    the dots and the timer. The fade and the delay before each move are not modelled. */
module CardCarousel {

  datatype Card = Card(title: string, description: string, content: string)

  const Cards := [
    Card("Find Events", "Discover exciting events near you",
         "Browse through events happening in the Carolinian Community."),
    Card("Create Events", "Host your own events",
         "Easily create and manage your own events with our simple tools."),
    Card("Connect", "Meet new people",
         "Connect with like-minded individuals in your community.")
  ]

  /** A multiple of `b` strictly between `-b` and `b` is zero. */
  lemma SmallMultipleIsZero(k: int, b: int)
    requires b > 0 && -b < b * k < b
    ensures k == 0
  {
  }

  /** `x % b` is the one remainder in `[0, b)` that `x` leaves on division by `b`. */
  lemma RemainderUnique(x: int, b: int, d: int, m: int)
    requires b > 0 && 0 <= m < b && x == b * d + m
    ensures x % b == m
  {
    assert x == b * (x / b) + x % b;
    assert b * (d - x / b) == x % b - m;
    SmallMultipleIsZero(d - x / b, b);
  }

  /** JavaScript's `a % b` for `b > 0`: `a` less a multiple of `b`, with the sign of `a`
      and a magnitude below `b`. */
  function JsRem(a: int, b: int): (r: int)
    requires b > 0
    ensures (a - r) % b == 0
    ensures a >= 0 ==> 0 <= r < b
    ensures a < 0 ==> -b < r <= 0
  {
    if a >= 0 then
      assert a == b * (a / b) + a % b;
      RemainderUnique(a - a % b, b, a / b, 0);
      a % b
    else
      assert -a == b * ((-a) / b) + (-a) % b;
      RemainderUnique(a + (-a) % b, b, -((-a) / b), 0);
      -((-a) % b)
  }

  lemma ModBelow(a: int, b: int)
    requires 0 <= a < b
    ensures a % b == a
  {
  }

  lemma ModOneRound(j: int, b: int)
    requires 0 <= j < b
    ensures (b + j) % b == j
  {
  }

  /** `(prev + 1) % cards.length`. */
  function NextIndex(i: int, n: int): (r: int)
    requires n > 0
    ensures 0 <= i < n ==> 0 <= r < n && (r == i + 1 || (i == n - 1 && r == 0))
  {
    assert 0 <= i < n ==> JsRem(i + 1, n) == if i == n - 1 then 0 else i + 1 by {
      if 0 <= i < n - 1 {
        ModBelow(i + 1, n);
      } else if i == n - 1 {
        ModOneRound(0, n);
      }
    }
    JsRem(i + 1, n)
  }

  /** `(prev - 1 + cards.length) % cards.length`. */
  function PrevIndex(i: int, n: int): (r: int)
    requires n > 0
    ensures 0 <= i < n ==> 0 <= r < n && (r == i - 1 || (i == 0 && r == n - 1))
  {
    assert 0 <= i < n ==> JsRem(i - 1 + n, n) == if i == 0 then n - 1 else i - 1 by {
      if i == 0 {
        ModBelow(n - 1, n);
      } else if 0 < i < n {
        ModOneRound(i - 1, n);
        assert i - 1 + n == n + (i - 1);
      }
    }
    JsRem(i - 1 + n, n)
  }

  /** Going back after going forward returns to the same card, and the reverse. */
  lemma PrevUndoesNext(i: int, n: int)
    requires n > 0 && 0 <= i < n
    ensures PrevIndex(NextIndex(i, n), n) == i
    ensures NextIndex(PrevIndex(i, n), n) == i
  {
  }

  /** `k` steps forward. */
  function Forward(i: int, n: int, k: nat): (r: int)
    requires n > 0
  {
    if k == 0 then i else NextIndex(Forward(i, n, k - 1), n)
  }

  /** Steps forward add up: `a` steps and then `b` steps are `a + b` steps. */
  lemma {:induction false} ForwardAdds(i: int, n: int, a: nat, b: nat)
    requires n > 0
    ensures Forward(Forward(i, n, a), n, b) == Forward(i, n, a + b)
  {
    if b > 0 {
      ForwardAdds(i, n, a, b - 1);
    }
  }

  /** Before the wrap, `k` steps forward add `k` to the index. */
  lemma {:induction false} ForwardBeforeWrap(i: int, n: int, k: nat)
    requires n > 0 && 0 <= i && i + k < n
    ensures Forward(i, n, k) == i + k
  {
    if k > 0 {
      ForwardBeforeWrap(i, n, k - 1);
    }
  }

  /** Going forward once per card comes back to the starting card. */
  lemma FullCycle(i: int, n: int)
    requires n > 0 && 0 <= i < n
    ensures Forward(i, n, n) == i
  {
    ForwardBeforeWrap(i, n, n - 1 - i);
    assert Forward(i, n, n - i) == 0;
    ForwardAdds(i, n, n - i, i);
    if i > 0 {
      ForwardBeforeWrap(0, n, i);
    }
  }

  /** The carousel's `index` state. */
  class Carousel {
    var index: int

    /** The index names a card. */
    predicate Valid()
      reads this
    {
      0 <= index < |Cards|
    }

    /** `useState(0)`. */
    constructor ()
      ensures Valid() && index == 0
    {
      index := 0;
    }

    /** The shown card. */
    function Current(): Card
      reads this
      requires Valid()
    {
      Cards[index]
    }

    /** The right arrow and the five-second timer. */
    method Next()
      requires Valid()
      modifies this
      ensures Valid() && index == NextIndex(old(index), |Cards|)
    {
      index := (index + 1) % |Cards|;
    }

    /** The left arrow. */
    method Prev()
      requires Valid()
      modifies this
      ensures Valid() && index == PrevIndex(old(index), |Cards|)
    {
      index := (index - 1 + |Cards|) % |Cards|;
    }

    /** A dot: jump to card `i`; only the dots' own indices keep the index in range. */
    method GoTo(i: int)
      modifies this
      ensures index == i
      ensures 0 <= i < |Cards| ==> Valid()
    {
      index := i;
    }
  }
}
