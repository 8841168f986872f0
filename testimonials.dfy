/** The testimonials carousel of the home page: the slide shown, the direction of the last move,
    and the buttons, indicators and autoplay that change them. */
module Testimonials {

  /** One step forward, `(i + 1) % n`. */
  function Forward(i: int, n: int): (r: int)
    requires 0 <= i < n
    ensures 0 <= r < n
    ensures r == if i == n - 1 then 0 else i + 1
  {
    (i + 1) % n
  }

  /** One step back, `(i - 1 + n) % n`: from the first slide to the last. */
  function Back(i: int, n: int): (r: int)
    requires 0 <= i < n
    ensures 0 <= r < n
    ensures r == if i == 0 then n - 1 else i - 1
  {
    (i - 1 + n) % n
  }

  /** The next and previous buttons undo each other. */
  lemma BackUndoesForward(i: int, n: int)
    requires 0 <= i < n
    ensures Back(Forward(i, n), n) == i
    ensures Forward(Back(i, n), n) == i
  {
  }

  /** The slide reached after `k` steps forward. */
  function Steps(i: int, n: int, k: nat): (r: int)
    requires 0 <= i < n
    ensures 0 <= r < n
  {
    if k == 0 then i else Forward(Steps(i, n, k - 1), n)
  }

  /** A multiple of `n` strictly between `-n` and `n` is 0. */
  lemma SmallMultiple(d: int, n: int)
    requires n > 0 && -n < d * n < n
    ensures d == 0
  {
  }

  /** The remainder is the `r` of any `q * n + r` with `0 <= r < n`. */
  lemma ModUnique(x: int, n: int, q: int, r: int)
    requires n > 0 && 0 <= r < n && x == q * n + r
    ensures x % n == r
  {
    var q', r' := x / n, x % n;
    assert (q - q') * n == r' - r;
    SmallMultiple(q - q', n);
  }

  /** Taking `n` away leaves the remainder as it was. */
  lemma ModMinus(x: int, n: int)
    requires 0 < n <= x
    ensures x % n == (x - n) % n
  {
    var q, r := (x - n) / n, (x - n) % n;
    assert x == (q + 1) * n + r;
    ModUnique(x, n, q + 1, r);
  }

  /** One step forward from the remainder of `x` is the remainder of `x + 1`. */
  lemma {:induction false} ForwardMod(x: nat, n: int)
    requires n > 0
    ensures Forward(x % n, n) == (x + 1) % n
    decreases x
  {
    if x >= n {
      ModMinus(x, n);
      ModMinus(x + 1, n);
      ForwardMod(x - n, n);
    }
  }

  /** `k` steps forward land on `(i + k) % n`. */
  lemma {:induction false} StepsWrap(i: int, n: int, k: nat)
    requires 0 <= i < n
    ensures Steps(i, n, k) == (i + k) % n
  {
    if k > 0 {
      StepsWrap(i, n, k - 1);
      ForwardMod(i + k - 1, n);
    }
  }

  /** Autoplay comes back to the slide it started from after as many ticks as there are slides. */
  lemma FullCycle(i: int, n: int)
    requires 0 <= i < n
    ensures Steps(i, n, n) == i
  {
    StepsWrap(i, n, n);
    ModUnique(i + n, n, 1, i);
  }

  /** Every slide is reached from any other within fewer ticks than there are slides. */
  lemma EverySlideReached(i: int, j: int, n: int)
    requires 0 <= i < n && 0 <= j < n
    ensures var k := if j >= i then j - i else j - i + n;
      k < n && Steps(i, n, k) == j
  {
    var k := if j >= i then j - i else j - i + n;
    StepsWrap(i, n, k);
    if j >= i {
      ModUnique(i + k, n, 0, j);
    } else {
      ModUnique(i + k, n, 1, j);
    }
  }

  /** Autoplay runs only when there is more than one testimonial. */
  predicate Autoplays(count: int) {
    count > 1
  }

  /** The carousel's state: the number of testimonials loaded, `currentIndex` and `direction`. */
  class Carousel {
    var count: nat
    var index: int
    var direction: int

    /** The slide shown is a slide of the list (the first one while the list is empty). */
    ghost predicate Valid()
      reads this
    {
      0 <= index && (count > 0 ==> index < count)
    }

    /** The state before the testimonials are fetched. */
    constructor()
      ensures count == 0 && index == 0 && direction == 0
      ensures Valid()
    {
      count := 0;
      index := 0;
      direction := 0;
    }

    /** The fetched list arrives; the carousel is still on its first slide, since no control is
        shown while the list is empty. */
    method Load(n: nat)
      requires Valid() && index == 0
      modifies this`count
      ensures count == n && index == 0 && direction == old(direction)
      ensures Valid()
    {
      count := n;
    }

    /** `paginate(d)` from the arrow buttons or a swipe, which are shown only once some testimonial
        is listed: the direction becomes `d`, and the slide moves one step forward for 1 and one
        step back for anything else. */
    method Paginate(d: int)
      requires Valid() && count > 0
      modifies this`index, this`direction
      ensures direction == d
      ensures index == if d == 1 then Forward(old(index), count) else Back(old(index), count)
      ensures Valid()
    {
      direction := d;
      if d == 1 {
        index := (index + 1) % count;
      } else {
        index := (index - 1 + count) % count;
      }
    }

    /** One tick of the autoplay interval, which exists only for more than one testimonial: the
        direction becomes 1 and the slide moves one step forward. */
    method Tick()
      requires Valid() && Autoplays(count)
      modifies this`index, this`direction
      ensures direction == 1 && index == Forward(old(index), count)
      ensures Valid()
    {
      direction := 1;
      index := (index + 1) % count;
    }

    /** `goToSlide(target)` from an indicator: the direction is 1 when the target lies after the
        current slide and -1 otherwise, the current slide included. */
    method GoToSlide(target: int)
      requires Valid() && 0 <= target < count
      modifies this`index, this`direction
      ensures direction == (if target > old(index) then 1 else -1)
      ensures index == target
      ensures Valid()
    {
      direction := if target > index then 1 else -1;
      index := target;
    }
  }
}
