/**
 * The home-page image carousel's index arithmetic: three slides, a next and a
 * previous step that wrap around, a timer tick that is a next step, and a jump
 * to a chosen dot. Rendering and the five-second timer are not modelled.
 */
module Carousel {
  /** `images.length`. */
  const Slides: int := 3

  /** The carousel's state invariant: the current index names a slide. */
  predicate InRange(i: int) { 0 <= i < Slides }

  /** The quotient of a division truncated toward zero. */
  function JsQuot(a: int, n: int): int
    requires n > 0
  {
    if a >= 0 then a / n else -((-a) / n)
  }

  /**
   * JavaScript's `%`, which truncates toward zero: the remainder takes the sign
   * of the dividend, unlike Dafny's Euclidean `%`.
   */
  function JsRem(a: int, n: int): (r: int)
    requires n > 0
    ensures a == JsQuot(a, n) * n + r
    ensures a >= 0 ==> 0 <= r < n
    ensures a < 0 ==> -n < r <= 0
  {
    if a >= 0 then a % n else -((-a) % n)
  }

  /** `nextSlide` and the timer tick: one slide forward, from the last back to the first. */
  function Next(i: int): (r: int)
    ensures InRange(i) ==> InRange(r)
    ensures InRange(i) && i < Slides - 1 ==> r == i + 1
    ensures i == Slides - 1 ==> r == 0
  {
    JsRem(i + 1, Slides)
  }

  /** `prevSlide`: one slide back, from the first to the last. */
  function Prev(i: int): (r: int)
    ensures InRange(i) ==> InRange(r)
    ensures InRange(i) && i > 0 ==> r == i - 1
    ensures i == 0 ==> r == Slides - 1
  {
    JsRem(i - 1 + Slides, Slides)
  }

  /** `goToSlide`: the index becomes exactly the chosen one. */
  function GoTo(i: int, index: int): (r: int)
    ensures r == index
  {
    index
  }

  /** A step back undoes a step forward, and a step forward undoes a step back. */
  lemma PrevNextInverse(i: int)
    requires InRange(i)
    ensures Prev(Next(i)) == i
    ensures Next(Prev(i)) == i
  {
  }

  /** `k` steps forward. */
  function Forward(k: nat, i: int): int
  {
    if k == 0 then i else Next(Forward(k - 1, i))
  }

  /** `k` steps forward from a slide land on the slide `k` places later, counted round the ring. */
  lemma {:induction false} ForwardIsRotation(k: nat, i: int)
    requires InRange(i)
    ensures Forward(k, i) == (i + k) % Slides
  {
    if k > 0 {
      ForwardIsRotation(k - 1, i);
      var j := Forward(k - 1, i);
      assert j == (i + k - 1) % Slides;
      assert (i + k) % Slides == (j + 1) % Slides;
    }
  }

  /** As many steps forward as there are slides come back to the start. */
  lemma ForwardAllTheWay(i: int)
    requires InRange(i)
    ensures Forward(Slides, i) == i
  {
    ForwardIsRotation(Slides, i);
  }
}
