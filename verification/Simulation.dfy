/** Infinite runs of step relations, and when one relation follows another. */
module Simulation {
  import opened Formulas

  /** From the first place on, every position of the word goes on to the next place. */
  ghost predicate Loops<A(!new)>(step: (A, State, A, bool) -> bool, first: A, at: nat -> A, accepts: nat -> bool,
                                 w: Word) {
    forall i: nat :: LoopsAt(step, first, at, accepts, w, i)
  }

  predicate LoopsAt<A(!new)>(step: (A, State, A, bool) -> bool, first: A, at: nat -> A, accepts: nat -> bool, w: Word,
                             i: nat) {
    step(if i == 0 then first else at(i - 1), w(i), at(i), accepts(i))
  }

  /** From the places inside, every step stays inside, and the images are a step of the other relation. */
  ghost predicate Carries<A(!new), B(!new)>(step: (A, State, A, bool) -> bool, other: (B, State, B, bool) -> bool,
                                            inside: A -> bool, image: A -> B) {
    forall a: A, s: State, b: A, accept: bool :: CarriesAt(step, other, inside, image, a, s, b, accept)
  }

  predicate CarriesAt<A(!new), B(!new)>(step: (A, State, A, bool) -> bool, other: (B, State, B, bool) -> bool,
                                        inside: A -> bool, image: A -> B, a: A, s: State, b: A, accept: bool) {
    inside(a) && step(a, s, b, accept) ==> inside(b) && other(image(a), s, image(b), accept)
  }

  ghost predicate Images<A(!new), B(!new)>(image: A -> B, at: nat -> A, to: nat -> B) {
    forall i: nat :: IsImage(image, at, to, i)
  }

  ghost predicate IsImage<A(!new), B(!new)>(image: A -> B, at: nat -> A, to: nat -> B, i: nat) {
    to(i) == image(at(i))
  }

  lemma {:induction false} StaysInside<A(!new), B(!new)>(
    step: (A, State, A, bool) -> bool, other: (B, State, B, bool) -> bool, inside: A -> bool, image: A -> B,
    first: A, at: nat -> A, to: nat -> B, accepts: nat -> bool, w: Word, i: nat)
    requires Carries(step, other, inside, image) && Images(image, at, to)
    requires inside(first) && Loops(step, first, at, accepts, w)
    ensures inside(at(i)) && LoopsAt(other, image(first), to, accepts, w, i)
  {
    if i > 0 { StaysInside(step, other, inside, image, first, at, to, accepts, w, i - 1); }
    var a := if i == 0 then first else at(i - 1);
    assert LoopsAt(step, first, at, accepts, w, i);
    assert CarriesAt(step, other, inside, image, a, w(i), at(i), accepts(i));
    assert IsImage(image, at, to, i) && (i > 0 ==> IsImage(image, at, to, i - 1));
  }

  /** An infinite run is carried over. */
  lemma LoopCarries<A(!new), B(!new)>(
    step: (A, State, A, bool) -> bool, other: (B, State, B, bool) -> bool, inside: A -> bool, image: A -> B,
    first: A, at: nat -> A, to: nat -> B, accepts: nat -> bool, w: Word)
    requires Carries(step, other, inside, image) && Images(image, at, to)
    requires inside(first) && Loops(step, first, at, accepts, w)
    ensures Loops(other, image(first), to, accepts, w) && forall i: nat :: inside(at(i))
  {
    forall i: nat ensures inside(at(i)) && LoopsAt(other, image(first), to, accepts, w, i) {
      StaysInside(step, other, inside, image, first, at, to, accepts, w, i);
    }
  }
}
