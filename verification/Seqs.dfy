/** Concatenation of pieces, shared by the readers that collect pages. */
module Seqs {

  function Concat<T>(parts: seq<seq<T>>): (all: seq<T>) {
    if parts == [] then [] else Concat(parts[..|parts| - 1]) + parts[|parts| - 1]
  }

  lemma ConcatAppend<T>(parts: seq<seq<T>>, part: seq<T>)
    ensures Concat(parts + [part]) == Concat(parts) + part
  {
    assert (parts + [part])[..|parts|] == parts;
  }

  /** A machine run over its inputs from first to last. */
  function Fold<S, T>(step: (S, T) -> S, s: S, inputs: seq<T>): (r: S) {
    if inputs == [] then s else step(Fold(step, s, inputs[..|inputs| - 1]), inputs[|inputs| - 1])
  }

  lemma FoldLast<S, T>(step: (S, T) -> S, s: S, front: seq<T>, last: T)
    ensures Fold(step, s, front + [last]) == step(Fold(step, s, front), last)
  {
    assert (front + [last])[..|front|] == front;
  }

  /** A run may be interrupted and resumed. */
  lemma {:induction false} FoldConcat<S, T>(step: (S, T) -> S, s: S, a: seq<T>, b: seq<T>)
    ensures Fold(step, s, a + b) == Fold(step, Fold(step, s, a), b)
    decreases |b|
  {
    if b == [] {
      assert a + b == a;
    } else {
      var front, last := b[..|b| - 1], b[|b| - 1];
      FoldConcat(step, s, a, front);
      assert a + b == (a + front) + [last] && b == front + [last];
      FoldLast(step, s, a + front, last);
      FoldLast(step, Fold(step, s, a), front, last);
    }
  }
}
