/** The optional value used throughout the model. */
module Options {
  datatype Option<+T> = None | Some(value: T)
}

/**
 Runs of a state machine.  A machine is a partial step function `next`: `next(s, a)` is `None`
 when action `a` is not enabled in state `s`.  Each machine of this project takes one action per
 atomic, map, mutex or channel operation of the program, so a sequence of actions is one
 interleaving of its goroutines.
 */
module Runs {
  import opened Options

  /** The state after the actions in order, or `None` when one of them is not enabled. */
  function Exec<S, A>(next: (S, A) -> Option<S>, s: S, acts: seq<A>): (r: Option<S>)
  {
    if acts == [] then Some(s)
    else match next(s, acts[0])
      case None => None
      case Some(t) => Exec(next, t, acts[1..])
  }

  ghost predicate Reaches<S, A(!new)>(next: (S, A) -> Option<S>, s: S, t: S) {
    exists acts: seq<A> :: Exec(next, s, acts) == Some(t)
  }

  /** What every step keeps holds at the end of every run. */
  lemma {:induction false} Invariant<S(!new), A(!new)>(
      next: (S, A) -> Option<S>, inv: S -> bool, s: S, acts: seq<A>)
    requires inv(s) && Exec(next, s, acts).Some?
    requires forall t: S, a: A :: inv(t) && next(t, a).Some? ==> inv(next(t, a).value)
    ensures inv(Exec(next, s, acts).value)
  {
    if acts != [] {
      Invariant(next, inv, next(s, acts[0]).value, acts[1..]);
    }
  }

  /** Running two action sequences in a row is running their concatenation. */
  lemma {:induction false} Compose<S, A>(
      next: (S, A) -> Option<S>, s: S, front: seq<A>, back: seq<A>)
    requires Exec(next, s, front).Some?
    ensures Exec(next, s, front + back) == Exec(next, Exec(next, s, front).value, back)
  {
    if front == [] {
      assert front + back == back;
    } else {
      assert (front + back)[0] == front[0] && (front + back)[1..] == front[1..] + back;
      Compose(next, next(s, front[0]).value, front[1..], back);
    }
  }

  /** A run is a shorter run and its last step. */
  lemma PrefixRuns<S, A>(next: (S, A) -> Option<S>, s: S, front: seq<A>, last: A)
    requires Exec(next, s, front + [last]).Some?
    ensures Exec(next, s, front).Some?
    ensures Exec(next, s, front + [last]) == next(Exec(next, s, front).value, last)
  {
    if front == [] {
      assert front + [last] == [last] && [last][1..] == [];
    } else {
      assert (front + [last])[0] == front[0] && (front + [last])[1..] == front[1..] + [last];
      PrefixRuns(next, next(s, front[0]).value, front[1..], last);
    }
  }

  lemma Here<S, A(!new)>(next: (S, A) -> Option<S>, s: S)
    ensures Reaches(next, s, s)
  {
    var none: seq<A> := [];
    assert Exec(next, s, none) == Some(s);
  }

  lemma Extend<S, A(!new)>(next: (S, A) -> Option<S>, s: S, t: S, a: A)
    requires Reaches(next, s, t) && next(t, a).Some?
    ensures Reaches(next, s, next(t, a).value)
  {
    var acts: seq<A> :| Exec(next, s, acts) == Some(t);
    Compose(next, s, acts, [a]);
    assert Exec(next, t, [a]) == next(t, a) by {
      assert [a][1..] == [];
    }
    assert Exec(next, s, acts + [a]) == next(t, a);
  }
}

/** Sums of a rank over the members of a sequence: what is left to do by the goroutines together. */
module Totals {
  function Total<T>(rank: T -> nat, xs: seq<T>): nat {
    if xs == [] then 0 else rank(xs[0]) + Total(rank, xs[1..])
  }

  lemma {:induction false} TotalUpdate<T>(rank: T -> nat, xs: seq<T>, i: nat, x: T)
    requires i < |xs|
    ensures Total(rank, xs[i := x]) == Total(rank, xs) - rank(xs[i]) + rank(x)
  {
    if i == 0 {
      assert xs[i := x][1..] == xs[1..];
    } else {
      assert xs[i := x][1..] == xs[1..][i - 1 := x];
      TotalUpdate(rank, xs[1..], i - 1, x);
    }
  }

  lemma {:induction false} TotalAppend<T>(rank: T -> nat, xs: seq<T>, x: T)
    ensures Total(rank, xs + [x]) == Total(rank, xs) + rank(x)
  {
    if xs == [] {
      assert xs + [x] == [x];
    } else {
      assert (xs + [x])[1..] == xs[1..] + [x];
      TotalAppend(rank, xs[1..], x);
    }
  }
}
