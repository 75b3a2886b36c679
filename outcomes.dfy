/** Running steps that may throw one after another, as JavaScript statements
    do: each step either produces a value or throws, and a throw ends the run,
    keeping what the earlier steps produced. */
module Outcomes {
  import opened Values

  /** The values produced so far, and the exception thrown if any. */
  datatype Outcome<+T> = Outcome(values: seq<T>, thrown: Option<TypeError>)

  /** One piece of work after another: once the first throws, the second
      never runs. */
  function Then<T>(first: Outcome<T>, second: Outcome<T>): Outcome<T> {
    if first.thrown.Some? then first else Outcome(first.values + second.values, second.thrown)
  }

  /** The outcome of a single step. */
  function Step<T>(r: Result<T>): Outcome<T> {
    match r
    case Ok(v) => Outcome([v], None)
    case Err(e) => Outcome([], Some(e))
  }

  /** The steps in order, one after another. */
  function Collect<T>(rs: seq<Result<T>>): Outcome<T> {
    if rs == [] then Outcome([], None)
    else Then(Collect(rs[..|rs| - 1]), Step(rs[|rs| - 1]))
  }

  /** A single step on its own. */
  lemma CollectOne<T>(r: Result<T>)
    ensures Collect([r]) == Step(r)
  {
    assert [r][..0] == [];
  }

  lemma ThenAssociative<T>(a: Outcome<T>, b: Outcome<T>, c: Outcome<T>)
    ensures Then(Then(a, b), c) == Then(a, Then(b, c))
  {
  }

  /** Running `a ++ b` is running `a`, then `b`. */
  lemma {:induction false} CollectAppend<T>(a: seq<Result<T>>, b: seq<Result<T>>)
    ensures Collect(a + b) == Then(Collect(a), Collect(b))
    decreases |b|
  {
    if b == [] {
      assert a + b == a;
    } else {
      var n := |b| - 1;
      var b' := b[..n];
      assert (a + b)[..|a + b| - 1] == a + b';
      assert (a + b)[|a + b| - 1] == b[n];
      CollectAppend(a, b');
      ThenAssociative(Collect(a), Collect(b'), Step(b[n]));
    }
  }

  /** What running the steps amounts to: the values of the steps before the
      first one that throws, in order, and then that exception; or every
      step's value when none throws. */
  lemma {:induction false} CollectSteps<T>(rs: seq<Result<T>>)
    ensures |Collect(rs).values| <= |rs|
    ensures forall k :: 0 <= k < |Collect(rs).values| ==> rs[k] == Ok(Collect(rs).values[k])
    ensures Collect(rs).thrown.None? ==> |Collect(rs).values| == |rs|
    ensures Collect(rs).thrown.Some? ==>
              |Collect(rs).values| < |rs| && rs[|Collect(rs).values|] == Err(Collect(rs).thrown.value)
    decreases |rs|
  {
    if rs != [] {
      var n := |rs| - 1;
      var prefix := rs[..n];
      CollectSteps(prefix);
      assert forall k :: 0 <= k < n ==> rs[k] == prefix[k];
    }
  }

  /** What a caller holds after a step that follows steps which did not
      throw: everything held before, then what the steps and that step
      produced. */
  lemma ThenValues<T>(held: seq<T>, before: Outcome<T>, step: Outcome<T>)
    requires before.thrown.None?
    ensures held + before.values + step.values == held + Then(before, step).values
    ensures Then(before, step).thrown == step.thrown
  {
    assert held + before.values + step.values == held + (before.values + step.values);
  }

  /** `f` applied to each element in turn. */
  function Map<A, B>(f: A -> B, xs: seq<A>): (ys: seq<B>)
    ensures |ys| == |xs|
    ensures forall i :: 0 <= i < |xs| ==> ys[i] == f(xs[i])
  {
    seq(|xs|, i requires 0 <= i < |xs| => f(xs[i]))
  }

  lemma MapAppend<A, B>(f: A -> B, a: seq<A>, b: seq<A>)
    ensures Map(f, a + b) == Map(f, a) + Map(f, b)
  {
    assert forall i :: 0 <= i < |a + b| ==> Map(f, a + b)[i] == (Map(f, a) + Map(f, b))[i];
  }

  /** After a throw, running more steps changes nothing. */
  lemma ThrownStays<T>(a: seq<Result<T>>, b: seq<Result<T>>)
    requires Collect(a).thrown.Some?
    ensures Collect(a + b) == Collect(a)
  {
    CollectAppend(a, b);
  }
}
