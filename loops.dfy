/**
 * The shape of a loop that walks a list, lets each element be skipped, turned into one
 * output or raise, and stops at the first exception. `Collect(step, xs)` is what such a
 * loop has produced after `xs`; the lemmas say when it succeeds, which error it reports
 * and exactly which outputs it holds.
 */
module Loops {
  import opened Wrappers
  import opened Seqs

  function Collect<X, Y, E>(step: X -> Result<Option<Y>, E>, xs: seq<X>): (r: Result<seq<Y>, E>)
    ensures r.Ok? ==> |r.value| <= |xs|
    decreases |xs|
  {
    if xs == [] then Ok([])
    else match Collect(step, xs[..|xs| - 1])
      case Err(e) => Err(e)
      case Ok(out) =>
        match step(xs[|xs| - 1])
          case Err(e) => Err(e)
          case Ok(None) => Ok(out)
          case Ok(Some(y)) => Ok(out + [y])
  }

  /** Once a prefix has raised, the whole loop raises the same error. */
  lemma {:induction false} ErrSticks<X, Y, E>(step: X -> Result<Option<Y>, E>, xs: seq<X>, i: nat)
    requires i <= |xs| && Collect(step, xs[..i]).Err?
    ensures Collect(step, xs) == Collect(step, xs[..i])
    decreases |xs| - i
  {
    if i < |xs| {
      assert xs[..i + 1][..i] == xs[..i];
      ErrSticks(step, xs, i + 1);
    } else {
      assert xs[..i] == xs;
    }
  }

  /** The loop succeeds exactly when no element raises. */
  lemma {:induction false} CollectOk<X, Y, E>(step: X -> Result<Option<Y>, E>, xs: seq<X>)
    ensures Collect(step, xs).Ok? <==> forall i :: 0 <= i < |xs| ==> step(xs[i]).Ok?
    decreases |xs|
  {
    if xs != [] {
      var front := xs[..|xs| - 1];
      CollectOk(step, front);
      assert forall i :: 0 <= i < |front| ==> front[i] == xs[i];
    }
  }

  /** A failed loop reports the error of the first element that raises. */
  lemma {:induction false} FirstError<X, Y, E>(step: X -> Result<Option<Y>, E>, xs: seq<X>, e: E)
    requires Collect(step, xs) == Err(e)
    ensures exists i :: (0 <= i < |xs| && step(xs[i]) == Err(e)
      && forall j :: 0 <= j < i ==> step(xs[j]).Ok?)
    decreases |xs|
  {
    var n := |xs| - 1;
    var front := xs[..n];
    assert forall j :: 0 <= j < |front| ==> front[j] == xs[j];
    if Collect(step, front).Err? {
      FirstError(step, front, e);
      var i :| 0 <= i < |front| && step(front[i]) == Err(e)
        && forall j :: 0 <= j < i ==> step(front[j]).Ok?;
      assert step(xs[i]) == Err(e);
    } else {
      CollectOk(step, front);
      assert step(xs[n]) == Err(e);
    }
  }

  /** Every output comes from some element. */
  lemma {:induction false} OutputSound<X, Y, E>(step: X -> Result<Option<Y>, E>, xs: seq<X>, out: seq<Y>, y: Y)
    requires Collect(step, xs) == Ok(out) && y in out
    ensures exists i :: 0 <= i < |xs| && step(xs[i]) == Ok(Some(y))
    decreases |xs|
  {
    var n := |xs| - 1;
    var front := xs[..n];
    var prev := Collect(step, front).value;
    if y in prev {
      OutputSound(step, front, prev, y);
      var i :| 0 <= i < |front| && step(front[i]) == Ok(Some(y));
      assert front[i] == xs[i];
    } else {
      assert step(xs[n]) == Ok(Some(y));
    }
  }

  /** Every output some element produces is kept. */
  lemma {:induction false} OutputComplete<X, Y, E>(step: X -> Result<Option<Y>, E>, xs: seq<X>, out: seq<Y>, i: nat, y: Y)
    requires Collect(step, xs) == Ok(out) && i < |xs| && step(xs[i]) == Ok(Some(y))
    ensures y in out
    decreases |xs|
  {
    var n := |xs| - 1;
    var front := xs[..n];
    var prev := Collect(step, front).value;
    if i < n {
      assert front[i] == xs[i];
      OutputComplete(step, front, prev, i, y);
    }
  }

  /**
   * A successful loop holds exactly one output per element that produces one, in the same
   * order; `emits` is any test that picks out those elements.
   */
  lemma {:induction false} Outputs<X, Y, E>(step: X -> Result<Option<Y>, E>, emits: X -> bool, xs: seq<X>, out: seq<Y>)
    requires Collect(step, xs) == Ok(out)
    requires forall i :: 0 <= i < |xs| ==> emits(xs[i]) == (step(xs[i]).Ok? && step(xs[i]).value.Some?)
    ensures var es := Filter(emits, xs);
      |out| == |es| && forall i :: 0 <= i < |es| ==> step(es[i]) == Ok(Some(out[i]))
    decreases |xs|
  {
    if xs != [] {
      var front := xs[..|xs| - 1];
      assert forall i :: 0 <= i < |front| ==> front[i] == xs[i];
      Outputs(step, emits, front, Collect(step, front).value);
    }
  }

  /** The outputs come in the order of the elements that produced them. */
  lemma {:induction false} InOrder<X, Y, E>(step: X -> Result<Option<Y>, E>, xs: seq<X>, out: seq<Y>, i: nat, j: nat)
    requires Collect(step, xs) == Ok(out) && i < j < |xs|
    requires step(xs[i]).Ok? && step(xs[i]).value.Some?
    requires step(xs[j]).Ok? && step(xs[j]).value.Some?
    ensures exists p, q :: (0 <= p < q < |out| && out[p] == step(xs[i]).value.value
      && out[q] == step(xs[j]).value.value)
    decreases |xs|
  {
    var n := |xs| - 1;
    var front := xs[..n];
    var prev := Collect(step, front).value;
    assert front[i] == xs[i];
    if j < n {
      assert front[j] == xs[j];
      InOrder(step, front, prev, i, j);
      var p, q :| 0 <= p < q < |prev| && prev[p] == step(xs[i]).value.value
        && prev[q] == step(xs[j]).value.value;
      assert out[..|prev|] == prev;
    } else {
      OutputComplete(step, front, prev, i, step(xs[i]).value.value);
      var p :| 0 <= p < |prev| && prev[p] == step(xs[i]).value.value;
      assert out == prev + [step(xs[j]).value.value];
      assert out[p] == prev[p] && out[|prev|] == step(xs[j]).value.value;
    }
  }
}
