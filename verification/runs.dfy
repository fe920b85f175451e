/**
 * A read repeated along the stream: the decoder reads names, descriptors and records
 * as runs of a fixed count, each read starting where the previous one stopped.
 */
module Runs {
  import opened Results

  /** One read: from a position, the item and the position after it, or why there is none. */
  type Step<T> = nat -> Result<(T, nat)>

  /** `n` reads with `step` from `pos` on, in order; the first failure ends the run. */
  function Run<T>(step: Step<T>, pos: nat, n: nat): (r: Result<(seq<T>, nat)>)
    ensures r.Ok? ==> |r.value.0| == n
    decreases n
  {
    if n == 0 then Ok(([], pos))
    else
      var first :- step(pos);
      var rest :- Run(step, first.1, n - 1);
      Ok(([first.0] + rest.0, rest.1))
  }

  /** `step` reads `vs[i]` from `ends[i]` and stops at `ends[i + 1]`, for every item. */
  predicate Reads<T(==)>(step: Step<T>, vs: seq<T>, ends: seq<nat>) {
    |ends| == |vs| + 1 && forall i :: 0 <= i < |vs| ==> Yields(step(ends[i]), vs[i], ends[i + 1])
  }

  /** Items laid out one after the other are read back by the run, which stops after the last. */
  lemma {:induction false} RunReads<T>(step: Step<T>, vs: seq<T>, ends: seq<nat>)
    requires Reads(step, vs, ends)
    ensures Yields(Run(step, ends[0], |vs|), vs, ends[|vs|])
    decreases |vs|
  {
    if vs != [] {
      assert Reads(step, vs[1..], ends[1..]) by {
        forall i | 0 <= i < |vs[1..]| ensures Yields(step(ends[1..][i]), vs[1..][i], ends[1..][i + 1]) {
          assert Yields(step(ends[i + 1]), vs[i + 1], ends[i + 2]);
        }
      }
      RunReads(step, vs[1..], ends[1..]);
      assert Yields(step(ends[0]), vs[0], ends[1]);
      assert [vs[0]] + vs[1..] == vs;
    }
  }

  /** Every read that succeeds stays between where it started and `bound`. */
  ghost predicate Advances<T>(step: Step<T>, bound: nat) {
    forall p: nat :: step(p).Ok? ==> p <= step(p).value.1 <= bound
  }

  /** A run of reads that each advance within `bound` ends within it, and no earlier than it started. */
  lemma {:induction false} RunBounds<T>(step: Step<T>, bound: nat, pos: nat, n: nat)
    requires Advances(step, bound) && pos <= bound
    ensures Run(step, pos, n).Ok? ==> pos <= Run(step, pos, n).value.1 <= bound
    decreases n
  {
    if n > 0 && step(pos).Ok? {
      RunBounds(step, bound, step(pos).value.1, n - 1);
    }
  }

  /** Every read that fails, fails with `e`. */
  ghost predicate FailsWith<T>(step: Step<T>, e: LoadError) {
    forall p: nat :: step(p).Err? ==> step(p).error == e
  }

  /** A run fails only the way its reads fail. */
  lemma {:induction false} RunError<T>(step: Step<T>, e: LoadError, pos: nat, n: nat)
    requires FailsWith(step, e)
    ensures Run(step, pos, n).Err? ==> Run(step, pos, n).error == e
    decreases n
  {
    if n > 0 && step(pos).Ok? {
      RunError(step, e, step(pos).value.1, n - 1);
    }
  }

  /** Every read takes exactly `w` positions, and succeeds exactly when those lie within `bound`. */
  ghost predicate Fixed<T>(step: Step<T>, w: nat, bound: nat) {
    forall p: nat :: (step(p).Ok? <==> p + w <= bound) && (step(p).Ok? ==> step(p).value.1 == p + w)
  }

  /** `n` fixed-width reads succeed exactly when `n` widths fit, and then end `n` widths on. */
  lemma {:induction false} RunFixed<T>(step: Step<T>, w: nat, bound: nat, pos: nat, n: nat)
    requires Fixed(step, w, bound) && pos <= bound
    ensures Run(step, pos, n).Ok? <==> pos + n * w <= bound
    ensures Run(step, pos, n).Ok? ==> Run(step, pos, n).value.1 == pos + n * w
    decreases n
  {
    if n > 0 {
      assert n * w == w + (n - 1) * w && (n - 1) * w >= 0;
      var first := step(pos);
      assert first.Ok? <==> pos + w <= bound;
      if pos + w <= bound {
        assert first.value.1 == pos + w;
        RunFixed(step, w, bound, pos + w, n - 1);
      }
    }
  }

  /** Every read from a position within `bound` succeeds. */
  ghost predicate Total<T>(step: Step<T>, bound: nat) {
    forall p: nat :: p <= bound ==> step(p).Ok?
  }

  /** A run of reads that never fail within `bound`, and stay within it, never fails. */
  lemma {:induction false} RunTotal<T>(step: Step<T>, bound: nat, pos: nat, n: nat)
    requires Total(step, bound) && Advances(step, bound) && pos <= bound
    ensures Run(step, pos, n).Ok?
    decreases n
  {
    if n > 0 {
      assert step(pos).Ok?;
      RunTotal(step, bound, step(pos).value.1, n - 1);
    }
  }

  /** Two readers that succeed together and stop at the same place, whatever they read. */
  ghost predicate SameSpan<T, U>(step1: Step<T>, step2: Step<U>) {
    forall p: nat :: (step1(p).Ok? <==> step2(p).Ok?) && (step1(p).Ok? ==> step1(p).value.1 == step2(p).value.1)
  }

  /** Runs of such readers succeed together and stop at the same place. */
  lemma {:induction false} RunSameSpan<T, U>(step1: Step<T>, step2: Step<U>, pos: nat, n: nat)
    requires SameSpan(step1, step2)
    ensures Run(step1, pos, n).Ok? <==> Run(step2, pos, n).Ok?
    ensures Run(step1, pos, n).Ok? ==> Run(step1, pos, n).value.1 == Run(step2, pos, n).value.1
    decreases n
  {
    if n > 0 && step1(pos).Ok? {
      RunSameSpan(step1, step2, step1(pos).value.1, n - 1);
    }
  }

  /** A reader that either reads what `step2` reads or fails with `e`. */
  ghost predicate AgreesOrFails<T>(step1: Step<T>, step2: Step<T>, e: LoadError) {
    forall p: nat :: step1(p) == step2(p) || step1(p) == Err(e)
  }

  /** A run of such a reader is the run of `step2`, or fails with `e`. */
  lemma {:induction false} RunAgreesOrFails<T>(step1: Step<T>, step2: Step<T>, e: LoadError, pos: nat, n: nat)
    requires AgreesOrFails(step1, step2, e)
    ensures Run(step1, pos, n) == Run(step2, pos, n) || Run(step1, pos, n) == Err(e)
    decreases n
  {
    if n > 0 && step1(pos) == step2(pos) && step2(pos).Ok? {
      RunAgreesOrFails(step1, step2, e, step2(pos).value.1, n - 1);
    }
  }

  /**
   * Wherever `step2` reads an item, `step1` reads the same when `good` accepts the item
   * and fails with `e` when it does not.
   */
  ghost predicate SplitsOn<T>(step1: Step<T>, step2: Step<T>, good: T -> bool, e: LoadError) {
    forall p: nat :: step2(p).Ok? ==> step1(p) == if good(step2(p).value.0) then step2(p) else Err(e)
  }

  /** A run that `step2` completes is also `step1`'s exactly when `good` accepts every item, and fails with `e` otherwise. */
  lemma {:induction false} RunSplitsOn<T>(step1: Step<T>, step2: Step<T>, good: T -> bool, e: LoadError, pos: nat, n: nat)
    requires SplitsOn(step1, step2, good, e) && Run(step2, pos, n).Ok?
    ensures Run(step1, pos, n) ==
      if forall i :: 0 <= i < n ==> good(Run(step2, pos, n).value.0[i]) then Run(step2, pos, n) else Err(e)
    decreases n
  {
    if n > 0 {
      var first := step2(pos).value;
      var items := Run(step2, pos, n).value.0;
      var rest := Run(step2, first.1, n - 1);
      assert items == [first.0] + rest.value.0;
      RunSplitsOn(step1, step2, good, e, first.1, n - 1);
      if good(first.0) {
        assert (forall i :: 0 <= i < n ==> good(items[i])) <==> (forall i :: 0 <= i < n - 1 ==> good(rest.value.0[i])) by {
          if forall i :: 0 <= i < n - 1 ==> good(rest.value.0[i]) {
            forall i | 0 <= i < n ensures good(items[i]) {
              if i > 0 {
                assert items[i] == rest.value.0[i - 1];
              }
            }
          }
          if forall i :: 0 <= i < n ==> good(items[i]) {
            forall i | 0 <= i < n - 1 ensures good(rest.value.0[i]) {
              assert items[i + 1] == rest.value.0[i];
            }
          }
        }
      } else {
        assert !good(items[0]);
      }
    }
  }

  // ---- Runs driven by a sequence of parameters ----

  /**
   * One read per parameter: `step(ps[0])` from `pos`, `step(ps[1])` from where that
   * one stopped, and so on; the first failure ends the run.
   */
  function RunOver<P, T>(step: P -> Step<T>, ps: seq<P>, pos: nat): (r: Result<(seq<T>, nat)>)
    ensures r.Ok? ==> |r.value.0| == |ps|
    decreases |ps|
  {
    if ps == [] then Ok(([], pos))
    else
      var first :- step(ps[0])(pos);
      var rest :- RunOver(step, ps[1..], first.1);
      Ok(([first.0] + rest.0, rest.1))
  }

  /** `step(ps[i])` reads `vs[i]` from `ends[i]` and stops at `ends[i + 1]`, for every parameter. */
  predicate ReadsOver<P, T(==)>(step: P -> Step<T>, ps: seq<P>, vs: seq<T>, ends: seq<nat>) {
    && |vs| == |ps| && |ends| == |ps| + 1
    && forall i :: 0 <= i < |ps| ==> Yields(step(ps[i])(ends[i]), vs[i], ends[i + 1])
  }

  /** Items laid out one after the other are read back by the run, which stops after the last. */
  lemma {:induction false} RunOverReads<P, T>(step: P -> Step<T>, ps: seq<P>, vs: seq<T>, ends: seq<nat>)
    requires ReadsOver(step, ps, vs, ends)
    ensures Yields(RunOver(step, ps, ends[0]), vs, ends[|ps|])
    decreases |ps|
  {
    if ps != [] {
      assert ReadsOver(step, ps[1..], vs[1..], ends[1..]) by {
        forall i | 0 <= i < |ps[1..]| ensures Yields(step(ps[1..][i])(ends[1..][i]), vs[1..][i], ends[1..][i + 1]) {
          assert Yields(step(ps[i + 1])(ends[i + 1]), vs[i + 1], ends[i + 2]);
        }
      }
      RunOverReads(step, ps[1..], vs[1..], ends[1..]);
      assert Yields(step(ps[0])(ends[0]), vs[0], ends[1]);
      assert [vs[0]] + vs[1..] == vs;
    }
  }

  /** A successful run is one successful read per parameter, each starting where the previous one stopped. */
  lemma {:induction false} RunOverSplits<P, T>(step: P -> Step<T>, ps: seq<P>, pos: nat) returns (ends: seq<nat>)
    requires RunOver(step, ps, pos).Ok?
    ensures ReadsOver(step, ps, RunOver(step, ps, pos).value.0, ends)
    ensures ends[0] == pos && ends[|ps|] == RunOver(step, ps, pos).value.1
    decreases |ps|
  {
    if ps == [] {
      ends := [pos];
    } else {
      var first := step(ps[0])(pos).value;
      var vs := RunOver(step, ps, pos).value.0;
      var rest := RunOverSplits(step, ps[1..], first.1);
      ends := [pos] + rest;
      assert vs == [first.0] + RunOver(step, ps[1..], first.1).value.0;
      forall i | 0 <= i < |ps| ensures Yields(step(ps[i])(ends[i]), vs[i], ends[i + 1]) {
        if i > 0 {
          assert ps[i] == ps[1..][i - 1] && vs[i] == RunOver(step, ps[1..], first.1).value.0[i - 1];
        }
      }
    }
  }

  /** Every read that succeeds, for any parameter, stays between where it started and `bound`. */
  ghost predicate AdvancesOver<P(!new), T>(step: P -> Step<T>, bound: nat) {
    forall p, pos: nat :: step(p)(pos).Ok? ==> pos <= step(p)(pos).value.1 <= bound
  }

  /** A run of reads that each advance within `bound` ends within it, and no earlier than it started. */
  lemma {:induction false} RunOverBounds<P(!new), T>(step: P -> Step<T>, bound: nat, ps: seq<P>, pos: nat)
    requires AdvancesOver(step, bound) && pos <= bound
    ensures RunOver(step, ps, pos).Ok? ==> pos <= RunOver(step, ps, pos).value.1 <= bound
    decreases |ps|
  {
    if ps != [] && step(ps[0])(pos).Ok? {
      RunOverBounds(step, bound, ps[1..], step(ps[0])(pos).value.1);
    }
  }

  /**
   * Two readers that, for every parameter and position, succeed together, stop at
   * the same place, and read items related by `agree`.
   */
  ghost predicate SameEnds<P(!new), T, U>(step1: P -> Step<T>, step2: P -> Step<U>, agree: (T, U) -> bool) {
    forall p, pos: nat ::
      && (step1(p)(pos).Ok? <==> step2(p)(pos).Ok?)
      && (step1(p)(pos).Ok? ==> step1(p)(pos).value.1 == step2(p)(pos).value.1 && agree(step1(p)(pos).value.0, step2(p)(pos).value.0))
  }

  /** Runs of such readers over the same parameters succeed together, stop at the same place, and agree item by item. */
  lemma {:induction false} RunOverSameEnds<P(!new), T, U>(step1: P -> Step<T>, step2: P -> Step<U>, agree: (T, U) -> bool, ps: seq<P>, pos: nat)
    requires SameEnds(step1, step2, agree)
    ensures RunOver(step1, ps, pos).Ok? <==> RunOver(step2, ps, pos).Ok?
    ensures RunOver(step1, ps, pos).Ok? ==>
      && RunOver(step1, ps, pos).value.1 == RunOver(step2, ps, pos).value.1
      && forall i :: 0 <= i < |ps| ==> agree(RunOver(step1, ps, pos).value.0[i], RunOver(step2, ps, pos).value.0[i])
    decreases |ps|
  {
    if ps != [] && step1(ps[0])(pos).Ok? {
      var first1, first2 := step1(ps[0])(pos).value, step2(ps[0])(pos).value;
      assert first1.1 == first2.1 && agree(first1.0, first2.0);
      RunOverSameEnds(step1, step2, agree, ps[1..], first1.1);
      if RunOver(step1, ps, pos).Ok? {
        var rest1, rest2 := RunOver(step1, ps[1..], first1.1).value.0, RunOver(step2, ps[1..], first1.1).value.0;
        assert RunOver(step1, ps, pos).value.0 == [first1.0] + rest1;
        assert RunOver(step2, ps, pos).value.0 == [first2.0] + rest2;
      }
    }
  }

  /** Two readers that read the same for every parameter of `ps`, from every position. */
  ghost predicate SameOn<P, T>(step1: P -> Step<T>, step2: P -> Step<T>, ps: seq<P>) {
    forall i, pos: nat :: 0 <= i < |ps| ==> step1(ps[i])(pos) == step2(ps[i])(pos)
  }

  /** Runs of such readers over `ps` are the same run. */
  lemma {:induction false} RunOverSameOn<P, T>(step1: P -> Step<T>, step2: P -> Step<T>, ps: seq<P>, pos: nat)
    requires SameOn(step1, step2, ps)
    ensures RunOver(step1, ps, pos) == RunOver(step2, ps, pos)
    decreases |ps|
  {
    if ps != [] {
      assert step1(ps[0])(pos) == step2(ps[0])(pos);
      assert SameOn(step1, step2, ps[1..]) by {
        forall i, p: nat | 0 <= i < |ps[1..]| ensures step1(ps[1..][i])(p) == step2(ps[1..][i])(p) {
          assert ps[1..][i] == ps[i + 1];
        }
      }
      if step1(ps[0])(pos).Ok? {
        RunOverSameOn(step1, step2, ps[1..], step1(ps[0])(pos).value.1);
      }
    }
  }

  /** Every read that fails, for any parameter, fails with one of `errs`. */
  ghost predicate FailsOverWithin<P(!new), T>(step: P -> Step<T>, errs: set<LoadError>) {
    forall p, pos: nat :: step(p)(pos).Err? ==> step(p)(pos).error in errs
  }

  /** A run fails only the ways its reads fail. */
  lemma {:induction false} RunOverError<P(!new), T>(step: P -> Step<T>, errs: set<LoadError>, ps: seq<P>, pos: nat)
    requires FailsOverWithin(step, errs)
    ensures RunOver(step, ps, pos).Err? ==> RunOver(step, ps, pos).error in errs
    decreases |ps|
  {
    if ps != [] && step(ps[0])(pos).Ok? {
      RunOverError(step, errs, ps[1..], step(ps[0])(pos).value.1);
    }
  }
}
