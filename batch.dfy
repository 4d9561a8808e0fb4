/** How the pipeline's batch loops compose the work of their items. A run is the files it saved,
    in order, and how it ended. A plain loop stops at the first exception and keeps what was
    already saved; the annual loop catches every exception of an item and goes on with the next. */
module Batch {
  import opened Common
  import opened Files

  datatype Outcome = Completed | Aborted(error: Error)

  datatype Run = Run(writes: seq<Write>, outcome: Outcome)

  const Done: Run := Run([], Completed)

  function Abort(e: Error): Run
  {
    Run([], Aborted(e))
  }

  /** Run `a`, then `b` unless `a` aborted. */
  function Then(a: Run, b: Run): Run
  {
    if a.outcome.Aborted? then a else Run(a.writes + b.writes, b.outcome)
  }

  function Flatten(ws: seq<seq<Write>>): seq<Write>
  {
    if ws == [] then [] else ws[0] + Flatten(ws[1..])
  }

  /** What each item's step saves, item by item. */
  function StepWrites<T>(items: seq<T>, step: T -> Run): seq<seq<Write>>
  {
    seq(|items|, i requires 0 <= i < |items| => step(items[i]).writes)
  }

  /** A `for` loop without an exception handler: the items in order, ending at the first
      item whose step aborts. */
  function RunAll<T>(items: seq<T>, step: T -> Run): Run
  {
    if items == [] then Done else Then(step(items[0]), RunAll(items[1..], step))
  }

  /** A `for` loop whose body catches every exception and continues: every item's step runs,
      a failing step keeps only what it saved before failing, and the loop always completes. */
  function RunSkipping<T>(items: seq<T>, step: T -> Run): Run
  {
    if items == [] then Done
    else Run(step(items[0]).writes + RunSkipping(items[1..], step).writes, Completed)
  }

  /** Item `k` is the first whose step aborts. */
  ghost predicate FirstFailure<T>(items: seq<T>, step: T -> Run, k: int)
  {
    0 <= k < |items| && step(items[k]).outcome.Aborted? &&
    forall i :: 0 <= i < k ==> step(items[i]).outcome.Completed?
  }

  lemma {:induction false} FlattenAppend(a: seq<seq<Write>>, b: seq<seq<Write>>)
    ensures Flatten(a + b) == Flatten(a) + Flatten(b)
  {
    if a == [] {
      assert a + b == b;
    } else {
      assert (a + b)[1..] == a[1..] + b;
      FlattenAppend(a[1..], b);
    }
  }

  lemma {:induction false} FlattenMember(ws: seq<seq<Write>>, w: Write)
    requires w in Flatten(ws)
    ensures exists i :: 0 <= i < |ws| && w in ws[i]
  {
    if w !in ws[0] {
      FlattenMember(ws[1..], w);
      var i :| 0 <= i < |ws[1..]| && w in ws[1..][i];
      assert w in ws[i + 1];
    }
  }

  lemma StepWritesTail<T>(items: seq<T>, step: T -> Run)
    requires items != []
    ensures StepWrites(items, step) == [step(items[0]).writes] + StepWrites(items[1..], step)
  {
  }

  /** A plain loop completes exactly when every item's step completes, and then it has saved
      what the steps saved, in item order. */
  lemma {:induction false} RunAllCompleted<T>(items: seq<T>, step: T -> Run)
    ensures RunAll(items, step).outcome.Completed? <==>
      forall i :: 0 <= i < |items| ==> step(items[i]).outcome.Completed?
    ensures RunAll(items, step).outcome.Completed? ==>
      RunAll(items, step).writes == Flatten(StepWrites(items, step))
  {
    if items != [] {
      RunAllCompleted(items[1..], step);
      StepWritesTail(items, step);
      if step(items[0]).outcome.Completed? {
        assert forall i :: 1 <= i < |items| ==> items[i] == items[1..][i - 1];
      }
    }
  }

  /** A plain loop that aborts does so at the first failing item, with that item's error, after
      saving what the earlier items saved and what the failing one saved before it failed. */
  lemma {:induction false} RunAllAborted<T>(items: seq<T>, step: T -> Run)
    requires RunAll(items, step).outcome.Aborted?
    ensures exists k ::
      && FirstFailure(items, step, k)
      && RunAll(items, step) == Run(Flatten(StepWrites(items[..k], step)) + step(items[k]).writes, step(items[k]).outcome)
  {
    StepWritesTail(items, step);
    if step(items[0]).outcome.Aborted? {
      assert FirstFailure(items, step, 0);
      assert items[..0] == [];
    } else {
      RunAllAborted(items[1..], step);
      var k :| FirstFailure(items[1..], step, k) &&
        RunAll(items[1..], step) == Run(Flatten(StepWrites(items[1..][..k], step)) + step(items[1..][k]).writes, step(items[1..][k]).outcome);
      assert FirstFailure(items, step, k + 1) by {
        forall i | 0 <= i < k + 1 ensures step(items[i]).outcome.Completed? {
          if i > 0 { assert items[i] == items[1..][i - 1]; }
        }
      }
      assert items[..k + 1][1..] == items[1..][..k];
      StepWritesTail(items[..k + 1], step);
    }
  }

  /** A skipping loop always completes, having saved what every item's step saved, failing
      or not, in item order. */
  lemma {:induction false} RunSkippingAll<T>(items: seq<T>, step: T -> Run)
    ensures RunSkipping(items, step) == Run(Flatten(StepWrites(items, step)), Completed)
  {
    if items != [] {
      RunSkippingAll(items[1..], step);
      StepWritesTail(items, step);
    }
  }

  /** In a skipping loop an item's failure touches nothing around it: the items before and after
      it save exactly what they would save on their own. */
  lemma SkippingIsolatesFailure<T>(before: seq<T>, x: T, after: seq<T>, step: T -> Run)
    ensures RunSkipping(before + [x] + after, step).writes ==
      RunSkipping(before, step).writes + step(x).writes + RunSkipping(after, step).writes
  {
    RunSkippingAll(before + [x] + after, step);
    RunSkippingAll(before, step);
    RunSkippingAll(after, step);
    assert StepWrites(before + [x] + after, step) == StepWrites(before, step) + [step(x).writes] + StepWrites(after, step);
    FlattenAppend(StepWrites(before, step) + [step(x).writes], StepWrites(after, step));
    FlattenAppend(StepWrites(before, step), [step(x).writes]);
  }

  /** In a plain loop, by contrast, a failing item ends the run: nothing after it is saved. */
  lemma {:induction false} PlainLoopStopsAtFailure<T>(before: seq<T>, x: T, after: seq<T>, step: T -> Run)
    requires RunAll(before, step).outcome.Completed? && step(x).outcome.Aborted?
    ensures RunAll(before + [x] + after, step) ==
      Run(RunAll(before, step).writes + step(x).writes, step(x).outcome)
  {
    if before == [] {
      assert before + [x] + after == [x] + after;
    } else {
      var items := before + [x] + after;
      assert items[0] == before[0];
      assert items[1..] == before[1..] + [x] + after;
      assert step(before[0]).outcome.Completed?;
      assert RunAll(before[1..], step).outcome.Completed?;
      PlainLoopStopsAtFailure(before[1..], x, after, step);
      assert RunAll(items, step) == Then(step(before[0]), RunAll(items[1..], step));
    }
  }

  /** One more round of a plain loop: the items from `i` on are item `i`, then the items after it. */
  lemma RunAllFrom<T>(items: seq<T>, i: int, step: T -> Run)
    requires 0 <= i < |items|
    ensures RunAll(items[i..], step) == Then(step(items[i]), RunAll(items[i + 1..], step))
  {
    assert items[i..][1..] == items[i + 1..];
  }

  /** One more round of a skipping loop. */
  lemma RunSkippingFrom<T>(items: seq<T>, i: int, step: T -> Run)
    requires 0 <= i < |items|
    ensures RunSkipping(items[i..], step).writes == step(items[i]).writes + RunSkipping(items[i + 1..], step).writes
  {
    assert items[i..][1..] == items[i + 1..];
  }

  /** What a skipping loop has saved so far, followed by one more round and the rest. */
  lemma SkippingStep<T>(items: seq<T>, i: int, step: T -> Run, writes: seq<Write>, saved: seq<Write>)
    requires 0 <= i < |items| && saved == step(items[i]).writes
    ensures writes + RunSkipping(items[i..], step).writes == (writes + saved) + RunSkipping(items[i + 1..], step).writes
  {
    RunSkippingFrom(items, i, step);
  }

  /** What a loop has saved so far, followed by one step and the rest of the loop. */
  lemma ThenStep(w: seq<Write>, a: Run, rest: Run)
    ensures Then(Run(w, Completed), Then(a, rest)) ==
      if a.outcome.Aborted? then Run(w + a.writes, a.outcome) else Then(Run(w + a.writes, Completed), rest)
  {
    if a.outcome.Completed? {
      assert w + (a.writes + rest.writes) == w + a.writes + rest.writes;
    }
  }

  /** A plain loop saves only what its steps save. */
  lemma {:induction false} RunAllWritesFrom<T>(items: seq<T>, step: T -> Run, w: Write)
    requires w in RunAll(items, step).writes
    ensures exists i :: 0 <= i < |items| && w in step(items[i]).writes
  {
    if w !in step(items[0]).writes {
      RunAllWritesFrom(items[1..], step, w);
      var i :| 0 <= i < |items[1..]| && w in step(items[1..][i]).writes;
      assert items[1..][i] == items[i + 1];
    }
  }

  /** `n * k`, by repeated addition, so that offsets into a log stay linear arithmetic. */
  function Mul(n: nat, k: nat): nat
  {
    if k == 0 then 0 else Mul(n, k - 1) + n
  }


  lemma {:induction false} MulBound(n: nat, k: nat, j: nat)
    requires k < j
    ensures Mul(n, k) + n <= Mul(n, j)
    decreases j
  {
    if k + 1 < j {
      MulBound(n, k, j - 1);
    }
  }

  lemma {:induction false} MulIsProduct(n: nat, k: nat)
    ensures Mul(n, k) == n * k
  {
    if k > 0 {
      MulIsProduct(n, k - 1);
      assert n * k == n * (k - 1) + n;
    }
  }

  /** A plain loop whose every step completes saving `n` files completes, having saved
      `n · |items|` files. */
  lemma {:induction false} RunAllUniform<T>(items: seq<T>, step: T -> Run, n: nat)
    requires forall k :: 0 <= k < |items| ==> step(items[k]).outcome.Completed? && |step(items[k]).writes| == n
    ensures RunAll(items, step).outcome.Completed?
    ensures |RunAll(items, step).writes| == Mul(n, |items|)
  {
    if items != [] {
      forall i | 0 <= i < |items[1..]|
        ensures step(items[1..][i]).outcome.Completed? && |step(items[1..][i]).writes| == n
      {
        assert items[1..][i] == items[i + 1];
      }
      RunAllUniform(items[1..], step, n);
    }
  }

  /** File `m` of step `k` of such a loop sits at position `Mul(n, k) + m`. */
  lemma {:induction false} RunAllUniformMulAt<T>(items: seq<T>, step: T -> Run, n: nat, k: nat, m: nat)
    requires forall i :: 0 <= i < |items| ==> step(items[i]).outcome.Completed? && |step(items[i]).writes| == n
    requires k < |items| && m < n
    ensures Mul(n, k) + m < |RunAll(items, step).writes|
    ensures RunAll(items, step).writes[Mul(n, k) + m] == step(items[k]).writes[m]
    decreases k
  {
    var tail := RunAll(items[1..], step);
    assert RunAll(items, step).writes == step(items[0]).writes + tail.writes;
    if k > 0 {
      forall i | 0 <= i < |items[1..]|
        ensures step(items[1..][i]).outcome.Completed? && |step(items[1..][i]).writes| == n
      {
        assert items[1..][i] == items[i + 1];
      }
      RunAllUniformMulAt(items[1..], step, n, k - 1, m);
      assert items[1..][k - 1] == items[k];
    }
  }

  /** Step `k`'s files form the block of `n` files from position `Mul(n, k)`. */
  lemma RunAllUniformBlock<T>(items: seq<T>, step: T -> Run, n: nat, k: nat)
    requires forall i :: 0 <= i < |items| ==> step(items[i]).outcome.Completed? && |step(items[i]).writes| == n
    requires k < |items|
    ensures Mul(n, k) + n <= |RunAll(items, step).writes|
    ensures RunAll(items, step).writes[Mul(n, k)..Mul(n, k) + n] == step(items[k]).writes
  {
    RunAllUniform(items, step, n);
    MulBound(n, k, |items|);
    var ws := RunAll(items, step).writes;
    forall m | 0 <= m < n ensures ws[Mul(n, k)..Mul(n, k) + n][m] == step(items[k]).writes[m] {
      RunAllUniformMulAt(items, step, n, k, m);
    }
  }


  /** One file per step: step `k`'s file is file `k`. */
  lemma RunAllOneAt<T>(items: seq<T>, step: T -> Run, k: nat)
    requires forall i :: 0 <= i < |items| ==> step(items[i]).outcome.Completed? && |step(items[i]).writes| == 1
    requires k < |items|
    ensures k < |RunAll(items, step).writes|
    ensures RunAll(items, step).writes[k] == step(items[k]).writes[0]
  {
    RunAllUniformMulAt(items, step, 1, k, 0);
    MulIsProduct(1, k);
  }

  /** Two files per step: step `k`'s files are files `2k` and `2k + 1`. */
  lemma RunAllTwoAt<T>(items: seq<T>, step: T -> Run, k: nat)
    requires forall i :: 0 <= i < |items| ==> step(items[i]).outcome.Completed? && |step(items[i]).writes| == 2
    requires k < |items|
    ensures 2 * k + 1 < |RunAll(items, step).writes|
    ensures RunAll(items, step).writes[2 * k] == step(items[k]).writes[0]
    ensures RunAll(items, step).writes[2 * k + 1] == step(items[k]).writes[1]
  {
    RunAllUniformMulAt(items, step, 2, k, 0);
    RunAllUniformMulAt(items, step, 2, k, 1);
    MulIsProduct(2, k);
  }
}
