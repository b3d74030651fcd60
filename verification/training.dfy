/**
  The integer bookkeeping of the training script: the correct/total counters
  of one pass over a data loader, the accuracy computed from them, and the
  best-validation-accuracy tracker that decides when a checkpoint is saved.
  The network's predictions are inputs: each batch is the list of
  (predicted class, true label) pairs the model produced for it.
 */
module Training {

  /** One sample of a batch: the arg-max class of the model output and the
      label the loader gave. */
  datatype Prediction = Prediction(predicted: int, actual: int)

  type Batch = seq<Prediction>

  /** How one pass over a loader ends: an accuracy in percent, or the
      division by zero Python raises when the loader gave nothing. */
  datatype Outcome = Ok(accuracy: real) | ZeroDivisionError

  // ---------------------------------------------------------------------------
  // The counters
  // ---------------------------------------------------------------------------

  /** `predicted.eq(labels).sum()`: the hits of one batch. */
  function Hits(batch: Batch): (n: nat)
    ensures n <= |batch|
  {
    if batch == [] then 0
    else Hits(batch[..|batch| - 1]) + (if batch[|batch| - 1].predicted == batch[|batch| - 1].actual then 1 else 0)
  }

  /** A batch's hits are its whole size exactly when every prediction in it
      equals its label. */
  lemma {:induction false} HitsAll(batch: Batch)
    ensures Hits(batch) == |batch| <==> forall i :: 0 <= i < |batch| ==> batch[i].predicted == batch[i].actual
  {
    if batch != [] {
      var init := batch[..|batch| - 1];
      HitsAll(init);
      assert forall i :: 0 <= i < |init| ==> init[i] == batch[i];
    }
  }

  /** The final `total`: the sum of the batch sizes, so every batch is
      counted in it. */
  function Total(batches: seq<Batch>): (n: nat)
    ensures forall i :: 0 <= i < |batches| ==> |batches[i]| <= n
  {
    if batches == [] then 0
    else
      var init := batches[..|batches| - 1];
      assert forall i :: 0 <= i < |init| ==> init[i] == batches[i];
      Total(init) + |batches[|batches| - 1]|
  }

  /** The final `correct`: the sum of the hits of every batch. A pass never
      counts more correct samples than it has seen. */
  function Correct(batches: seq<Batch>): (n: nat)
    ensures n <= Total(batches)
  {
    if batches == [] then 0 else Correct(batches[..|batches| - 1]) + Hits(batches[|batches| - 1])
  }

  /** A pass counts every sample as correct exactly when every prediction of
      every batch equals its label. */
  lemma {:induction false} CorrectAll(batches: seq<Batch>)
    ensures Correct(batches) == Total(batches)
        <==> forall j, i :: 0 <= j < |batches| && 0 <= i < |batches[j]| ==> batches[j][i].predicted == batches[j][i].actual
  {
    if batches != [] {
      var init, last := batches[..|batches| - 1], batches[|batches| - 1];
      CorrectAll(init);
      HitsAll(last);
      assert forall j :: 0 <= j < |init| ==> init[j] == batches[j];
    }
  }

  /** The total is zero exactly when every batch is empty, in particular when
      there is no batch at all. */
  lemma {:induction false} TotalZero(batches: seq<Batch>)
    ensures Total(batches) == 0 <==> forall i :: 0 <= i < |batches| ==> batches[i] == []
  {
    if batches != [] {
      var init := batches[..|batches| - 1];
      TotalZero(init);
      assert forall i :: 0 <= i < |init| ==> init[i] == batches[i];
    }
  }

  /** Every sample counted once: a pass over two loaders one after the other
      counts what the two passes count. */
  lemma {:induction false} CountsAdd(a: seq<Batch>, b: seq<Batch>)
    ensures Total(a + b) == Total(a) + Total(b)
    ensures Correct(a + b) == Correct(a) + Correct(b)
  {
    if b != [] {
      var init := b[..|b| - 1];
      assert (a + b)[..|a + b| - 1] == a + init;
      assert (a + b)[|a + b| - 1] == b[|b| - 1];
      CountsAdd(a, init);
    } else {
      assert a + b == a;
    }
  }

  /** The counter loop shared by `train_epoch` and `validate`: after every
      batch, add its size to `total` and its hits to `correct`. */
  method Tally(batches: seq<Batch>) returns (correct: nat, total: nat)
    ensures correct == Correct(batches) && total == Total(batches)
    ensures correct <= total
  {
    correct, total := 0, 0;
    for i := 0 to |batches|
      invariant correct == Correct(batches[..i]) && total == Total(batches[..i])
    {
      assert batches[..i + 1][..i] == batches[..i];
      correct := correct + Hits(batches[i]);
      total := total + |batches[i]|;
    }
    assert batches[..|batches|] == batches;
  }

  /** `100. * correct / total`, guarded as Python guards it. */
  function Percent(correct: nat, total: nat): (r: Outcome)
    ensures r.ZeroDivisionError? <==> total == 0
    ensures r.Ok? && correct <= total ==> 0.0 <= r.accuracy <= 100.0
    ensures r.Ok? ==> (r.accuracy == 100.0 <==> correct == total)
  {
    if total == 0 then ZeroDivisionError
    else
      PercentOfWhole(correct, total);
      Ok(100.0 * correct as real / total as real)
  }

  lemma PercentOfWhole(correct: nat, total: nat)
    requires 0 < total
    ensures var x := 100.0 * correct as real / total as real;
      && 0.0 <= x
      && (correct <= total ==> x <= 100.0)
      && (x == 100.0 <==> correct == total)
  {
    var x, c, t := 100.0 * correct as real / total as real, correct as real, total as real;
    assert x * t == 100.0 * c;
    assert (x - 100.0) * t == 100.0 * (c - t);
    if correct <= total {
      assert (x - 100.0) * t <= 0.0;
    }
    if x == 100.0 {
      assert 100.0 * t == 100.0 * c;
    }
  }

  /** The end of a pass: the averaged loss divides by the number of batches
      first, then the accuracy divides by `total`. */
  function PassOutcome(batches: seq<Batch>): (r: Outcome)
    ensures r.ZeroDivisionError? <==> Total(batches) == 0
  {
    TotalZero(batches);
    if |batches| == 0 then ZeroDivisionError else Percent(Correct(batches), Total(batches))
  }

  /** A pass that ends with an accuracy reports a percentage between 0 and
      100, and 100 exactly when every prediction was right. */
  lemma PassAccuracyInRange(batches: seq<Batch>)
    ensures PassOutcome(batches).Ok? ==> 0.0 <= PassOutcome(batches).accuracy <= 100.0
    ensures PassOutcome(batches).Ok? ==> (PassOutcome(batches).accuracy == 100.0 <==> Correct(batches) == Total(batches))
    ensures PassOutcome(batches).Ok? ==> (PassOutcome(batches).accuracy == 100.0 <==>
      forall j, i :: 0 <= j < |batches| && 0 <= i < |batches[j]| ==> batches[j][i].predicted == batches[j][i].actual)
  {
    CorrectAll(batches);
  }

  /** One pass over a loader, as `train_epoch` and `validate` both make it:
      count the batches, then divide. */
  method Pass(batches: seq<Batch>) returns (r: Outcome)
    ensures r == PassOutcome(batches)
    ensures r.ZeroDivisionError? <==> Total(batches) == 0
    ensures r.Ok? ==> 0.0 <= r.accuracy <= 100.0
  {
    var correct, total := Tally(batches);
    if |batches| == 0 {
      return ZeroDivisionError;
    }
    r := Percent(correct, total);
    PassAccuracyInRange(batches);
  }

  /** `train_epoch` without the model: one pass over the training loader.
      The forward and backward passes and the loss are not modelled. */
  method TrainEpoch(batches: seq<Batch>) returns (r: Outcome)
    ensures r == PassOutcome(batches)
    ensures r.Ok? ==> 0.0 <= r.accuracy <= 100.0
  {
    r := Pass(batches);
  }

  /** `validate` without the model: one pass over the validation loader,
      without parameter updates. */
  method Validate(batches: seq<Batch>) returns (r: Outcome)
    ensures r == PassOutcome(batches)
    ensures r.Ok? ==> 0.0 <= r.accuracy <= 100.0
  {
    r := Pass(batches);
  }

  // ---------------------------------------------------------------------------
  // The best-validation-accuracy tracker
  // ---------------------------------------------------------------------------

  /** `best_val_acc` after the epochs whose validation accuracies are
      `accs`: it starts at 0 and takes an epoch's accuracy when that is
      strictly greater. */
  function BestAfter(accs: seq<real>): (best: real)
    ensures 0.0 <= best
    ensures forall i :: 0 <= i < |accs| ==> accs[i] <= best
  {
    if accs == [] then 0.0
    else
      var init := accs[..|accs| - 1];
      assert forall i :: 0 <= i < |init| ==> init[i] == accs[i];
      var best := BestAfter(init);
      if accs[|accs| - 1] > best then accs[|accs| - 1] else best
  }

  /** The epochs (counted from 0) at which a checkpoint is written: at most
      one per epoch, in increasing order, each an epoch that was run. */
  function SavedEpochs(accs: seq<real>): (saved: seq<nat>)
    ensures |saved| <= |accs|
    ensures forall k :: 0 <= k < |saved| ==> saved[k] < |accs|
    ensures forall a, b :: 0 <= a < b < |saved| ==> saved[a] < saved[b]
  {
    if accs == [] then []
    else
      var init := accs[..|accs| - 1];
      SavedEpochs(init) + (if accs[|accs| - 1] > BestAfter(init) then [|accs| - 1] else [])
  }

  /** The epoch loop of `main`, reduced to the tracker: after each epoch,
      when its validation accuracy beats the best so far, it becomes the best
      and a checkpoint is saved. */
  method TrackBest(accs: seq<real>) returns (best: real, saved: seq<nat>)
    ensures best == BestAfter(accs) && saved == SavedEpochs(accs)
  {
    best, saved := 0.0, [];
    for epoch := 0 to |accs|
      invariant best == BestAfter(accs[..epoch]) && saved == SavedEpochs(accs[..epoch])
    {
      assert accs[..epoch + 1][..epoch] == accs[..epoch];
      var valAcc := accs[epoch];
      if valAcc > best {
        best := valAcc;
        saved := saved + [epoch];
      }
    }
    assert accs[..|accs|] == accs;
  }

  /** The best is the maximum of 0 and every accuracy so far: it is at
      least each of them, and it is 0 or one of them. */
  lemma {:induction false} BestIsMaximum(accs: seq<real>)
    ensures 0.0 <= BestAfter(accs)
    ensures forall i :: 0 <= i < |accs| ==> accs[i] <= BestAfter(accs)
    ensures BestAfter(accs) == 0.0 || exists i :: 0 <= i < |accs| && accs[i] == BestAfter(accs)
  {
    if accs != [] {
      var init := accs[..|accs| - 1];
      BestIsMaximum(init);
      assert forall i :: 0 <= i < |init| ==> init[i] == accs[i];
      if BestAfter(accs) != 0.0 && BestAfter(accs) != accs[|accs| - 1] {
        var i :| 0 <= i < |init| && init[i] == BestAfter(init);
        assert accs[i] == BestAfter(accs);
      }
    }
  }

  /** The best never decreases from one epoch to a later one. */
  lemma {:induction false} BestMonotone(accs: seq<real>, i: nat, j: nat)
    requires i <= j <= |accs|
    ensures BestAfter(accs[..i]) <= BestAfter(accs[..j])
  {
    if i < j {
      BestMonotone(accs, i, j - 1);
      assert accs[..j][..j - 1] == accs[..j - 1];
    }
  }

  /** A checkpoint is written at epoch `e` exactly when its accuracy is
      strictly greater than the best of the epochs before it. */
  lemma {:induction false} SavedIff(accs: seq<real>, e: int)
    ensures e in SavedEpochs(accs) <==> 0 <= e < |accs| && accs[e] > BestAfter(accs[..e])
  {
    if accs != [] {
      var init := accs[..|accs| - 1];
      SavedIff(init, e);
      if 0 <= e < |init| {
        assert init[e] == accs[e] && init[..e] == accs[..e];
      }
    }
  }

  /** The epochs with a checkpoint are increasing, and the checkpoint left
      on disk is the best one: it comes from the last saved epoch, whose
      accuracy is the final best; when none was saved, no accuracy exceeded
      0. */
  lemma {:induction false} CheckpointIsBest(accs: seq<real>)
    ensures var saved := SavedEpochs(accs);
      && (forall a, b :: 0 <= a < b < |saved| ==> saved[a] < saved[b])
      && (forall k :: 0 <= k < |saved| ==> saved[k] < |accs|)
      && (saved != [] ==> accs[saved[|saved| - 1]] == BestAfter(accs))
      && (saved == [] ==> BestAfter(accs) == 0.0 && forall i :: 0 <= i < |accs| ==> accs[i] <= 0.0)
  {
    if accs != [] {
      var init := accs[..|accs| - 1];
      CheckpointIsBest(init);
      assert forall i :: 0 <= i < |init| ==> init[i] == accs[i];
      BestIsMaximum(accs);
    }
  }
}
