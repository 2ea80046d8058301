/** The confusion-matrix tally of `print_test_model`: the true labels `Y`
    against the fitted model's predictions `Y_h`, which are passed in. */
module Confusion {
  import opened Outcome

  /** True positives, false positives, true negatives, false negatives. */
  datatype Matrix = Matrix(tp: nat, fp: nat, tn: nat, fn: nat)

  /** How many positions of `ys` hold `y` while the prediction at the same
      position holds `yh`. */
  function Cell(ys: seq<int>, yhs: seq<int>, y: int, yh: int): nat {
    if |ys| == 0 then 0
    else
      var n := |ys| - 1;
      Cell(ys[..n], yhs, y, yh) + (if n < |yhs| && ys[n] == y && yhs[n] == yh then 1 else 0)
  }

  predicate IsLabel(x: int) {
    x == 0 || x == 1
  }

  /** How many positions hold a 0/1 label with a 0/1 prediction. */
  function Labelled(ys: seq<int>, yhs: seq<int>): nat {
    if |ys| == 0 then 0
    else
      var n := |ys| - 1;
      Labelled(ys[..n], yhs) + (if n < |yhs| && IsLabel(ys[n]) && IsLabel(yhs[n]) then 1 else 0)
  }

  /** The loop reads the prediction at every position whose label is 0 or
      1, and only there. */
  predicate PredictionsCover(ys: seq<int>, yhs: seq<int>) {
    forall i :: 0 <= i < |ys| && IsLabel(ys[i]) ==> i < |yhs|
  }

  /** The `if`/`elif` chain over the labels.  `and` short-circuits, so the
      prediction is read only where the label is 0 or 1, and a read past
      the end of the predictions raises `IndexError`; a label or prediction
      other than 0 and 1 matches no branch. */
  method Tally(ys: seq<int>, yhs: seq<int>) returns (r: Result<Matrix>)
    ensures r.Ok? <==> PredictionsCover(ys, yhs)
    ensures r.Err? ==> r.error == IndexError
    ensures r.Ok? ==> r.value == Matrix(Cell(ys, yhs, 1, 1), Cell(ys, yhs, 0, 1), Cell(ys, yhs, 0, 0), Cell(ys, yhs, 1, 0))
  {
    var tp, fp, tn, fn := 0, 0, 0, 0;
    var i := 0;
    while i < |ys|
      invariant 0 <= i <= |ys|
      invariant PredictionsCover(ys[..i], yhs)
      invariant tp == Cell(ys[..i], yhs, 1, 1) && fp == Cell(ys[..i], yhs, 0, 1)
      invariant tn == Cell(ys[..i], yhs, 0, 0) && fn == Cell(ys[..i], yhs, 1, 0)
    {
      assert ys[..i + 1][..i] == ys[..i];
      if ys[i] == 1 {
        if i >= |yhs| {
          return Err(IndexError);
        }
        if yhs[i] == 1 {
          tp := tp + 1;
        } else if yhs[i] == 0 {
          fn := fn + 1;
        }
      } else if ys[i] == 0 {
        if i >= |yhs| {
          return Err(IndexError);
        }
        if yhs[i] == 0 {
          tn := tn + 1;
        } else if yhs[i] == 1 {
          fp := fp + 1;
        }
      }
      i := i + 1;
    }
    assert ys[..i] == ys;
    return Ok(Matrix(tp, fp, tn, fn));
  }

  /** The positions a cell counts. */
  function CellPositions(ys: seq<int>, yhs: seq<int>, y: int, yh: int): set<nat> {
    set i: nat | i < |ys| && i < |yhs| && ys[i] == y && yhs[i] == yh
  }

  /** A cell is the number of positions where the label is `y` and the
      prediction `yh`. */
  lemma {:induction false} CellCountsPositions(ys: seq<int>, yhs: seq<int>, y: int, yh: int)
    ensures Cell(ys, yhs, y, yh) == |CellPositions(ys, yhs, y, yh)|
    decreases |ys|
  {
    if |ys| > 0 {
      var n := |ys| - 1;
      CellCountsPositions(ys[..n], yhs, y, yh);
      var before := CellPositions(ys[..n], yhs, y, yh);
      if n < |yhs| && ys[n] == y && yhs[n] == yh {
        assert CellPositions(ys, yhs, y, yh) == before + {n};
      } else {
        assert CellPositions(ys, yhs, y, yh) == before;
      }
    }
  }

  function Total(m: Matrix): nat {
    m.tp + m.fp + m.tn + m.fn
  }

  /** The four cells together count exactly the positions where both the
      label and the prediction are 0 or 1: anything else lands nowhere. */
  lemma {:induction false} CellsCountLabelled(ys: seq<int>, yhs: seq<int>)
    ensures Cell(ys, yhs, 1, 1) + Cell(ys, yhs, 0, 1) + Cell(ys, yhs, 0, 0) + Cell(ys, yhs, 1, 0) == Labelled(ys, yhs)
    decreases |ys|
  {
    if |ys| > 0 {
      CellsCountLabelled(ys[..|ys| - 1], yhs);
    }
  }

  /** With only 0/1 labels and predictions, every position is counted
      once. */
  lemma {:induction false} AllLabelled(ys: seq<int>, yhs: seq<int>)
    requires |yhs| >= |ys|
    requires forall i :: 0 <= i < |ys| ==> IsLabel(ys[i]) && IsLabel(yhs[i])
    ensures Labelled(ys, yhs) == |ys|
    decreases |ys|
  {
    if |ys| > 0 {
      var n := |ys| - 1;
      assert forall i :: 0 <= i < n ==> ys[..n][i] == ys[i];
      AllLabelled(ys[..n], yhs);
    }
  }

  /** `tp + fp + tn + fn == len(Y)` when every label and prediction is 0
      or 1. */
  lemma TallyCoversAll(ys: seq<int>, yhs: seq<int>, m: Matrix)
    requires |yhs| >= |ys|
    requires forall i :: 0 <= i < |ys| ==> IsLabel(ys[i]) && IsLabel(yhs[i])
    requires m == Matrix(Cell(ys, yhs, 1, 1), Cell(ys, yhs, 0, 1), Cell(ys, yhs, 0, 0), Cell(ys, yhs, 1, 0))
    ensures Total(m) == |ys|
  {
    CellsCountLabelled(ys, yhs);
    AllLabelled(ys, yhs);
  }

  /** A label of 2 is skipped without reading the prediction, so even an
      empty prediction list gives an all-zero matrix. */
  method OtherLabelSkipped() returns (r: Result<Matrix>)
    ensures r == Ok(Matrix(0, 0, 0, 0))
  {
    r := Tally([2], []);
    assert PredictionsCover([2], []);
    assert [2][..0] == [];
  }
}
