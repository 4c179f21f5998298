/**
 * The plot viewer window: a fixed list of six plots, the index of the plot on
 * screen, and the Back / Next buttons that move that index without leaving the
 * list. Drawing is recorded as the sequence of plots shown so far.
 */
module Viewer {

  /** The six plotting functions, in the order of the viewer's list. */
  datatype Figure =
    | AdjustedClosePlot
    | MovingAveragesPlot
    | VolumeTradedPlot
    | DailyReturnsPlot
    | CorrelationPlot
    | FrontierPlot

  const AllFigures: seq<Figure> :=
    [AdjustedClosePlot, MovingAveragesPlot, VolumeTradedPlot, DailyReturnsPlot, CorrelationPlot, FrontierPlot]

  datatype Button = Back | Next

  /** The index after pressing `b` on a list of `count` plots: clamped at both ends. */
  function Press(i: nat, count: nat, b: Button): (j: nat)
  {
    match b
    case Next => if i + 1 < count then i + 1 else i
    case Back => if i > 0 then i - 1 else i
  }

  /** The index after a sequence of button presses. */
  function Run(i: nat, count: nat, presses: seq<Button>): nat
    decreases |presses|
  {
    if |presses| == 0 then i else Run(Press(i, count, presses[0]), count, presses[1..])
  }

  /** One press keeps a valid index valid and moves it by at most one, and only when it can. */
  lemma PressInRange(i: nat, count: nat, b: Button)
    requires i < count
    ensures Press(i, count, b) < count
    ensures b == Next ==> (Press(i, count, b) == i + 1 <==> i < count - 1)
    ensures b == Next ==> (Press(i, count, b) == i <==> i == count - 1)
    ensures b == Back ==> (Press(i, count, b) == i - 1 <==> i > 0)
    ensures b == Back ==> (Press(i, count, b) == i <==> i == 0)
  {
  }

  /** Any sequence of presses keeps the index inside the list. */
  lemma {:induction false} RunInRange(i: nat, count: nat, presses: seq<Button>)
    requires i < count
    ensures Run(i, count, presses) < count
    decreases |presses|
  {
    if |presses| > 0 {
      PressInRange(i, count, presses[0]);
      RunInRange(Press(i, count, presses[0]), count, presses[1..]);
    }
  }

  /** Next then Back returns to the same plot, except at the last plot where Next does nothing. */
  lemma NextThenBack(i: nat, count: nat)
    requires i < count
    ensures i < count - 1 ==> Press(Press(i, count, Next), count, Back) == i
    ensures i == count - 1 > 0 ==> Press(Press(i, count, Next), count, Back) == i - 1
  {
  }

  /** Back then Next returns to the same plot, except at the first plot where Back does nothing. */
  lemma BackThenNext(i: nat, count: nat)
    requires i < count
    ensures 0 < i ==> Press(Press(i, count, Back), count, Next) == i
    ensures i == 0 < count - 1 ==> Press(Press(i, count, Back), count, Next) == 1
  {
  }

  /** `k` presses of Next move `k` plots forward when the list is long enough. */
  lemma {:induction false} NextReachesLast(i: nat, count: nat, k: nat)
    requires i + k < count
    ensures Run(i, count, seq(k, _ => Next)) == i + k
    decreases k
  {
    if k > 0 {
      var presses := seq(k, _ => Next);
      assert presses[0] == Next && presses[1..] == seq(k - 1, _ => Next);
      NextReachesLast(i + 1, count, k - 1);
    }
  }

  /** The viewer window's navigation state. */
  class StockApp {
    var figures: seq<Figure>
    var currentIndex: nat
    /** The plots drawn so far, in order. */
    var shown: seq<Figure>

    predicate Valid()
      reads this
    {
      figures == AllFigures && currentIndex < |figures| && |shown| > 0 && shown[|shown| - 1] == figures[currentIndex]
    }

    /** The window opens on the first plot and draws it. */
    constructor ()
      ensures Valid()
      ensures figures == AllFigures && currentIndex == 0 && shown == [AdjustedClosePlot]
    {
      figures := AllFigures;
      currentIndex := 0;
      shown := [AdjustedClosePlot];
    }

    /** Clears the figure and draws the current plot. */
    method UpdatePlot()
      requires currentIndex < |figures|
      modifies this
      ensures figures == old(figures) && currentIndex == old(currentIndex)
      ensures shown == old(shown) + [figures[currentIndex]]
    {
      shown := shown + [figures[currentIndex]];
    }

    /** The Next button: one plot forward and redraw, unless on the last plot. */
    method NextPlot()
      requires Valid()
      modifies this
      ensures Valid()
      ensures figures == old(figures)
      ensures currentIndex == Press(old(currentIndex), |figures|, Next)
      ensures old(currentIndex) < |figures| - 1 ==> shown == old(shown) + [figures[currentIndex]]
      ensures old(currentIndex) == |figures| - 1 ==> shown == old(shown)
    {
      if currentIndex < |figures| - 1 {
        currentIndex := currentIndex + 1;
        UpdatePlot();
      }
    }

    /** The Back button: one plot back and redraw, unless on the first plot. */
    method PreviousPlot()
      requires Valid()
      modifies this
      ensures Valid()
      ensures figures == old(figures)
      ensures currentIndex == Press(old(currentIndex), |figures|, Back)
      ensures old(currentIndex) > 0 ==> shown == old(shown) + [figures[currentIndex]]
      ensures old(currentIndex) == 0 ==> shown == old(shown)
    {
      if currentIndex > 0 {
        currentIndex := currentIndex - 1;
        UpdatePlot();
      }
    }
  }
}
