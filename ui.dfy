/** The layout of the terminal interface: the request and response views
    side by side on top, and the command bar, status and time views in a
    three-row strip below them, all computed from the terminal size. */
module Ui {
  import GoInt

  /** A view's corners, whether it wraps its text, and its title. */
  datatype ViewSpec = ViewSpec(x0: int, y0: int, x1: int, y1: int, Wrap: bool, Title: string) {
    /** `Dimensions`: the corners as the view library takes them. */
    function Dimensions(): seq<int> {
      [x0, y0, x1, y1]
    }
  }

  datatype UiSpec = UiSpec(
    maxX: int,
    maxY: int,
    RequestViewSpec: ViewSpec,
    ResponseViewSpec: ViewSpec,
    CmdBarViewSpec: ViewSpec,
    StatusCodeViewSpec: ViewSpec,
    RequestTimeViewSpec: ViewSpec)

  /** `NewUiSpec`: the views of a `maxX` by `maxY` terminal; `maxX/2` is
      Go's division, truncating toward zero. */
  function NewUiSpec(maxX: int, maxY: int): UiSpec {
    var half := GoInt.Quo(maxX, 2);
    UiSpec(
      maxX, maxY,
      ViewSpec(0, 0, half - 2, maxY - 4, true, ""),
      ViewSpec(half + 2, 0, maxX - 1, maxY - 4, true, ""),
      ViewSpec(0, maxY - 3, half - 2, maxY - 1, false, ""),
      ViewSpec(half + 2, maxY - 3, half + 11, maxY - 1, false, "Status"),
      ViewSpec(half + 2 + 11, maxY - 3, half + 22, maxY - 1, false, "Time"))
  }

  /** The columns: a four-column gap between the request and response
      views, the command bar under the request view, the status view under
      the left edge of the response view, and a two-column gap between the
      status view and the time view. */
  lemma Columns(maxX: int, maxY: int)
    ensures var u := NewUiSpec(maxX, maxY);
      && u.ResponseViewSpec.x0 - u.RequestViewSpec.x1 == 4
      && u.RequestViewSpec.x0 == 0 && u.CmdBarViewSpec.x0 == 0
      && u.CmdBarViewSpec.x1 == u.RequestViewSpec.x1
      && u.StatusCodeViewSpec.x0 == u.ResponseViewSpec.x0
      && u.StatusCodeViewSpec.x1 < u.RequestTimeViewSpec.x0
      && u.RequestTimeViewSpec.x0 - u.StatusCodeViewSpec.x1 == 2
      && u.ResponseViewSpec.x1 == maxX - 1
  {
  }

  /** The rows: the top views end at row `maxY - 4`, and the strip below
      takes the last three rows, starting on the next row. */
  lemma Rows(maxX: int, maxY: int)
    ensures var u := NewUiSpec(maxX, maxY);
      && u.RequestViewSpec.y0 == 0 && u.ResponseViewSpec.y0 == 0
      && u.RequestViewSpec.y1 == maxY - 4 && u.ResponseViewSpec.y1 == maxY - 4
      && (forall v :: v in [u.CmdBarViewSpec, u.StatusCodeViewSpec, u.RequestTimeViewSpec] ==>
            v.y0 == maxY - 3 && v.y1 == maxY - 1)
      && u.CmdBarViewSpec.y0 == u.RequestViewSpec.y1 + 1
  {
  }

  /** On a terminal at least 46 columns wide every view lies within the
      screen, and the request view ends left of the middle column. */
  lemma FitsWidth(maxX: int, maxY: int)
    requires maxX >= 46
    ensures var u := NewUiSpec(maxX, maxY);
      && u.RequestViewSpec.x1 < maxX / 2 <= u.ResponseViewSpec.x0
      && u.RequestTimeViewSpec.x1 <= maxX - 1
      && u.ResponseViewSpec.x0 < u.ResponseViewSpec.x1
  {
    GoInt.QuoBounds(maxX, 2);
  }

  /** Only the top views wrap; the status and time views carry titles. */
  lemma Titles(maxX: int, maxY: int)
    ensures var u := NewUiSpec(maxX, maxY);
      && u.RequestViewSpec.Wrap && u.ResponseViewSpec.Wrap
      && !u.CmdBarViewSpec.Wrap && !u.StatusCodeViewSpec.Wrap && !u.RequestTimeViewSpec.Wrap
      && u.StatusCodeViewSpec.Title == "Status" && u.RequestTimeViewSpec.Title == "Time"
  {
  }

  /** The dimensions the layout tests expect of a 100 by 100 terminal. */
  lemma ExampleHundred()
    ensures var u := NewUiSpec(100, 100);
      && u.RequestViewSpec.Dimensions() == [0, 0, 48, 96]
      && u.ResponseViewSpec.Dimensions() == [52, 0, 99, 96]
      && u.CmdBarViewSpec.Dimensions() == [0, 97, 48, 99]
      && u.StatusCodeViewSpec.Dimensions() == [52, 97, 61, 99]
  {
  }

  /** An odd width loses its last half column, and a negative one is
      halved toward zero: `-3/2` is `-1`. */
  lemma ExampleTruncation()
    ensures NewUiSpec(101, 10).RequestViewSpec.x1 == 48
    ensures NewUiSpec(-3, 10).RequestViewSpec.x1 == -3
  {
  }
}
