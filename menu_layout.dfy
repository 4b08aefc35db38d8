/**
 * The layout decisions of the menu view `JonContextMenuView`: which way the
 * ring of options expands from the touch point, which angle each option gets,
 * how far options sit from the touch point, and where the title label goes.
 * Coordinates are reals (CGFloat); angles are always multiples of 45 degrees,
 * so they are integers. The trigonometric placement and the animations are not
 * part of this model.
 */
module MenuLayout {
  import opened Optional

  /** The expansion direction on one axis. */
  datatype Direction = Left | Right | Middle | Up | Down

  datatype Point = Point(x: real, y: real)
  datatype Size = Size(width: real, height: real)
  datatype Frame = Frame(x: real, y: real, width: real, height: real)

  /** Gap between the touch-point indicator and the options. */
  const DistanceToTouchPoint: real := 20.0
  /** Side of the square touch-point indicator view. */
  const TouchPointSide: real := 45.0
  /** Side of the square button of every option. */
  const OptionButtonSide: real := 45.0
  /** Angle between consecutive options, in degrees. */
  const AngleStep: int := 45

  /** The margin the touch point needs from a screen edge on either axis. */
  function ClearanceSize(itemWidth: real): real {
    DistanceToTouchPoint + itemWidth + TouchPointSide
  }

  /**
   * Vertical direction: too close to the top edge expands `Down`, else too close
   * to the bottom edge expands `Up`, else `Middle`; the top test wins.
   */
  function VerticalDirection(touchY: real, size: real, screenHeight: real): (d: Direction)
    ensures d == Down <==> touchY - size < 0.0
    ensures d == Up <==> 0.0 <= touchY - size && screenHeight < touchY + size
    ensures d == Middle <==> 0.0 <= touchY - size && touchY + size <= screenHeight
    ensures d != Left && d != Right
  {
    var isBottomBorder := touchY + size > screenHeight;
    var isTopBorder := touchY - size < 0.0;
    if isTopBorder then Down
    else if isBottomBorder then Up
    else Middle
  }

  /**
   * Horizontal direction: too close to the left edge expands `Right`, else too
   * close to the right edge expands `Left`, else `Middle`; the left test wins.
   */
  function HorizontalDirection(touchX: real, size: real, screenWidth: real): (d: Direction)
    ensures d == Right <==> touchX - size < 0.0
    ensures d == Left <==> 0.0 <= touchX - size && screenWidth < touchX + size
    ensures d == Middle <==> 0.0 <= touchX - size && touchX + size <= screenWidth
    ensures d != Up && d != Down
  {
    var isRightBorder := touchX + size > screenWidth;
    var isLeftBorder := touchX - size < 0.0;
    if isLeftBorder then Right
    else if isRightBorder then Left
    else Middle
  }

  /**
   * The (vertical, horizontal) direction pair for a touch point, both axes
   * tested against the same clearance, which is computed from the item WIDTH.
   */
  function CalculateDirections(touch: Point, itemWidth: real, screen: Size): (dirs: (Direction, Direction))
    ensures dirs.0 == VerticalDirection(touch.y, DistanceToTouchPoint + itemWidth + TouchPointSide, screen.height)
    ensures dirs.1 == HorizontalDirection(touch.x, DistanceToTouchPoint + itemWidth + TouchPointSide, screen.width)
  {
    var size := ClearanceSize(itemWidth);
    (VerticalDirection(touch.y, size, screen.height), HorizontalDirection(touch.x, size, screen.width))
  }

  /** A start angle and the sense in which successive options are laid out. */
  datatype Sweep = Sweep(start: int, positive: bool)

  predicate IsVertical(d: Direction) { d == Up || d == Down || d == Middle }
  predicate IsHorizontal(d: Direction) { d == Left || d == Right || d == Middle }

  /**
   * The table of `anglesForDirection`: the sweep for a direction pair, or None
   * for the pairs that fall into its `default` branch.
   */
  function SweepFor(dirs: (Direction, Direction)): (s: Option<Sweep>)
    ensures s.Some? <==> IsVertical(dirs.0) && IsHorizontal(dirs.1)
  {
    match dirs
    case (Down, Right) => Some(Sweep(0, true))
    case (Down, Middle) => Some(Sweep(90, true))
    case (Middle, Right) => Some(Sweep(270, true))
    case (Down, Left) => Some(Sweep(180, false))
    case (Up, Right) => Some(Sweep(0, false))
    case (Up, Middle) => Some(Sweep(180, true))
    case (Up, Left) => Some(Sweep(180, true))
    case (Middle, Middle) => Some(Sweep(180, true))
    case (Middle, Left) => Some(Sweep(135, true))
    case _ => None
  }

  /** The angle of the option at `index` in a sweep. */
  function SweepAngle(s: Sweep, index: nat): int {
    if s.positive then s.start + AngleStep * index else s.start - AngleStep * index
  }

  /** Every pair the classification can produce has an entry in the table. */
  lemma ClassifiedPairsHaveSweep(touch: Point, itemWidth: real, screen: Size)
    ensures SweepFor(CalculateDirections(touch, itemWidth, screen)).Some?
  {
    var dirs := CalculateDirections(touch, itemWidth, screen);
    assert IsVertical(dirs.0) && IsHorizontal(dirs.1);
  }

  /** Consecutive options are 45 degrees apart, so no two options share an angle. */
  lemma SweepAnglesDistinct(s: Sweep, i: nat, j: nat)
    ensures SweepAngle(s, i + 1) - SweepAngle(s, i) == (if s.positive then AngleStep else -AngleStep)
    ensures i != j ==> SweepAngle(s, i) != SweepAngle(s, j)
  {
  }

  /**
   * The title label sits 100 points below the touch point when the touch is in
   * the upper half of the screen, and ends 100 points above it otherwise; it
   * never covers the touch point's row.
   */
  function LabelFrame(touch: Point, screen: Size): (f: Frame)
    ensures f.x == 20.0 && f.height == 100.0 && f.width == screen.width / 1.2
    ensures touch.y > screen.height / 2.0 ==> f.y + f.height == touch.y - 100.0
    ensures touch.y <= screen.height / 2.0 ==> f.y == touch.y + 100.0
    ensures !(f.y <= touch.y < f.y + f.height)
  {
    if touch.y > screen.height / 2.0 then Frame(20.0, touch.y - 200.0, screen.width / 1.2, 100.0)
    else Frame(20.0, touch.y + 100.0, screen.width / 1.2, 100.0)
  }

  /** Horizontal distance from the touch point to the centre of an option. */
  function XDistance(itemWidth: real): real {
    TouchPointSide / 2.0 + DistanceToTouchPoint + itemWidth / 2.0
  }

  /** Vertical distance from the touch point to the centre of an option. */
  function YDistance(itemHeight: real): real {
    TouchPointSide / 2.0 + DistanceToTouchPoint + itemHeight / 2.0
  }

  /**
   * On an axis classified `Middle`, an option whose centre lies within the
   * option distance of the touch point on that axis stays on screen along that
   * axis. For the vertical axis this needs the option no taller than its width
   * plus 22.5, because the clearance is computed from the width.
   */
  lemma MiddleKeepsOptionsOnScreen(touch: Point, w: real, h: real, screen: Size, center: Point)
    requires 0.0 <= w && 0.0 <= h && h <= w + TouchPointSide / 2.0
    requires touch.x - XDistance(w) <= center.x <= touch.x + XDistance(w)
    requires touch.y - YDistance(h) <= center.y <= touch.y + YDistance(h)
    ensures CalculateDirections(touch, w, screen).1 == Middle ==>
              0.0 <= center.x - w / 2.0 && center.x + w / 2.0 <= screen.width
    ensures CalculateDirections(touch, w, screen).0 == Middle ==>
              0.0 <= center.y - h / 2.0 && center.y + h / 2.0 <= screen.height
  {
  }

  /** On a 400 x 800 screen with 45-point options: near the bottom, near the top, centre. */
  lemma DirectionExamples()
    ensures CalculateDirections(Point(200.0, 700.0), 45.0, Size(400.0, 800.0)) == (Up, Middle)
    ensures CalculateDirections(Point(200.0, 100.0), 45.0, Size(400.0, 800.0)) == (Down, Middle)
    ensures CalculateDirections(Point(200.0, 400.0), 45.0, Size(400.0, 800.0)) == (Middle, Middle)
  {
  }

  predicate Distinct<T(==)>(s: seq<T>) {
    forall i, j :: 0 <= i < j < |s| ==> s[i] != s[j]
  }

  /** `Array.index(of:)`: the first position of `x` in `s`. */
  function IndexOf<T(==)>(s: seq<T>, x: T): (k: nat)
    requires x in s
    ensures k < |s| && s[k] == x
    ensures forall j :: 0 <= j < k ==> s[j] != x
  {
    if s[0] == x then 0 else 1 + IndexOf(s[1..], x)
  }

  /** In a list without repeats, the first position of the i-th element is i. */
  lemma IndexOfDistinct<T>(s: seq<T>, i: nat)
    requires Distinct(s) && i < |s|
    ensures IndexOf(s, s[i]) == i
  {
  }

  /** One option of the menu: its button size, assigned angle and current centre. */
  class MenuOption {
    const title: string
    const buttonWidth: real
    const buttonHeight: real
    var angle: int
    var center: Point

    constructor (title: string)
      ensures this.title == title
      ensures buttonWidth == OptionButtonSide && buttonHeight == OptionButtonSide
      ensures angle == 0 && center == Point(OptionButtonSide / 2.0, OptionButtonSide / 2.0)
    {
      this.title := title;
      buttonWidth, buttonHeight := OptionButtonSide, OptionButtonSide;
      angle := 0;
      center := Point(OptionButtonSide / 2.0, OptionButtonSide / 2.0);
    }
  }

  /** The menu view: it owns the options for the duration of one menu. */
  class ContextMenuView {
    const options: seq<MenuOption>
    const touchPoint: Point
    const screen: Size
    var xDistanceToItem: real
    var yDistanceToItem: real
    var currentDirection: (Direction, Direction)
    var labelFrame: Frame

    /** Every option carries the angle of its first position in the sweep `s`. */
    ghost predicate AnglesFollow(s: Sweep)
      reads options
    {
      forall i :: 0 <= i < |options| ==> options[i].angle == SweepAngle(s, IndexOf(options, options[i]))
    }

    /**
     * Builds the view for a touch point: direction, label, distances, then every
     * option reset to the touch point and given the angle of its sweep slot.
     * `options[0]` is read, so the option list must not be empty.
     */
    constructor (options: seq<MenuOption>, point: Point, screen: Size)
      requires |options| > 0
      modifies options
      ensures this.options == options && touchPoint == point && this.screen == screen
      ensures currentDirection == CalculateDirections(point, options[0].buttonWidth, screen)
      ensures labelFrame == LabelFrame(point, screen)
      ensures xDistanceToItem == XDistance(options[0].buttonWidth)
      ensures yDistanceToItem == YDistance(options[0].buttonHeight)
      ensures forall i :: 0 <= i < |options| ==> options[i].center == point
      ensures SweepFor(currentDirection).Some? && AnglesFollow(SweepFor(currentDirection).value)
    {
      this.options := options;
      touchPoint := point;
      this.screen := screen;
      new;
      CreateTouchPoint();
      AddSubviews();
      CreateView();
      ClassifiedPairsHaveSweep(point, options[0].buttonWidth, screen);
    }

    /** Records the expansion direction for the first option's button width. */
    method CreateTouchPoint()
      requires |options| > 0
      modifies this`currentDirection
      ensures currentDirection == CalculateDirections(touchPoint, options[0].buttonWidth, screen)
    {
      currentDirection := CalculateDirections(touchPoint, options[0].buttonWidth, screen);
    }

    /** Places the title label above or below the touch point. */
    method AddSubviews()
      modifies this`labelFrame
      ensures labelFrame == LabelFrame(touchPoint, screen)
    {
      if touchPoint.y > screen.height / 2.0 {
        labelFrame := Frame(20.0, touchPoint.y - 200.0, screen.width / 1.2, 100.0);
      } else {
        labelFrame := Frame(20.0, touchPoint.y + 100.0, screen.width / 1.2, 100.0);
      }
    }

    /** Distances, reset, angles; the animated move to the ring is not modelled. */
    method CreateView()
      requires |options| > 0
      modifies this`xDistanceToItem, this`yDistanceToItem, options
      ensures xDistanceToItem == XDistance(options[0].buttonWidth)
      ensures yDistanceToItem == YDistance(options[0].buttonHeight)
      ensures forall i :: 0 <= i < |options| ==> options[i].center == touchPoint
      ensures SweepFor(currentDirection).Some? ==> AnglesFollow(SweepFor(currentDirection).value)
    {
      CalculateDistanceToItem();
      ResetItemsPosition();
      AnglesForDirection();
    }

    /** Puts the centre of every option on the touch point; angles stay as they were. */
    method ResetItemsPosition()
      modifies options
      ensures forall i :: 0 <= i < |options| ==> options[i].center == touchPoint
      ensures forall i :: 0 <= i < |options| ==> options[i].angle == old(options[i].angle)
    {
      for i := 0 to |options|
        invariant forall k :: 0 <= k < i ==> options[k].center == touchPoint
        invariant forall k :: 0 <= k < |options| ==> options[k].angle == old(options[k].angle)
      {
        options[i].center := touchPoint;
      }
    }

    /** The option distances on both axes, from the first option's button. */
    method CalculateDistanceToItem()
      requires |options| > 0
      modifies this`xDistanceToItem, this`yDistanceToItem
      ensures xDistanceToItem == XDistance(options[0].buttonWidth)
      ensures yDistanceToItem == YDistance(options[0].buttonHeight)
    {
      xDistanceToItem := TouchPointSide / 2.0 + DistanceToTouchPoint + options[0].buttonWidth / 2.0;
      yDistanceToItem := TouchPointSide / 2.0 + DistanceToTouchPoint + options[0].buttonHeight / 2.0;
    }

    /**
     * Dispatches on the direction pair through the sweep table; a pair outside
     * the table leaves every angle unchanged. Centres are never touched.
     */
    method AnglesForDirection()
      modifies options
      ensures forall i :: 0 <= i < |options| ==> options[i].center == old(options[i].center)
      ensures SweepFor(currentDirection).Some? ==> AnglesFollow(SweepFor(currentDirection).value)
      ensures SweepFor(currentDirection).None? ==>
                forall i :: 0 <= i < |options| ==> options[i].angle == old(options[i].angle)
    {
      match currentDirection
      case (Down, Right) => PositiveQuarterAngle(0);
      case (Down, Middle) => PositiveQuarterAngle(90);
      case (Middle, Right) => PositiveQuarterAngle(270);
      case (Down, Left) => NegativeQuarterAngle(180);
      case (Up, Right) => NegativeQuarterAngle(0);
      case (Up, Middle) => PositiveQuarterAngle(180);
      case (Up, Left) => PositiveQuarterAngle(180);
      case (Middle, Middle) => PositiveQuarterAngle(180);
      case (Middle, Left) => PositiveQuarterAngle(135);
      case _ =>
    }

    /** Gives each option `startAngle + 45 * (its index)`. */
    method PositiveQuarterAngle(startAngle: int)
      modifies options
      ensures AnglesFollow(Sweep(startAngle, true))
      ensures forall i :: 0 <= i < |options| ==> options[i].center == old(options[i].center)
    {
      ghost var sweep := Sweep(startAngle, true);
      for i := 0 to |options|
        invariant forall k :: 0 <= k < i ==>
                    options[k].angle == SweepAngle(sweep, IndexOf(options, options[k]))
        invariant forall k :: 0 <= k < |options| ==> options[k].center == old(options[k].center)
      {
        var option := options[i];
        var angle := startAngle + AngleStep * IndexOf(options, option);
        assert angle == SweepAngle(sweep, IndexOf(options, options[i]));
        option.angle := angle;
      }
    }

    /** Gives each option `startAngle - 45 * (its index)`. */
    method NegativeQuarterAngle(startAngle: int)
      modifies options
      ensures AnglesFollow(Sweep(startAngle, false))
      ensures forall i :: 0 <= i < |options| ==> options[i].center == old(options[i].center)
    {
      ghost var sweep := Sweep(startAngle, false);
      for i := 0 to |options|
        invariant forall k :: 0 <= k < i ==>
                    options[k].angle == SweepAngle(sweep, IndexOf(options, options[k]))
        invariant forall k :: 0 <= k < |options| ==> options[k].center == old(options[k].center)
      {
        var option := options[i];
        var angle := startAngle - AngleStep * IndexOf(options, option);
        assert angle == SweepAngle(sweep, IndexOf(options, options[i]));
        option.angle := angle;
      }
    }

    /**
     * With no option listed twice, the option at position i gets the angle of
     * slot i, and all angles are different.
     */
    lemma DistinctOptionsGetDistinctAngles(s: Sweep)
      requires Distinct(options) && AnglesFollow(s)
      ensures forall i :: 0 <= i < |options| ==> options[i].angle == SweepAngle(s, i)
      ensures forall i, j :: 0 <= i < j < |options| ==> options[i].angle != options[j].angle
    {
      forall i | 0 <= i < |options|
        ensures options[i].angle == SweepAngle(s, i)
      {
        IndexOfDistinct(options, i);
      }
      forall i, j | 0 <= i < j < |options|
        ensures options[i].angle != options[j].angle
      {
        SweepAnglesDistinct(s, i, j);
      }
    }
  }
}
