# JonContextMenu in Dafny

JonContextMenu is an iOS widget. A long press opens a ring of round option
buttons around the finger. Moving the finger highlights ("activates") an
option. Lifting the finger over an active option selects it. A host object,
the delegate, is told when the menu opens or closes and when an item is
activated, deactivated or selected. This project models three parts of the
library and proves properties about them:

- `menu_tracker.dfy` (module `MenuTracker`) models the gesture handler
  `JonContextMenu.Builder`. It is a class that keeps the current item and the
  open menu view, and updates the items' `isActive` flags in place. Every
  delegate call is appended to a ghost event log. The class invariant `Valid`
  holds that only the current item may be active, and that no item is active
  while the menu is closed. Each handler is proved against a two-state
  predicate:
  - `OpenedAt` for opening the menu;
  - `MovedTo` for a finger move;
  - `ClosedAfter` for lifting the finger or cancelling.

  The hit test is the pure function `FirstHit`.
- `tracker_scenarios.dfy` (module `TrackerScenarios`) holds short client
  gestures on a three-item menu. Each one is derived from the handlers'
  contracts alone:
  - hover, leave, release;
  - release after a single move;
  - activate then select;
  - cancel over an active item.
- `menu_layout.dfy` (module `MenuLayout`) models the menu view
  `JonContextMenuView`:
  - which way the ring opens on each axis;
  - the table from that direction pair to a start angle and sense;
  - the loops that give every option its angle;
  - the distances from the touch point;
  - where the title label goes.

  The view is a class whose constructor runs the same steps as the Swift
  initialiser. The option angles are proved to follow the sweep table, and
  to be pairwise different when no option is listed twice.
- `hex_color.dfy` (module `HexColor`) models the example app's
  `UIColor(hexString:)`, which the library also uses for its default colours.
  It covers:
  - trimming the non-alphanumeric characters;
  - `Scanner.scanHexInt32`;
  - splitting the value into channels by the trimmed length.

  The result is the ARGB channels before the division by 255. The channels
  are proved to lie in 0..255 for every input. Each of the three formats is
  proved to decode digit by digit. Formatting a colour as `#rrggbb` and
  parsing it back is proved to give the colour back. The two library default
  colours are computed.
- `optional.dfy` (module `Optional`) is the shared `Option` type.

Modelling choices:

- Activating an item takes two moves. A move that finds no current item, or
  lands outside it, only makes the first item under the finger current
  (JonContextMenu.swift:214-219). A later move inside that item's frame
  activates it (JonContextMenu.swift:203-207).
- Moving off every item deactivates the current item but keeps it current.
  The loop at JonContextMenu.swift:214-219 assigns `currentItem` only on a hit.
- Releasing selects the current item only if it is active
  (JonContextMenu.swift:190). So releasing right after one move onto an item
  selects nothing.
- With no delegate set, the optional-chained delegate calls do nothing. The
  model has a `hasDelegate` flag, and `Notify` logs calls only when it is set.
  Every contract of the tracker states its log through `Notify`.
- `options[0]` is read (JonContextMenuView.swift:117 and :127), so the view
  needs at least one option. The constructor requires a non-empty list.
- A long-press recogniser delivers `.began` once at the start of a gesture.
  It delivers `.changed`, `.ended` and `.cancelled` only after it, so the menu
  is closed at `.began` and open at the others. `SetupTouchAction` takes this
  order as its precondition. The Swift code does the following outside it:
  - `.began` with a menu open makes `showMenu` (JonContextMenu.swift:224-230)
    replace the view and clear `currentItem`. The old view stays in the
    window, and an item active in it stays active.
  - `.changed` with no menu works as long as no `activate` or `deactivate`
    call is reached (JonContextMenu.swift:205, :211). Reaching one unwraps
    the nil view and crashes.
  - `.ended` or `.cancelled` with no menu crash in `dismissMenu`
    (JonContextMenu.swift:238) on the nil view.
- `JonContextMenu.swift` creates the view as
  `JonContextMenuView(properties, touchPoint:)` and calls `activate` and
  `deactivate` on it. `JonContextMenuView.swift` has neither that initialiser
  nor those methods: its initialiser is `init(frame:options:point:)`
  (JonContextMenuView.swift:54), and its options are the `JonAction` type of
  `JonOption.swift`. The layout model follows `JonContextMenuView.swift` and
  `JonOption.swift`. In the tracker model the view's `Activate` and
  `Deactivate` only set the flag. The visual effect of activation is not part
  of this model.

## Model

| member | source | states |
|---|---|---|
| `MenuTracker.FirstHit` | JonContextMenu/JonContextMenu/JonContextMenu.swift:214-219 | The loop's hit: a position whose frame holds the point (`Contains`, half-open), with no earlier frame holding it. None exactly when no frame holds the point. |
| `MenuTracker.FirstHitAt` | JonContextMenu/JonContextMenu/JonContextMenu.swift:214-219 | Converse: if frame k holds the point and no earlier one does, the hit is k. |
| `MenuTracker.Item.constructor` | JonContextMenu/JonContextMenu/JonItem.swift:27-30 | A new item is inactive and keeps its title and frame. |
| `MenuTracker.MenuView.Activate` | JonContextMenu/JonContextMenu/JonContextMenu.swift:205 | The item ends active; its frame is untouched. |
| `MenuTracker.MenuView.Deactivate` | JonContextMenu/JonContextMenu/JonContextMenu.swift:211 | The item ends inactive; its frame is untouched. |
| `MenuTracker.Builder.constructor` | JonContextMenu/JonContextMenu/JonContextMenu.swift:146-154 | A builder over inactive items starts with no menu, no current item and no delegate calls, and satisfies `Valid`. |
| `MenuTracker.Builder.AtMostOneActive` | JonContextMenu/JonContextMenu/JonContextMenu.swift:202-221 | Under the invariant, any two active items are the same item. |
| `MenuTracker.Builder.NoneActiveWhenClosed` | JonContextMenu/JonContextMenu/JonContextMenu.swift:233-241 | Under the invariant, with no menu open, no item is active. |
| `MenuTracker.Builder.SelectionOnRelease` | JonContextMenu/JonContextMenu/JonContextMenu.swift:190-192 | Release reports a selection exactly when a current item exists and is active, and it reports that item. |
| `MenuTracker.Builder.SetupTouchAction` | JonContextMenu/JonContextMenu/JonContextMenu.swift:166-180 | Dispatch on the recogniser state: began opens, changed moves, ended closes with the release selection, cancelled closes with no selection. Any other state changes nothing. The invariant is kept and frames do not change. |
| `MenuTracker.Builder.LongPressBegan` | JonContextMenu/JonContextMenu/JonContextMenu.swift:183-186 | Opens the menu: new view at the touch location, no current item, one `menuOpened` call, flags and frames unchanged. |
| `MenuTracker.Builder.LongPressMoved` | JonContextMenu/JonContextMenu/JonContextMenu.swift:202-221 | Inside the current item, it ends active; `menuItemWasActivated` is called only if it was inactive. Elsewhere, the old current item ends inactive, with `menuItemWasDeactivated` called only if it was active, and the first item holding the finger becomes current. Over no item the current item stays. No other flag changes; the invariant is kept. |
| `MenuTracker.Builder.SelectItemAt` | JonContextMenu/JonContextMenu/JonContextMenu.swift:214-219 | The loop with `break`: the current item becomes the item at `FirstHit`, or stays as it was when nothing is hit. |
| `MenuTracker.Builder.LongPressEnded` | JonContextMenu/JonContextMenu/JonContextMenu.swift:189-194 | Closes the menu after reporting the active current item as selected. Then no item is active, the current item is kept, and the calls are the selection (if any) followed by `menuClosed`. |
| `MenuTracker.Builder.LongPressCancelled` | JonContextMenu/JonContextMenu/JonContextMenu.swift:197-199 | Closes the menu with no selection: `menuClosed` only, and no item stays active. |
| `MenuTracker.Builder.ShowMenu` | JonContextMenu/JonContextMenu/JonContextMenu.swift:224-230 | Clears the current item, creates a fresh view at the location and calls `menuOpened`. |
| `MenuTracker.Builder.DismissMenu` | JonContextMenu/JonContextMenu/JonContextMenu.swift:233-241 | Deactivates the current item without a delegate call, calls `menuClosed`, drops the view and keeps the current item. |
| `TrackerScenarios.OpenAndMoveOnto` | JonContextMenu/JonContextMenu/JonContextMenu.swift:183-221 | Long press then one move onto item k: k becomes current but stays inactive. The only call is `menuOpened`. |
| `TrackerScenarios.ActivateCurrent` | JonContextMenu/JonContextMenu/JonContextMenu.swift:203-207 | A move inside the inactive current item activates it, with exactly one `menuItemWasActivated` call. |
| `TrackerScenarios.OpenAndActivate` | JonContextMenu/JonContextMenu/JonContextMenu.swift:183-221 | Long press and two moves onto item k leave k current and active. The calls are `menuOpened`, `menuItemWasActivated(k)`. |
| `TrackerScenarios.MoveWithin` | JonContextMenu/JonContextMenu/JonContextMenu.swift:203-208 | A move inside the active current item changes nothing and calls nothing. |
| `TrackerScenarios.MoveOff` | JonContextMenu/JonContextMenu/JonContextMenu.swift:209-220 | A move from the active current item to empty space deactivates it and keeps it current, with one `menuItemWasDeactivated` call. |
| `TrackerScenarios.Release` | JonContextMenu/JonContextMenu/JonContextMenu.swift:189-194 | Release adds the selection (if any) and then `menuClosed`, and leaves no item active. |
| `MenuLayout.VerticalDirection` | JonContextMenu/JonContextMenu/JonContextMenuView.swift:142-154 | `Down` iff too close to the top, `Up` iff clear of the top but too close to the bottom, `Middle` iff clear of both. Never a horizontal direction. |
| `MenuLayout.HorizontalDirection` | JonContextMenu/JonContextMenu/JonContextMenuView.swift:156-168 | `Right` iff too close to the left edge, `Left` iff clear of it but too close to the right edge, `Middle` iff clear of both. Never a vertical direction. |
| `MenuLayout.CalculateDirections` | JonContextMenu/JonContextMenu/JonContextMenuView.swift:131-140 | Both axes use `ClearanceSize`, the clearance 20 + item width + 45. The vertical axis also uses the item width. |
| `MenuLayout.SweepFor` | JonContextMenu/JonContextMenu/JonContextMenuView.swift:170-200 | The table has an entry exactly for (vertical, horizontal) pairs; every other pair falls to the default branch. |
| `MenuLayout.ClassifiedPairsHaveSweep` | JonContextMenu/JonContextMenu/JonContextMenuView.swift:131-200 | Every pair the classification can produce has an entry, so the default branch is never taken. |
| `MenuLayout.SweepAnglesDistinct` | JonContextMenu/JonContextMenu/JonContextMenuView.swift:202-214 | `SweepAngle` puts consecutive options 45 degrees apart in the sweep's sense, and different positions get different angles. |
| `MenuLayout.LabelFrame` | JonContextMenu/JonContextMenu/JonContextMenuView.swift:77-82 | The label is at x 20, 100 high and 1/1.2 of the screen width wide. In the lower half it ends 100 above the touch; otherwise it starts 100 below. It never covers the touch row. |
| `MenuLayout.MiddleKeepsOptionsOnScreen` | JonContextMenu/JonContextMenu/JonContextMenuView.swift:126-168 | Per axis: if the horizontal direction is `Middle`, an option whose centre is within `XDistance` of the touch horizontally lies wholly inside the screen width. If the vertical direction is `Middle`, one whose centre is within `YDistance` vertically lies wholly inside the screen height. The vertical half needs an option no taller than its width plus 22.5, because `ClearanceSize` is computed from the width only. |
| `MenuLayout.DirectionExamples` | JonContextMenu/JonContextMenu/JonContextMenuView.swift:131-168 | On a 400 x 800 screen: a touch near the bottom opens up, near the top opens down, in the centre opens in the middle. |
| `MenuLayout.IndexOf` | JonContextMenu/JonContextMenu/JonContextMenuView.swift:204 | `index(of:)`: a position holding the option, with no earlier position holding it. |
| `MenuLayout.IndexOfDistinct` | JonContextMenu/JonContextMenu/JonContextMenuView.swift:204 | In a list without repeats, the first position of the i-th element is i. |
| `MenuLayout.MenuOption.constructor` | JonContextMenu/JonContextMenu/JonOption.swift:12-46 | A new option has a 45 x 45 button, angle 0 and its centre at (22.5, 22.5). |
| `MenuLayout.ContextMenuView.constructor` | JonContextMenu/JonContextMenu/JonContextMenuView.swift:54-65 | The direction comes from the first option's width, and the label and distances are placed. Every option is centred on the touch point and carries the angle of its slot in the table's sweep. |
| `MenuLayout.ContextMenuView.CreateTouchPoint` | JonContextMenu/JonContextMenu/JonContextMenuView.swift:108-118 | The direction pair is computed for the first option's button width. |
| `MenuLayout.ContextMenuView.AddSubviews` | JonContextMenu/JonContextMenu/JonContextMenuView.swift:67-86 | The label frame is `LabelFrame` of the touch point. |
| `MenuLayout.ContextMenuView.CreateView` | JonContextMenu/JonContextMenu/JonContextMenuView.swift:88-98 | Distances are set, every option is centred on the touch point, and the angles follow the table's sweep when there is one. |
| `MenuLayout.ContextMenuView.ResetItemsPosition` | JonContextMenu/JonContextMenu/JonContextMenuView.swift:120-124 | Every option's centre becomes the touch point; angles are unchanged. |
| `MenuLayout.ContextMenuView.CalculateDistanceToItem` | JonContextMenu/JonContextMenu/JonContextMenuView.swift:126-129 | The distance on each axis is 22.5 + 20 + half the first option's button width (or height). |
| `MenuLayout.ContextMenuView.AnglesForDirection` | JonContextMenu/JonContextMenu/JonContextMenuView.swift:170-200 | A pair in the table gives every option its sweep angle; any other pair leaves all angles. Centres are never changed. |
| `MenuLayout.ContextMenuView.PositiveQuarterAngle` | JonContextMenu/JonContextMenu/JonContextMenuView.swift:202-207 | Every option gets start + 45 x its first position; centres are unchanged. |
| `MenuLayout.ContextMenuView.NegativeQuarterAngle` | JonContextMenu/JonContextMenu/JonContextMenuView.swift:209-214 | Every option gets start - 45 x its first position; centres are unchanged. |
| `MenuLayout.ContextMenuView.DistinctOptionsGetDistinctAngles` | JonContextMenu/JonContextMenu/JonContextMenuView.swift:202-214 | With no option listed twice, option i gets the angle of slot i and all angles differ. |
| `HexColor.TrimLeading` | Example/JonContextMenu-Example/JonContextMenu-Example/Extension.swift:16 | The result is a suffix of the input. Only non-alphanumerics were dropped, and it starts with an alphanumeric unless empty. |
| `HexColor.TrimTrailing` | Example/JonContextMenu-Example/JonContextMenu-Example/Extension.swift:16 | The result is a prefix of the input. Only non-alphanumerics were dropped, and it ends with an alphanumeric unless empty. |
| `HexColor.Trim` | Example/JonContextMenu-Example/JonContextMenu-Example/Extension.swift:16 | The trimmed string is empty or starts and ends with an alphanumeric. |
| `HexColor.TrimIsSlice` | Example/JonContextMenu-Example/JonContextMenu-Example/Extension.swift:16 | The trimmed string is one contiguous slice of the input, with only non-alphanumerics cut off on either side. |
| `HexColor.TrimIgnoresSurroundingJunk` | Example/JonContextMenu-Example/JonContextMenu-Example/Extension.swift:16 | Non-alphanumerics added on either side do not change the trimmed string. |
| `HexColor.TrimIdempotent` | Example/JonContextMenu-Example/JonContextMenu-Example/Extension.swift:16 | Trimming twice is trimming once. |
| `HexColor.DigitValue` | Example/JonContextMenu-Example/JonContextMenu-Example/Extension.swift:18 | A hex digit's value is below 16. |
| `HexColor.HexValue` | Example/JonContextMenu-Example/JonContextMenu-Example/Extension.swift:18 | The value of n hex digits is below 16^n. |
| `HexColor.LeadingHexDigits` | Example/JonContextMenu-Example/JonContextMenu-Example/Extension.swift:18 | The longest prefix of hex digits: all hex digits, and the next character is not one. |
| `HexColor.ScanHex` | Example/JonContextMenu-Example/JonContextMenu-Example/Extension.swift:17-18 | The scanned value fits in a UInt32 and is below 16^length of the scanned string. |
| `HexColor.ScanHexOfDigits` | Example/JonContextMenu-Example/JonContextMenu-Example/Extension.swift:18 | Up to eight hex digits scan to exactly their value. |
| `HexColor.ScanHexPrefixed` | Example/JonContextMenu-Example/JonContextMenu-Example/Extension.swift:18 | The scanner skips a `0x` or `0X` prefix: up to eight digits after it scan to their value. |
| `HexColor.ScanHexStopsAtNonHex` | Example/JonContextMenu-Example/JonContextMenu-Example/Extension.swift:18 | Without a prefix, the scanner reads only the leading hex digits: the value is that of `LeadingHexDigits`. |
| `HexColor.ScanHexNoDigits` | Example/JonContextMenu-Example/JonContextMenu-Example/Extension.swift:17-18 | With no prefix and no leading hex digit, the variable keeps its initial 0. |
| `HexColor.HexValueAtLeastLeading` | Example/JonContextMenu-Example/JonContextMenu-Example/Extension.swift:18 | The first digit of a hex string weighs 16 to the power of the number of digits after it. |
| `HexColor.HexValueOverflows` | Example/JonContextMenu-Example/JonContextMenu-Example/Extension.swift:17-18 | Nine or more hex digits led by a non-zero digit are worth more than UInt32.max. |
| `HexColor.ScanHexSaturates` | Example/JonContextMenu-Example/JonContextMenu-Example/Extension.swift:17-18 | Nine or more digits led by a non-zero digit overflow a UInt32, and the scanned value is UInt32.max. |
| `HexColor.TrimOfAlphanumericEnds` | Example/JonContextMenu-Example/JonContextMenu-Example/Extension.swift:16 | A string that starts and ends with an alphanumeric is left as it is by trimming. |
| `HexColor.ColorFromHex` | Example/JonContextMenu-Example/JonContextMenu-Example/Extension.swift:15-30 | For every input string, all four channels lie in 0..255. Alpha is 255 unless the trimmed text has 8 characters. The lemmas below fix the value of each branch. |
| `HexColor.OtherLengthIsOpaqueBlack` | Example/JonContextMenu-Example/JonContextMenu-Example/Extension.swift:28-29 | Any other trimmed length gives opaque black. |
| `HexColor.ThreeDigitColor` | Example/JonContextMenu-Example/JonContextMenu-Example/Extension.swift:22-23 | Three hex digits, with any non-alphanumerics around them, give alpha 255 and each digit d as channel 17 d. |
| `HexColor.SixDigitColor` | Example/JonContextMenu-Example/JonContextMenu-Example/Extension.swift:24-25 | Six hex digits, with any non-alphanumerics around them, give alpha 255 and one channel per digit pair. |
| `HexColor.EightDigitColor` | Example/JonContextMenu-Example/JonContextMenu-Example/Extension.swift:26-27 | Eight hex digits give alpha, red, green and blue, one per digit pair, alpha first. |
| `HexColor.ByteValue` | Example/JonContextMenu-Example/JonContextMenu-Example/Extension.swift:25 | Two hex digits give a byte whose high and low nibbles are the digits. |
| `HexColor.PrefixedSixDigitColor` | Example/JonContextMenu-Example/JonContextMenu-Example/Extension.swift:16-27 | `0xRRGGBB` (or `0X`) trims to eight characters and takes the 32-bit branch. The scanner skips the prefix, so the colour is (0, RR, GG, BB): alpha 0. |
| `HexColor.FormatRgb` | Example/JonContextMenu-Example/JonContextMenu-Example/Extension.swift:24-25 | A colour formats as six hex digits. |
| `HexColor.FormatRgbRoundTrip` | Example/JonContextMenu-Example/JonContextMenu-Example/Extension.swift:15-30 | Parsing `#rrggbb` or `rrggbb` formatted from (r, g, b) gives back (255, r, g, b). |
| `HexColor.DefaultActiveColor` | JonContextMenu/JonContextMenu/JonContextMenu.swift:39 | The default active button colour `#c62828` is (255, 0xC6, 0x28, 0x28). |
| `HexColor.DefaultTitleColor` | JonContextMenu/JonContextMenu/JonContextMenu.swift:51-54 | The default title and touch-point colour `#212121` is (255, 0x21, 0x21, 0x21). |

## Left out

- The trigonometric placement of the options (`calculatePointCoordiantes`) is
  not modelled. Neither are their spring animation (`animateItem`) and the
  label's `showTitle`/`hideLabel`. These are floating-point trigonometry and
  timing; the model stops at the angles and the distances.
- `angleCoef` (JonContextMenuView.swift:60) and `isItemActive`
  (JonContextMenu.swift:144) are left out because nothing reads them.
- UIKit plumbing is left out: the key window, `getTouchedView`'s snapshot,
  `addSubview`, `removeFromSuperview`, Auto Layout constraints, and the
  colours and borders of the views.
- The builder's fluent setters (JonContextMenu.swift:63-127) only store
  configuration. Of that configuration, the model keeps the item list and
  whether a delegate is set.
- Frames are fixed integer rectangles in the tracker. Frames that move during
  the entry animation, and `CGFloat` coordinates, are not modelled.
- The screen bounds that `UIScreen.main` supplies are a parameter of the
  layout functions.
- HexColor.Trim: only ASCII letters and digits count as alphanumeric.
  Foundation's `CharacterSet.alphanumerics` also holds other Unicode
  letters, marks and digits.
- HexColor.ColorFromHex: `hex.count` is the number of characters, not the
  number of grapheme clusters. The result stops at the integer channels,
  before the `CGFloat` division by 255.
- HexColor.ScanHex: the scanner's skipping of leading whitespace is not
  modelled. No whitespace survives the trimming step.
- MenuTracker.Builder.SetupTouchAction: the model only accepts the state
  order a long-press recogniser delivers: `.began` with the menu closed, the
  others with it open. It does not model a second `.began` that replaces an
  open view and leaves the old one on screen. Nor does it model the crashes
  on a nil view, described under the modelling choices above.
- MenuLayout.ContextMenuView.constructor: it requires at least one option,
  because the Swift initialiser reads `options[0]`.
- The `UITableView` helpers in Extension.swift:35-46 are not part of this
  model.
