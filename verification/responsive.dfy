/** The breakpoint selector of styles/responsive.ts.  The platform test and the
    window width, read once from React Native when the module loads, become
    parameters. */
module Responsive {

  /** The `breakpoints` consulted by `getResponsiveValue`; the declared `mobile`
      entry is never read. */
  const TabletBreakpoint: int := 768
  const DesktopBreakpoint: int := 1024

  /** One value per screen class, in the argument order of `getResponsiveValue`. */
  datatype Choice<T> = Choice(mobile: T, tablet: T, desktop: T)

  datatype ScreenClass = Mobile | Tablet | Desktop

  function ClassRank(c: ScreenClass): nat {
    match c
    case Mobile => 0
    case Tablet => 1
    case Desktop => 2
  }

  /** The screen class `getResponsiveValue` picks a value for. */
  function Classify(isWeb: bool, width: int): (c: ScreenClass)
    ensures !isWeb ==> c == Mobile
    ensures isWeb && width >= DesktopBreakpoint ==> c == Desktop
    ensures isWeb && TabletBreakpoint <= width < DesktopBreakpoint ==> c == Tablet
    ensures isWeb && width < TabletBreakpoint ==> c == Mobile
  {
    if !isWeb then Mobile
    else if width >= DesktopBreakpoint then Desktop
    else if width >= TabletBreakpoint then Tablet
    else Mobile
  }

  /** `getResponsiveValue`. */
  function Select<T>(isWeb: bool, width: int, v: Choice<T>): (r: T)
    ensures Classify(isWeb, width) == Mobile ==> r == v.mobile
    ensures Classify(isWeb, width) == Tablet ==> r == v.tablet
    ensures Classify(isWeb, width) == Desktop ==> r == v.desktop
  {
    match Classify(isWeb, width)
    case Mobile => v.mobile
    case Tablet => v.tablet
    case Desktop => v.desktop
  }

  /** A wider web window never selects a smaller screen class. */
  lemma ClassifyMonotone(w1: int, w2: int)
    requires w1 <= w2
    ensures ClassRank(Classify(true, w1)) <= ClassRank(Classify(true, w2))
  {
  }

  /** A numeric entry whose values grow from mobile to desktop. */
  predicate Growing(v: Choice<int>) {
    v.mobile <= v.tablet <= v.desktop
  }

  /** The numeric entries of the `responsive` table (spacing, font sizes,
      border radii); `full` is the constant 9999 and the container width is text. */
  const NumericTable: seq<Choice<int>> := [
    Choice(4, 6, 8), Choice(8, 12, 16), Choice(16, 20, 24), Choice(24, 32, 40), Choice(32, 48, 64),
    Choice(10, 11, 12), Choice(12, 13, 14), Choice(14, 15, 16), Choice(16, 18, 20), Choice(20, 24, 28),
    Choice(24, 32, 40),
    Choice(4, 6, 8), Choice(8, 10, 12), Choice(12, 16, 20)
  ]

  /** For a growing entry, the selected size grows with the window width. */
  lemma SelectMonotone(v: Choice<int>, w1: int, w2: int)
    requires Growing(v) && w1 <= w2
    ensures Select(true, w1, v) <= Select(true, w2, v)
  {
    ClassifyMonotone(w1, w2);
  }

  /** Every numeric entry of the table grows, so every size in the application
      grows with the window width. */
  lemma TableGrows(i: nat, w1: int, w2: int)
    requires i < |NumericTable| && w1 <= w2
    ensures Growing(NumericTable[i])
    ensures Select(true, w1, NumericTable[i]) <= Select(true, w2, NumericTable[i])
  {
    SelectMonotone(NumericTable[i], w1, w2);
  }
}
