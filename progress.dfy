/** frontend/Task-manager/src/component/layout/Progress.jsx: the progress
    bar. The value is clamped to 0..100, that percentage is the number shown and
    the bar width, and the colour is a named one or, in 'auto' mode, picked
    by thresholds on the percentage. Values are whole numbers here. */
module Progress {
  import opened Common

  /** The colour variants of `colorClasses`. */
  datatype Colour = Primary | Success | Warning | Danger | Blue

  /** `Math.min(100, Math.max(0, value))` */
  function Percentage(value: int): (p: int)
    ensures 0 <= p <= 100
    ensures 0 <= value <= 100 ==> p == value
    ensures value < 0 ==> p == 0
    ensures value > 100 ==> p == 100
  {
    Min(100, Max(0, value))
  }

  /** getAutoColor, first threshold that the percentage reaches. */
  function AutoColour(p: int): (c: Colour)
    ensures c == Success <==> p >= 75
    ensures c == Primary <==> 50 <= p < 75
    ensures c == Warning <==> 25 <= p < 50
    ensures c == Danger <==> p < 25
  {
    if p >= 75 then Success
    else if p >= 50 then Primary
    else if p >= 25 then Warning
    else Danger
  }

  /** `colorClasses[color]`: the variant of that name, if there is one. */
  function NamedColour(name: string): (c: Option<Colour>)
    ensures c.None? <==> name !in {"primary", "success", "warning", "danger", "blue"}
  {
    if name == "primary" then Some(Primary)
    else if name == "success" then Some(Success)
    else if name == "warning" then Some(Warning)
    else if name == "danger" then Some(Danger)
    else if name == "blue" then Some(Blue)
    else None
  }

  /** What the component draws. */
  datatype Bar = Bar(shown: int, width: int, colour: Colour)

  /** The bar: label and width are the clamped percentage; 'auto' picks the
      colour from it, a known name gives its variant, any other name the
      primary one. */
  function Render(value: int, colour: string): (b: Bar)
    ensures b.shown == Percentage(value) && b.width == Percentage(value)
    ensures colour == "auto" ==> b.colour == AutoColour(Percentage(value))
    ensures colour != "auto" && NamedColour(colour).Some? ==> b.colour == NamedColour(colour).value
    ensures colour != "auto" && NamedColour(colour).None? ==> b.colour == Primary
  {
    var p := Percentage(value);
    var c := if colour == "auto" then AutoColour(p) else NamedColour(colour).GetOr(Primary);
    Bar(p, p, c)
  }

  /** A rank of the auto colours, worst first. */
  function Rank(c: Colour): nat {
    match c
    case Danger => 0
    case Warning => 1
    case Primary => 2
    case Success => 3
    case Blue => 4
  }

  /** In 'auto' mode more progress never gives a worse colour, and a value
      outside 0..100 looks like the nearest end. */
  lemma AutoColourMonotone(v1: int, v2: int)
    requires v1 <= v2
    ensures Rank(Render(v1, "auto").colour) <= Rank(Render(v2, "auto").colour)
    ensures v2 > 100 ==> Render(v2, "auto") == Render(100, "auto")
    ensures v1 < 0 ==> Render(v1, "auto") == Render(0, "auto")
  {
  }

  /** The component's default colour is 'primary' and its default value 0:
      an empty bar in the primary colour. */
  lemma DefaultBar()
    ensures Render(0, "primary") == Bar(0, 0, Primary)
    ensures Render(0, "auto") == Bar(0, 0, Danger)
  {
  }
}
