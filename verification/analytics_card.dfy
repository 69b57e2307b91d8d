/** One headline card of the dashboard: the formatted value and the coloured
    "change from previous period" line. */
module AnalyticsCard {
  import opened Wrappers
  import opened AnalyticsFormat

  /** A card's `value` prop: a number or an already formatted string. */
  datatype CardValue = NumValue(n: real) | TextValue(s: string)

  /** The optional `change` prop: left out, explicitly `null`, or a number. */
  datatype ChangeProp = Undefined | Null | Change(c: real)

  datatype CardProps = CardProps(
    title: string,
    value: CardValue,
    change: ChangeProp,
    formatter: Option<real -> string>,
    positiveIsGood: Option<bool>)

  /** What the value slot shows: a formatter's output, or the raw prop. */
  datatype Shown = ShownText(text: string) | ShownRaw(raw: CardValue)

  datatype ChangeLine = ChangeLine(text: string, color: string)

  datatype CardView = CardView(title: string, shown: Shown, changeLine: Option<ChangeLine>)

  const Green := "#10b981"
  const Red := "#ef4444"

  /** The `positiveIsGood = true` default. */
  function PositiveIsGood(props: CardProps): (b: bool)
    ensures props.positiveIsGood.None? ==> b
  {
    props.positiveIsGood.GetOr(true)
  }

  /** `Number(value)`; converting a string is the runtime's number parser,
      supplied as `numberOf`. */
  function NumberOf(v: CardValue, numberOf: string -> real): real {
    match v
    case NumValue(n) => n
    case TextValue(s) => numberOf(s)
  }

  /** `change || null`: zero, `null` and a missing change all become `null`. */
  function NormaliseChange(change: ChangeProp): (r: Option<real>)
    ensures r.None? <==> !change.Change? || change.c == 0.0
    ensures r.Some? ==> change == Change(r.value) && r.value != 0.0
  {
    match change
    case Change(c) => if c == 0.0 then None else Some(c)
    case _ => None
  }

  /** `Card`. */
  function Card(props: CardProps, numberOf: string -> real): (view: CardView)
    ensures view.title == props.title
    ensures props.formatter.Some? ==>
      view.shown == ShownText(props.formatter.value(NumberOf(props.value, numberOf)))
    ensures props.formatter.None? ==> view.shown == ShownRaw(props.value)
    ensures view.changeLine.Some? <==> props.change != Undefined
    ensures view.changeLine.Some? ==>
      view.changeLine.value.text == FormatChange(NormaliseChange(props.change)).text + " from previous period"
      && (view.changeLine.value.color == Green
          <==> FormatChange(NormaliseChange(props.change)).isPositive != !PositiveIsGood(props))
      && view.changeLine.value.color in {Green, Red}
  {
    var shown := match props.formatter
      case Some(f) => ShownText(f(NumberOf(props.value, numberOf)))
      case None => ShownRaw(props.value);
    var changeData := FormatChange(NormaliseChange(props.change));
    var isPositive := if PositiveIsGood(props) then changeData.isPositive else !changeData.isPositive;
    var line := if props.change == Undefined then None
      else Some(ChangeLine(changeData.text + " from previous period", if isPositive then Green else Red));
    CardView(props.title, shown, line)
  }

  /** Green means the change went the good way: for a non-zero change, up
      when up is good and down when down is good. */
  lemma GreenMeansGoodDirection(props: CardProps, numberOf: string -> real)
    requires props.change.Change? && props.change.c != 0.0
    ensures Card(props, numberOf).changeLine.Some?
    ensures Card(props, numberOf).changeLine.value.color == Green
        <==> (props.change.c > 0.0 <==> PositiveIsGood(props))
  {
  }

  /** A zero change is displayed exactly like a `null` one. */
  lemma ZeroChangeLooksLikeNull(props: CardProps, numberOf: string -> real)
    requires props.change == Change(0.0)
    ensures Card(props, numberOf) == Card(props.(change := Null), numberOf)
    ensures Card(props, numberOf).changeLine.value.text == "0% from previous period"
  {
    assert "0%" + " from previous period" == "0% from previous period";
  }

  /** With `positiveIsGood = false`, "no change" is shown in green. */
  lemma NoChangeIsGreenWhenLowerIsBetter(props: CardProps, numberOf: string -> real)
    requires props.positiveIsGood == Some(false)
    requires props.change == Null || props.change == Change(0.0)
    ensures Card(props, numberOf).changeLine == Some(ChangeLine("0% from previous period", Green))
  {
    assert NormaliseChange(props.change) == None;
    NoChangeLine();
    var line := Card(props, numberOf).changeLine;
    assert line.Some? && line.value.text == "0% from previous period";
    assert line.value.color == Green;
  }

  lemma NoChangeLine()
    ensures FormatChange(None) == ChangeText("0%", false)
    ensures FormatChange(None).text + " from previous period" == "0% from previous period"
  {
    assert "0%" + " from previous period" == "0% from previous period";
  }
}
