/** `status_colorize` and the string form (`to_s`) of the cells the CLI
    prints and sorts by. */
module Colour {
  import opened Fleet

  /** The colours `status_colorize` chooses from. */
  datatype Colour = Magenta | Green | LightBlue | Yellow | Red | Default

  /** A table cell: a string, nil, a bare status symbol (colour off), or a
      status name painted with a colour. */
  datatype Cell = Str(s: string) | Nil | Sym(status: Status) | Painted(text: string, colour: Colour)

  /** The `case status` of `status_colorize`: each colour names the states
      that get it, so the colour tells the state apart except for the two
      transient ones, and the default colour marks exactly the unknown states. */
  function ColourOf(s: Status): (c: Colour)
    ensures c == Magenta <==> s == Pending || s == Stopping
    ensures c == Green <==> s == Running
    ensures c == LightBlue <==> s == Stopped
    ensures c == Yellow <==> s == ShuttingDown
    ensures c == Red <==> s == Terminated
    ensures c == Default <==> s.Other?
  {
    match s
    case Pending => Magenta
    case Stopping => Magenta
    case Running => Green
    case Stopped => LightBlue
    case ShuttingDown => Yellow
    case Terminated => Red
    case Other(_) => Default
  }

  /** The status cell: the bare status when colour is off, otherwise its name
      painted with a colour that is the default one only for unknown states. */
  function StatusColorize(status: Status, color: bool): (c: Cell)
    ensures !color ==> c == Sym(status)
    ensures color ==> c.Painted? && c.text == StatusName(status)
    ensures color ==> (c.colour == Default <==> status.Other?)
    ensures color ==> c.colour == ColourOf(status)
  {
    if !color then Sym(status) else Painted(StatusName(status), ColourOf(status))
  }

  /** Only the two transient states share a colour; every other known state
      has one of its own. */
  lemma SharedColourOnlyForTransientStates(a: Status, b: Status)
    requires a != b && !a.Other? && !b.Other?
    requires ColourOf(a) == ColourOf(b)
    ensures {a, b} == {Pending, Stopping}
  {
  }

  /** The foreground code of the colorize gem's SGR sequence for each colour. */
  function ForegroundCode(c: Colour): (code: string)
    ensures |code| == 2
  {
    match c
    case Magenta => "35"
    case Green => "32"
    case LightBlue => "94"
    case Yellow => "33"
    case Red => "31"
    case Default => "39"
  }

  /** The colorize gem's opening sequence: ESC, `[0;`, the foreground code,
      `;49m` (default background); ten characters in all. */
  function Sgr(c: Colour): (p: string)
    ensures |p| == 10 && p[0] == '\U{1b}' && p[4..6] == ForegroundCode(c)
  {
    "\U{1b}[0;" + ForegroundCode(c) + ";49m"
  }

  /** The closing sequence that resets all attributes. */
  const Reset: string := "\U{1b}[0m"

  /** `cell.to_s`: nil is the empty string, a symbol its name, a painted
      string the text between the opening sequence of its colour and the reset. */
  function CellText(c: Cell): (t: string)
    ensures c.Str? ==> t == c.s
    ensures c.Nil? ==> t == ""
    ensures c.Sym? ==> t == StatusName(c.status)
    ensures c.Painted? ==> t == Sgr(c.colour) + c.text + Reset
  {
    match c
    case Str(s) => s
    case Nil => ""
    case Sym(status) => StatusName(status)
    case Painted(text, colour) => Sgr(colour) + text + Reset
  }

  /** `x.to_s` for an optional string (an IP address that may be nil). */
  function OptionCell(x: Option<string>): (c: Cell)
    ensures x.None? ==> CellText(c) == ""
    ensures x.Some? ==> CellText(c) == x.value
  {
    match x
    case None => Nil
    case Some(s) => Str(s)
  }
}
