/** `parse_option_config_line` of the offset form: `OPT_<SYM>_<n>DTE_<RIGHT>_ATM`
    or `OPT_<SYM>_<n>DTE_<RIGHT>[_ATM]_<offset>`, and the strike it leads
    to. */
module OptionConfigLatest {
  import opened Wrappers
  import opened PyStr
  import opened PyDict
  import opened OptionTokens
  import opened ConfigLines
  import opened Rounding

  /** `OptionRequest` of the offset form; `offset` is what `float()` gave. */
  datatype OptionRequest = OptionRequest(
    entryLabel: string, symbol: string, daysToExpiry: int, right: Right, offset: PyFloat)

  function ParseOptionConfigLine(line: string): (r: Result<OptionRequest, ParseError>)
  {
    var text := Strip(line);
    ParseParts(text, Split(text, '_'))
  }

  /** The checks on the `_`-separated parts of the stripped entry `text`,
      in the order the program makes them. */
  function ParseParts(text: string, parts: seq<string>): (r: Result<OptionRequest, ParseError>)
  {
    if (|parts| != 5 && |parts| != 6) || parts[0] != "OPT" then Failure(InvalidEntry)
    else
      match ParseDays(parts[2])
      case Failure(e) => Failure(e)
      case Success(days) =>
        match ParseRight(parts[3])
        case Failure(e) => Failure(e)
        case Success(right) =>
          ParseOffset(text, Upper(parts[1]), days, right, parts)
  }

  /** The tail of the entry after the right token: a base token and an
      offset, the bare word ATM, or a bare offset. */
  function ParseOffset(text: string, symbol: string, days: int, right: Right, parts: seq<string>)
    : (r: Result<OptionRequest, ParseError>)
    requires |parts| == 5 || |parts| == 6
    ensures r.Success? ==>
      r.value.entryLabel == text && r.value.symbol == symbol && r.value.daysToExpiry == days && r.value.right == right
    ensures |parts| == 6 && !UpperIs(parts[4], "ATM") ==> r == Failure(UnexpectedBase)
    ensures |parts| == 5 && UpperIs(parts[4], "ATM") ==> r.Success? && r.value.offset == Finite(0.0)
    ensures (|parts| == 5) != UpperIs(parts[4], "ATM") ==>
      && (r.Success? <==> ParseFloat(parts[|parts| - 1]).Some?)
      && (r.Success? ==> Some(r.value.offset) == ParseFloat(parts[|parts| - 1]))
      && (r.Failure? ==> r.error == InvalidOffset)
  {
    if |parts| == 6 && !UpperIs(parts[4], "ATM") then Failure(UnexpectedBase)
    else if |parts| == 5 && UpperIs(parts[4], "ATM") then
      Success(OptionRequest(text, symbol, days, right, Finite(0.0)))
    else
      match ParseFloat(parts[|parts| - 1])
      case None => Failure(InvalidOffset)
      case Some(x) => Success(OptionRequest(text, symbol, days, right, x))
  }

  /** `load_option_requests`: the parsed non-blank, non-comment lines in
      input order, or the error of the first line rejected. Each request is
      labelled with its stripped line and has an upper-case symbol. */
  method LoadOptionRequests(lines: seq<string>) returns (r: Result<seq<OptionRequest>, ParseError>)
    ensures r == ParseAll(Kept(lines), ParseOptionConfigLine)
    ensures r.Success? ==> |r.value| == |Kept(lines)|
    ensures r.Success? ==> forall k :: 0 <= k < |r.value| ==>
      r.value[k].entryLabel == Kept(lines)[k] && IsUpper(r.value[k].symbol)
  {
    r := Load(lines, ParseOptionConfigLine);
    if r.Success? {
      var texts := Kept(lines);
      ParseAllSuccess(texts, ParseOptionConfigLine);
      KeptSpec(lines);
      forall k | 0 <= k < |r.value|
        ensures r.value[k].entryLabel == texts[k] && IsUpper(r.value[k].symbol)
      {
        ParseAccepted(texts[k]);
      }
    }
  }

  /** An accepted entry: its stripped text is the label, it has five or six
      `_`-separated parts starting with OPT, the symbol is the upper-cased
      second part, the days and the right read back from the third and
      fourth parts, and a six-part entry has ATM as fifth part. */
  lemma ParseAccepted(line: string)
    requires ParseOptionConfigLine(line).Success?
    ensures var req, parts := ParseOptionConfigLine(line).value, Split(Strip(line), '_');
      && req.entryLabel == Strip(line)
      && (|parts| == 5 || |parts| == 6) && parts[0] == "OPT"
      && req.symbol == Upper(parts[1]) && IsUpper(req.symbol)
      && ParseDays(parts[2]) == Success(req.daysToExpiry)
      && ParseRight(parts[3]) == Success(req.right)
      && (|parts| == 6 ==> UpperIs(parts[4], "ATM"))
      && Join(parts, '_') == req.entryLabel
  {
    UpperSpec(Split(Strip(line), '_')[1]);
    SplitJoin(Strip(line), '_');
  }

  /** Entries split into the wrong number of parts, or not starting with
      OPT, are rejected before anything else is looked at. */
  lemma ParseRejectsShape(line: string)
    requires var parts := Split(Strip(line), '_');
      (|parts| != 5 && |parts| != 6) || parts[0] != "OPT"
    ensures ParseOptionConfigLine(line) == Failure(InvalidEntry)
  {
  }

  /** A six-part entry whose days and right read correctly but whose fifth
      part is not ATM is rejected for its base token. */
  lemma ParseRejectsBase(line: string)
    requires var parts := Split(Strip(line), '_');
      && |parts| == 6 && parts[0] == "OPT"
      && ParseDays(parts[2]).Success? && ParseRight(parts[3]).Success?
      && !UpperIs(parts[4], "ATM")
    ensures ParseOptionConfigLine(line) == Failure(UnexpectedBase)
  {
  }

  /** An entry that takes its offset from its last part, and whose other
      tokens read correctly, is rejected exactly when `float()` rejects
      that part. */
  lemma ParseRejectsOffset(line: string)
    requires var parts := Split(Strip(line), '_');
      && (|parts| == 5 || |parts| == 6) && parts[0] == "OPT"
      && ParseDays(parts[2]).Success? && ParseRight(parts[3]).Success?
      && (|parts| == 5) != UpperIs(parts[4], "ATM")
    ensures var parts := Split(Strip(line), '_');
      ParseOptionConfigLine(line).Failure? <==> ParseFloat(parts[|parts| - 1]).None?
    ensures ParseOptionConfigLine(line).Failure? ==> ParseOptionConfigLine(line).error == InvalidOffset
  {
  }

  /** The token errors come in the program's order: a bad DTE token before
      a bad right, and a bad right before anything after it. */
  lemma ParseTokenErrors(line: string)
    requires var parts := Split(Strip(line), '_');
      (|parts| == 5 || |parts| == 6) && parts[0] == "OPT"
    ensures var parts := Split(Strip(line), '_');
      && (ParseDays(parts[2]).Failure? ==> ParseOptionConfigLine(line) == Failure(ParseDays(parts[2]).error))
      && (ParseDays(parts[2]).Success? && ParseRight(parts[3]).Failure? ==>
            ParseOptionConfigLine(line) == Failure(InvalidRight))
  {
  }

  /** A five-part entry ending in ATM (any case) means offset zero; any
      other accepted entry takes its offset from `float()` of the last
      part. */
  lemma ParseOffsetSource(line: string)
    requires ParseOptionConfigLine(line).Success?
    ensures var req, parts := ParseOptionConfigLine(line).value, Split(Strip(line), '_');
      if |parts| == 5 && UpperIs(parts[4], "ATM") then req.offset == Finite(0.0)
      else ParseFloat(parts[|parts| - 1]) == Some(req.offset)
  {
  }

  /** The entry that asks for `offset` (a whole number of points) away from
      the at-the-money strike. */
  function Render(symbol: string, days: int, right: Right, offset: int): (line: string)
  {
    Join(RenderParts(symbol, days, right, offset), '_')
  }

  function RenderParts(symbol: string, days: int, right: Right, offset: int): seq<string> {
    ["OPT", symbol, DaysToken(days), RightToken(right), "ATM", IntToString(offset)]
  }

  /** Parsing a rendered entry gives back what was rendered, with the entry
      itself as label. */
  lemma ParseRender(symbol: string, days: int, right: Right, offset: int)
    requires IsUpper(symbol) && '_' !in symbol
    ensures var line := Render(symbol, days, right, offset);
      ParseOptionConfigLine(line)
        == Success(OptionRequest(line, symbol, days, right, Finite(offset as real)))
  {
    var parts := RenderParts(symbol, days, right, offset);
    var line := Join(parts, '_');
    RenderSplit(symbol, days, right, offset);
    ParseRenderParts(line, symbol, days, right, offset);
  }

  /** A rendered entry needs no stripping and splits back into its parts. */
  lemma RenderSplit(symbol: string, days: int, right: Right, offset: int)
    requires '_' !in symbol
    ensures var parts := RenderParts(symbol, days, right, offset);
      Strip(Join(parts, '_')) == Join(parts, '_') && Split(Join(parts, '_'), '_') == parts
  {
    var parts := RenderParts(symbol, days, right, offset);
    RenderNoSeparator(symbol, days, right, offset);
    RenderTrimmed(parts);
    JoinSplit(parts, '_');
  }

  lemma ParseRenderParts(text: string, symbol: string, days: int, right: Right, offset: int)
    requires IsUpper(symbol)
    ensures ParseParts(text, RenderParts(symbol, days, right, offset))
      == Success(OptionRequest(text, symbol, days, right, Finite(offset as real)))
  {
    UpperSpec(symbol);
    ParseDaysToken(days);
    ParseRightToken(right);
    ParseFloatToString(offset);
    AtmIsAtm();
    ParseSixParts(text, symbol, DaysToken(days), RightToken(right), IntToString(offset),
                  days, right, Finite(offset as real));
  }

  lemma AtmIsAtm()
    ensures UpperIs("ATM", "ATM")
  {
  }

  /** A six-part entry with ATM as fifth part whose other tokens all read
      correctly is accepted. */
  lemma ParseSixParts(text: string, symbol: string, dte: string, rightToken: string, offset: string,
                      days: int, right: Right, x: PyFloat)
    requires ParseDays(dte) == Success(days) && ParseRight(rightToken) == Success(right)
    requires UpperIs("ATM", "ATM") && ParseFloat(offset) == Some(x)
    ensures ParseParts(text, ["OPT", symbol, dte, rightToken, "ATM", offset])
      == Success(OptionRequest(text, Upper(symbol), days, right, x))
  {
  }

  lemma RenderNoSeparator(symbol: string, days: int, right: Right, offset: int)
    requires '_' !in symbol
    ensures var parts := RenderParts(symbol, days, right, offset);
      forall k :: 0 <= k < |parts| ==> '_' !in parts[k]
  {
    var parts := RenderParts(symbol, days, right, offset);
    forall k | 0 <= k < |parts| ensures '_' !in parts[k] {
      if k == 2 {
        IntToStringLacks(days, '_');
        assert parts[k] == IntToString(days) + "DTE";
      } else if k == 5 {
        IntToStringLacks(offset, '_');
      }
    }
  }

  /** A rendered entry has no whitespace to strip at either end. */
  lemma RenderTrimmed(parts: seq<string>)
    requires |parts| == 6 && parts[0] == "OPT"
    requires parts[5] != [] && !IsSpace(parts[5][|parts[5]| - 1])
    ensures Strip(Join(parts, '_')) == Join(parts, '_')
  {
    JoinFirst(parts, '_');
    JoinLast(parts, '_');
    StripTrimmed(Join(parts, '_'));
  }

  // ------------------------------------------------------------ strike

  /** The strike the offset form asks for: `step` is
      `strike_steps.get(symbol, 1.0)`, the at-the-money strike is the
      underlying price rounded to a multiple of `step`, and the strike is
      that plus the offset, rounded to a multiple of `step` again. `None`
      is the `ZeroDivisionError` of a zero step. */
  function LatestStrike(symbol: string, price: real, offset: real, steps: Dict<string, real>)
    : (r: Option<real>)
  {
    var step := Get(steps, symbol).GetOr(1.0);
    if step == 0.0 then None
    else Some(StepRound(StepRound(price, step) + offset, step))
  }

  /** With a positive step the strike is a multiple of the step within half
      a step of the at-the-money strike plus the offset, and the at-the-money
      strike is a multiple of the step within half a step of the price. */
  lemma LatestStrikeNear(symbol: string, price: real, offset: real, steps: Dict<string, real>)
    requires Get(steps, symbol).GetOr(1.0) > 0.0
    ensures var step := Get(steps, symbol).GetOr(1.0);
      var atm := StepRound(price, step);
      && IsMultiple(atm, step) && Near(atm, price, step)
      && LatestStrike(symbol, price, offset, steps) == Some(StepRound(atm + offset, step))
      && IsMultiple(StepRound(atm + offset, step), step)
      && Near(StepRound(atm + offset, step), atm + offset, step)
  {
    var step := Get(steps, symbol).GetOr(1.0);
    RoundedNear(price, step);
    RoundedNear(StepRound(price, step) + offset, step);
  }
}
