/** `parse_option_config_line` of the zero-days-to-expiry form
    `OPT_<SYM>_<n>DTE_<RIGHT>_<ATM|OTM>`, and the strike-choice rule of its
    `prepare_option_contracts`. */
module OptionConfigZeroDte {
  import opened Wrappers
  import opened PyStr
  import opened PyDict
  import opened OptionTokens
  import opened ConfigLines
  import opened Rounding

  datatype Moneyness = Atm | Otm

  /** `OptionRequest` of the moneyness form. */
  datatype OptionRequest = OptionRequest(
    entryLabel: string, symbol: string, daysToExpiry: int, right: Right, moneyness: Moneyness)

  function ParseOptionConfigLine(line: string): (r: Result<OptionRequest, ParseError>)
  {
    var text := Strip(line);
    ParseParts(text, Split(text, '_'))
  }

  /** The checks on the `_`-separated parts of the stripped entry `text`,
      in the order the program makes them. */
  function ParseParts(text: string, parts: seq<string>): (r: Result<OptionRequest, ParseError>)
  {
    if |parts| != 5 || parts[0] != "OPT" then Failure(InvalidEntry)
    else
      match ParseDays(parts[2])
      case Failure(e) => Failure(e)
      case Success(days) =>
        match ParseRight(parts[3])
        case Failure(e) => Failure(e)
        case Success(right) =>
          match ParseMoneyness(parts[4])
          case Failure(e) => Failure(e)
          case Success(m) => Success(OptionRequest(text, Upper(parts[1]), days, right, m))
  }

  /** ATM or OTM in any letter case. */
  function ParseMoneyness(token: string): (r: Result<Moneyness, ParseError>)
    ensures r.Success? ==> UpperIs(token, MoneynessToken(r.value))
    ensures r.Failure? ==> r.error == InvalidMoneyness && !UpperIs(token, "ATM") && !UpperIs(token, "OTM")
  {
    if UpperIs(token, "ATM") then Success(Atm)
    else if UpperIs(token, "OTM") then Success(Otm)
    else Failure(InvalidMoneyness)
  }

  function MoneynessToken(m: Moneyness): string {
    match m
    case Atm => "ATM"
    case Otm => "OTM"
  }

  /** `load_option_requests`: the parsed non-blank, non-comment lines in
      input order, or the error of the first line rejected. Each request is
      labelled with its stripped line and has an upper-case symbol. */
  method LoadOptionRequests(lines: seq<string>) returns (r: Result<seq<OptionRequest>, ParseError>)
    ensures r == ParseAll(Kept(lines), ParseOptionConfigLine)
    ensures r.Success? ==> |r.value| == |Kept(lines)|
    ensures r.Success? ==> forall k :: 0 <= k < |r.value| ==>
      r.value[k].entryLabel == Kept(lines)[k] && IsUpper(r.value[k].symbol)
  {
    r := Load(lines, ParseOptionConfigLine);
    if r.Success? {
      var texts := Kept(lines);
      ParseAllSuccess(texts, ParseOptionConfigLine);
      KeptSpec(lines);
      forall k | 0 <= k < |r.value|
        ensures r.value[k].entryLabel == texts[k] && IsUpper(r.value[k].symbol)
      {
        ParseAccepted(texts[k]);
      }
    }
  }

  /** An accepted entry: its stripped text is the label, it has exactly five
      `_`-separated parts starting with OPT, the symbol is the upper-cased
      second part, and the days, right and moneyness read back from the
      other three. */
  lemma ParseAccepted(line: string)
    requires ParseOptionConfigLine(line).Success?
    ensures var req, parts := ParseOptionConfigLine(line).value, Split(Strip(line), '_');
      && req.entryLabel == Strip(line)
      && |parts| == 5 && parts[0] == "OPT"
      && req.symbol == Upper(parts[1]) && IsUpper(req.symbol)
      && ParseDays(parts[2]) == Success(req.daysToExpiry)
      && ParseRight(parts[3]) == Success(req.right)
      && ParseMoneyness(parts[4]) == Success(req.moneyness)
      && Join(parts, '_') == req.entryLabel
  {
    UpperSpec(Split(Strip(line), '_')[1]);
    SplitJoin(Strip(line), '_');
  }

  /** Entries not split into exactly five parts, or not starting with OPT,
      are rejected before anything else is looked at. */
  lemma ParseRejectsShape(line: string)
    requires var parts := Split(Strip(line), '_');
      |parts| != 5 || parts[0] != "OPT"
    ensures ParseOptionConfigLine(line) == Failure(InvalidEntry)
  {
  }

  function Render(symbol: string, days: int, right: Right, m: Moneyness): (line: string)
  {
    Join(RenderParts(symbol, days, right, m), '_')
  }

  function RenderParts(symbol: string, days: int, right: Right, m: Moneyness): seq<string> {
    ["OPT", symbol, DaysToken(days), RightToken(right), MoneynessToken(m)]
  }

  /** Parsing a rendered entry gives back what was rendered, with the entry
      itself as label. */
  lemma ParseRender(symbol: string, days: int, right: Right, m: Moneyness)
    requires IsUpper(symbol) && '_' !in symbol
    ensures var line := Render(symbol, days, right, m);
      ParseOptionConfigLine(line) == Success(OptionRequest(line, symbol, days, right, m))
  {
    RenderSplit(symbol, days, right, m);
    ParseRenderParts(Render(symbol, days, right, m), symbol, days, right, m);
  }

  lemma ParseRenderParts(text: string, symbol: string, days: int, right: Right, m: Moneyness)
    requires IsUpper(symbol)
    ensures ParseParts(text, RenderParts(symbol, days, right, m))
      == Success(OptionRequest(text, symbol, days, right, m))
  {
    UpperSpec(symbol);
    ParseDaysToken(days);
    ParseRightToken(right);
    ParseMoneynessToken(m);
    ParseFiveParts(text, symbol, DaysToken(days), RightToken(right), MoneynessToken(m), days, right, m);
  }

  lemma ParseMoneynessToken(m: Moneyness)
    ensures ParseMoneyness(MoneynessToken(m)) == Success(m)
  {
    if m == Otm {
      assert UpperChar("OTM"[0]) != "ATM"[0];
    }
  }

  /** A five-part entry whose tokens all read correctly is accepted. */
  lemma ParseFiveParts(text: string, symbol: string, dte: string, rightToken: string, moneyness: string,
                       days: int, right: Right, m: Moneyness)
    requires ParseDays(dte) == Success(days) && ParseRight(rightToken) == Success(right)
    requires ParseMoneyness(moneyness) == Success(m)
    ensures ParseParts(text, ["OPT", symbol, dte, rightToken, moneyness])
      == Success(OptionRequest(text, Upper(symbol), days, right, m))
  {
  }

  /** A rendered entry needs no stripping and splits back into its parts. */
  lemma RenderSplit(symbol: string, days: int, right: Right, m: Moneyness)
    requires '_' !in symbol
    ensures var parts := RenderParts(symbol, days, right, m);
      Strip(Join(parts, '_')) == Join(parts, '_') && Split(Join(parts, '_'), '_') == parts
  {
    var parts := RenderParts(symbol, days, right, m);
    forall k | 0 <= k < |parts| ensures '_' !in parts[k] {
      if k == 2 {
        IntToStringLacks(days, '_');
        assert parts[k] == IntToString(days) + "DTE";
      }
    }
    JoinFirst(parts, '_');
    JoinLast(parts, '_');
    StripTrimmed(Join(parts, '_'));
    JoinSplit(parts, '_');
  }

  // ------------------------------------------------------------ strike

  /** The strike chosen for a request: `step` is `strike_steps.get(symbol,
      1.0)`, the at-the-money strike is the underlying price rounded to a
      multiple of `step`, the offset is `otm_offsets.get(symbol, step)`;
      ATM takes the at-the-money strike, an OTM call that plus the offset, an
      OTM put that minus the offset but no lower than one step. `None` is
      the `ZeroDivisionError` of a zero step. */
  function ChooseStrike(req: OptionRequest, price: real, steps: Dict<string, real>, offsets: Dict<string, real>)
    : (r: Option<real>)
  {
    var step := Get(steps, req.symbol).GetOr(1.0);
    if step == 0.0 then None
    else
      var atm := StepRound(price, step);
      var offset := Get(offsets, req.symbol).GetOr(step);
      if req.moneyness == Atm then Some(atm)
      else if req.right == Call then Some(atm + offset)
      else Some(Max(step, atm - offset))
  }

  function Max(a: real, b: real): real {
    if a >= b then a else b
  }

  /** The three branches of the choice, and the floor on put strikes. */
  lemma ChooseStrikeSpec(req: OptionRequest, price: real, steps: Dict<string, real>, offsets: Dict<string, real>)
    requires Get(steps, req.symbol).GetOr(1.0) != 0.0
    ensures var step := Get(steps, req.symbol).GetOr(1.0);
      var atm, offset := StepRound(price, step), Get(offsets, req.symbol).GetOr(step);
      var r := ChooseStrike(req, price, steps, offsets);
      && r.Some?
      && (req.moneyness == Atm ==> r.value == atm)
      && (req.moneyness == Otm && req.right == Call ==> r.value == atm + offset)
      && (req.moneyness == Otm && req.right == Put ==>
            r.value >= step && r.value >= atm - offset && (r.value == step || r.value == atm - offset))
  {
  }

  /** Without a configured offset an OTM contract is one step away from the
      money: above it for a call, below it (but not under one step) for a
      put. */
  lemma DefaultOffsetIsOneStep(req: OptionRequest, price: real, steps: Dict<string, real>, offsets: Dict<string, real>)
    requires Get(steps, req.symbol).GetOr(1.0) != 0.0 && Get(offsets, req.symbol).None?
    requires req.moneyness == Otm
    ensures var step := Get(steps, req.symbol).GetOr(1.0);
      var atm := StepRound(price, step);
      ChooseStrike(req, price, steps, offsets)
        == Some(if req.right == Call then atm + step else Max(step, atm - step))
  {
  }

  /** With a positive step, an ATM strike is a multiple of the step within
      half a step of the underlying price. */
  lemma AtmStrikeNear(req: OptionRequest, price: real, steps: Dict<string, real>, offsets: Dict<string, real>)
    requires Get(steps, req.symbol).GetOr(1.0) > 0.0 && req.moneyness == Atm
    ensures var step := Get(steps, req.symbol).GetOr(1.0);
      var r := ChooseStrike(req, price, steps, offsets);
      r.Some? && Near(r.value, price, step) && IsMultiple(r.value, step)
  {
    RoundedNear(price, Get(steps, req.symbol).GetOr(1.0));
  }
}
