/** The tokens an option-configuration entry such as `OPT_SPY_0DTE_CALL_ATM`
    is made of, shared by both configuration parsers. */
module OptionTokens {
  import opened Wrappers
  import opened PyStr

  /** The option right, stored by the program as `"C"` or `"P"`. */
  datatype Right = Call | Put

  /** The `ValueError`s the parsers raise, one per message. */
  datatype ParseError =
    | InvalidEntry      // wrong number of parts, or the first is not "OPT"
    | InvalidDte        // the third token does not end in "DTE"
    | InvalidDays       // `int()` of the DTE prefix fails
    | InvalidRight      // neither CALL nor PUT
    | UnexpectedBase    // a six-part entry whose fifth token is not ATM
    | InvalidOffset     // `float()` of the offset fails
    | InvalidMoneyness  // neither ATM nor OTM

  /** `s.upper() == word`, compared character by character. */
  predicate UpperIs(s: string, word: string) {
    |s| == |word| && forall i :: 0 <= i < |s| ==> UpperChar(s[i]) == word[i]
  }

  lemma UpperIsSpec(s: string, word: string)
    ensures UpperIs(s, word) <==> Upper(s) == word
  {
    if Upper(s) == word {
      assert forall i :: 0 <= i < |s| ==> Upper(s)[i] == word[i];
    }
  }

  /** Upper-casing twice is upper-casing once. */
  lemma UpperCharIdempotent(c: char)
    ensures UpperChar(UpperChar(c)) == UpperChar(c)
  {
  }

  /** The days-to-expiry token `<n>DTE`: the integer value of what precedes
      the `DTE` suffix. */
  function ParseDays(token: string): (r: Result<int, ParseError>)
    ensures r.Success? ==> EndsWith(token, "DTE") && ParseInt(token[..|token| - 3]) == Some(r.value)
    ensures !EndsWith(token, "DTE") ==> r == Failure(InvalidDte)
    ensures EndsWith(token, "DTE") && ParseInt(token[..|token| - 3]).None? ==> r == Failure(InvalidDays)
  {
    if !EndsWith(token, "DTE") then Failure(InvalidDte)
    else
      match ParseInt(token[..|token| - 3])
      case None => Failure(InvalidDays)
      case Some(n) => Success(n)
  }

  /** The token that names `n` days to expiry. */
  function DaysToken(n: int): string {
    IntToString(n) + "DTE"
  }

  /** The days token reads back as its number. */
  lemma ParseDaysToken(n: int)
    ensures ParseDays(DaysToken(n)) == Success(n)
  {
    var t := DaysToken(n);
    assert t[|t| - 3..] == "DTE";
    assert t[..|t| - 3] == IntToString(n);
    ParseIntToString(n);
  }

  /** The right token: CALL or PUT in any letter case. */
  function ParseRight(token: string): (r: Result<Right, ParseError>)
    ensures r.Success? ==> UpperIs(token, RightToken(r.value))
    ensures r.Failure? ==> r.error == InvalidRight && !UpperIs(token, "CALL") && !UpperIs(token, "PUT")
  {
    if UpperIs(token, "CALL") then Success(Call)
    else if UpperIs(token, "PUT") then Success(Put)
    else Failure(InvalidRight)
  }

  function RightToken(r: Right): string {
    match r
    case Call => "CALL"
    case Put => "PUT"
  }

  /** The right token reads back as its right. */
  lemma ParseRightToken(r: Right)
    ensures ParseRight(RightToken(r)) == Success(r)
  {
  }

  /** The letter case of a right token does not matter. */
  lemma ParseRightCaseless(token: string)
    ensures ParseRight(Upper(token)) == ParseRight(token)
  {
    forall i | 0 <= i < |token| {
      UpperCharIdempotent(token[i]);
    }
    UpperWord(token, "CALL");
    UpperWord(token, "PUT");
  }

  lemma UpperWord(token: string, word: string)
    requires forall i :: 0 <= i < |token| ==> UpperChar(UpperChar(token[i])) == UpperChar(token[i])
    ensures UpperIs(Upper(token), word) <==> UpperIs(token, word)
  {
    var u := Upper(token);
    assert forall i :: 0 <= i < |token| ==> UpperChar(u[i]) == UpperChar(token[i]);
  }
}
