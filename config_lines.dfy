/** `load_option_requests`: strip every configuration line, skip blank lines
    and `#` comments, and parse the others in input order, stopping at the
    first line the parser rejects. Both configuration forms share it. */
module ConfigLines {
  import opened Wrappers
  import opened PyStr

  /** A stripped line the loader skips: empty, or starting with `#`. */
  predicate Skipped(text: string) {
    text == [] || text[0] == '#'
  }

  /** The stripped lines the loader hands to the parser, in input order. */
  function Kept(lines: seq<string>): (r: seq<string>)
    ensures |r| <= |lines|
  {
    if lines == [] then []
    else
      var text := Strip(lines[0]);
      (if Skipped(text) then [] else [text]) + Kept(lines[1..])
  }

  /** Parsing texts in order: all the results, or the first error. */
  function ParseAll<R, E>(texts: seq<string>, parse: string -> Result<R, E>): (r: Result<seq<R>, E>)
  {
    if texts == [] then Success([])
    else
      match parse(texts[0])
      case Failure(e) => Failure(e)
      case Success(v) =>
        match ParseAll(texts[1..], parse)
        case Failure(e) => Failure(e)
        case Success(vs) => Success([v] + vs)
  }

  method Load<R, E>(lines: seq<string>, parse: string -> Result<R, E>) returns (r: Result<seq<R>, E>)
    ensures r == ParseAll(Kept(lines), parse)
  {
    var requests: seq<R> := [];
    var i := 0;
    while i < |lines|
      invariant 0 <= i <= |lines|
      invariant ParseAll(Kept(lines[..i]), parse) == Success(requests)
    {
      var text := Strip(lines[i]);
      KeptStep(lines, i);
      if !Skipped(text) {
        match parse(text) {
          case Failure(e) =>
            KeptSplit(lines, i);
            ParseAllAppend(Kept(lines[..i]), [text] + Kept(lines[i + 1..]), parse);
            return Failure(e);
          case Success(v) =>
            ParseAllAppend(Kept(lines[..i]), [text], parse);
            ParseOne(text, parse);
            requests := requests + [v];
        }
      } else {
        assert Kept(lines[..i + 1]) == Kept(lines[..i]) + [];
        assert Kept(lines[..i]) + [] == Kept(lines[..i]);
      }
      i := i + 1;
    }
    assert lines[..i] == lines;
    r := Success(requests);
  }

  lemma ParseOne<R, E>(text: string, parse: string -> Result<R, E>)
    ensures ParseAll([text], parse) ==
      match parse(text)
      case Failure(e) => Failure(e)
      case Success(v) => Success([v])
  {
    assert [text][0] == text && [text][1..] == [];
    if parse(text).Success? {
      assert [parse(text).value] + [] == [parse(text).value];
    }
  }

  /** What one more line adds to the kept lines. */
  lemma KeptStep(lines: seq<string>, i: int)
    requires 0 <= i < |lines|
    ensures var text := Strip(lines[i]);
      Kept(lines[..i + 1]) == Kept(lines[..i]) + (if Skipped(text) then [] else [text])
  {
    assert lines[..i + 1] == lines[..i] + [lines[i]];
    KeptAppend(lines[..i], [lines[i]]);
  }

  /** The kept lines of everything, around a line that is kept. */
  lemma KeptSplit(lines: seq<string>, i: int)
    requires 0 <= i < |lines| && !Skipped(Strip(lines[i]))
    ensures Kept(lines) == Kept(lines[..i]) + ([Strip(lines[i])] + Kept(lines[i + 1..]))
  {
    assert lines == lines[..i] + lines[i..];
    KeptAppend(lines[..i], lines[i..]);
    assert lines[i..][1..] == lines[i + 1..];
  }

  /** Keeping lines commutes with concatenation, so it keeps input order. */
  lemma {:induction false} KeptAppend(a: seq<string>, b: seq<string>)
    ensures Kept(a + b) == Kept(a) + Kept(b)
  {
    if a != [] {
      KeptAppend(a[1..], b);
      assert (a + b)[1..] == a[1..] + b;
    } else {
      assert a + b == b;
    }
  }

  /** Every kept line is stripped and is neither blank nor a comment. */
  lemma {:induction false} KeptSpec(lines: seq<string>)
    ensures forall k :: 0 <= k < |Kept(lines)| ==>
      !Skipped(Kept(lines)[k]) && Strip(Kept(lines)[k]) == Kept(lines)[k]
  {
    if lines != [] {
      KeptSpec(lines[1..]);
      var text := Strip(lines[0]);
      StripIdempotent(lines[0]);
      var head := if Skipped(text) then [] else [text];
      var r := Kept(lines);
      assert r == head + Kept(lines[1..]);
      forall k | 0 <= k < |r| ensures !Skipped(r[k]) && Strip(r[k]) == r[k] {
        if k >= |head| {
          assert r[k] == Kept(lines[1..])[k - |head|];
        }
      }
    }
  }

  /** Parsing a concatenation: the results of the first part, then those of
      the second, unless one of them fails first. */
  lemma {:induction false} ParseAllAppend<R, E>(a: seq<string>, b: seq<string>, parse: string -> Result<R, E>)
    requires ParseAll(a, parse).Success?
    ensures ParseAll(a + b, parse) ==
      match ParseAll(b, parse)
      case Failure(e) => Failure(e)
      case Success(ws) => Success(ParseAll(a, parse).value + ws)
  {
    if a == [] {
      assert a + b == b;
      if ParseAll(b, parse).Success? {
        assert [] + ParseAll(b, parse).value == ParseAll(b, parse).value;
      }
    } else {
      assert (a + b)[1..] == a[1..] + b;
      assert (a + b)[0] == a[0];
      ParseAllAppend(a[1..], b, parse);
      var v, vs := parse(a[0]).value, ParseAll(a[1..], parse).value;
      if ParseAll(b, parse).Success? {
        var ws := ParseAll(b, parse).value;
        assert [v] + (vs + ws) == ([v] + vs) + ws;
      }
    }
  }

  /** A successful parse has one result per text, each the parse of that
      text. */
  lemma {:induction false} ParseAllSuccess<R, E>(texts: seq<string>, parse: string -> Result<R, E>)
    requires ParseAll(texts, parse).Success?
    ensures var vs := ParseAll(texts, parse).value;
      |vs| == |texts| && forall k :: 0 <= k < |texts| ==> parse(texts[k]) == Success(vs[k])
  {
    if texts != [] {
      ParseAllSuccess(texts[1..], parse);
      var vs := ParseAll(texts, parse).value;
      forall k | 0 <= k < |texts| ensures parse(texts[k]) == Success(vs[k]) {
        if k > 0 {
          assert texts[k] == texts[1..][k - 1];
        }
      }
    }
  }

  /** A failed parse reports the error of the first text the parser
      rejects. */
  lemma {:induction false} ParseAllFailure<R, E>(texts: seq<string>, parse: string -> Result<R, E>)
    requires ParseAll(texts, parse).Failure?
    ensures exists k ::
      (0 <= k < |texts| && parse(texts[k]) == Failure(ParseAll(texts, parse).error) &&
       forall j :: 0 <= j < k ==> parse(texts[j]).Success?)
  {
    if parse(texts[0]).Failure? {
      assert parse(texts[0]) == Failure(ParseAll(texts, parse).error);
    } else {
      ParseAllFailure(texts[1..], parse);
      var e := ParseAll(texts, parse).error;
      var k :| 0 <= k < |texts[1..]| && parse(texts[1..][k]) == Failure(e)
        && forall j :: 0 <= j < k ==> parse(texts[1..][j]).Success?;
      assert parse(texts[k + 1]) == Failure(e);
      forall j | 0 <= j < k + 1 ensures parse(texts[j]).Success? {
        if j > 0 {
          assert texts[j] == texts[1..][j - 1];
        }
      }
    }
  }
}
