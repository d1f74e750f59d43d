/**
 * The command parser of the human player (src/agent/human.rs):
 * `HumanAgent::parse_command`, `try_parse_x_y` and `validate_x_y`. The
 * prompt-and-retry loop around it reads standard input and is not part of
 * this model.
 */
module Human {
  import opened Wrappers
  import opened RustStr

  /** What a player asks for: a move at column `x`, row `y`, an undo, quitting, or help. */
  datatype Command = Next(x: nat, y: nat) | Prev | Exit | Help

  /**
   * The ways a line can be rejected, in the order they are checked. Only a
   * bad `y` keeps the integer error: the source maps every error on `x` to
   * one message but passes the error on `y` through unchanged.
   */
  datatype ParseError =
    | MissingX
    | InvalidX
    | MissingY
    | InvalidY(kind: IntErrorKind)
    | TooManyArguments
    | OutOfRange

  /** `validate_x_y`: both coordinates address a cell of the 3x3 board. */
  predicate ValidateXY(x: nat, y: nat) {
    x < 3 && y < 3
  }

  /**
   * `try_parse_x_y`: reads `x`, then `y`, then insists that nothing follows,
   * and only then checks the range.
   */
  function TryParseXY(tokens: seq<string>): (r: Result<Command, ParseError>)
    ensures r.Ok? <==>
              && |tokens| == 2
              && ParseUsize(tokens[0]).Ok?
              && ParseUsize(tokens[1]).Ok?
              && ValidateXY(ParseUsize(tokens[0]).value, ParseUsize(tokens[1]).value)
    ensures r.Ok? ==> r.value == Next(ParseUsize(tokens[0]).value, ParseUsize(tokens[1]).value)
    ensures r == Err(MissingX) <==> |tokens| == 0
    ensures r == Err(InvalidX) <==> |tokens| > 0 && ParseUsize(tokens[0]).Err?
    ensures r == Err(MissingY) <==> |tokens| == 1 && ParseUsize(tokens[0]).Ok?
    ensures r.Err? && r.error.InvalidY? <==>
              |tokens| >= 2 && ParseUsize(tokens[0]).Ok? && ParseUsize(tokens[1]).Err?
    ensures r.Err? && r.error.InvalidY? ==> r.error.kind == ParseUsize(tokens[1]).error
    ensures r == Err(TooManyArguments) <==>
              |tokens| > 2 && ParseUsize(tokens[0]).Ok? && ParseUsize(tokens[1]).Ok?
    ensures r == Err(OutOfRange) <==>
              && |tokens| == 2
              && ParseUsize(tokens[0]).Ok?
              && ParseUsize(tokens[1]).Ok?
              && !ValidateXY(ParseUsize(tokens[0]).value, ParseUsize(tokens[1]).value)
  {
    if |tokens| == 0 then Err(MissingX)
    else match ParseUsize(tokens[0])
      case Err(_) => Err(InvalidX)
      case Ok(x) =>
        if |tokens| == 1 then Err(MissingY)
        else match ParseUsize(tokens[1])
          case Err(kind) => Err(InvalidY(kind))
          case Ok(y) =>
            if |tokens| > 2 then Err(TooManyArguments)
            else if ValidateXY(x, y) then Ok(Next(x, y))
            else Err(OutOfRange)
  }

  /** True for the three words that are commands on their own. */
  predicate IsKeyword(w: string) {
    w == "prev" || w == "exit" || w == "help"
  }

  /** The command a keyword stands for. */
  function KeywordCommand(w: string): Command
    requires IsKeyword(w)
  {
    if w == "prev" then Prev else if w == "exit" then Exit else Help
  }

  /**
   * `parse_command`: the first whitespace-separated word selects the
   * command; `next` hands the remaining words to `TryParseXY`, and any other
   * first word is read again as the `x` coordinate.
   */
  function ParseCommand(command: string): (r: Result<Command, ParseError>)
    ensures r.Ok? && r.value.Next? ==> ValidateXY(r.value.x, r.value.y)
    ensures r.Ok? && !r.value.Next? ==>
              var tokens := SplitWhitespace(command);
              |tokens| > 0 && IsKeyword(tokens[0]) && r.value == KeywordCommand(tokens[0])
  {
    ParseTokens(SplitWhitespace(command))
  }

  /** The dispatch of `parse_command` on the words of the line. */
  function ParseTokens(tokens: seq<string>): (r: Result<Command, ParseError>)
    ensures r.Ok? && r.value.Next? ==> ValidateXY(r.value.x, r.value.y)
    ensures |tokens| > 0 && IsKeyword(tokens[0]) ==> r == Ok(KeywordCommand(tokens[0]))
    ensures r.Ok? && !r.value.Next? ==>
              |tokens| > 0 && IsKeyword(tokens[0]) && r.value == KeywordCommand(tokens[0])
  {
    if |tokens| > 0 && tokens[0] == "next" then TryParseXY(tokens[1..])
    else if |tokens| > 0 && tokens[0] == "prev" then Ok(Prev)
    else if |tokens| > 0 && tokens[0] == "exit" then Ok(Exit)
    else if |tokens| > 0 && tokens[0] == "help" then Ok(Help)
    else TryParseXY(tokens)
  }

  /** A numeral is never mistaken for a command word. */
  lemma NumeralIsNoKeyword(w: string)
    requires IsNumeral(w)
    ensures IsWord(w) && w != "next" && !IsKeyword(w)
  {
    if w[0] == '+' {
      assert Digits(w) == w[1..];
      forall i | 0 <= i < |w|
        ensures !IsWhitespace(w[i])
      {
        if i > 0 {
          assert w[i] == Digits(w)[i - 1];
        }
      }
    } else {
      assert IsDigit(Digits(w)[0]);
    }
  }

  /** A line of words is parsed from exactly those words. */
  lemma {:induction false} ParseJoined(ws: seq<string>)
    requires AllWords(ws)
    ensures ParseCommand(Join(ws)) == ParseTokens(ws)
  {
    SplitJoin(ws);
  }

  /** After `next`, the coordinates are the remaining words. */
  lemma NextForm(ws: seq<string>)
    requires AllWords(ws)
    ensures ParseCommand(Join(["next"] + ws)) == TryParseXY(ws)
  {
    NextIsWord();
    AllWordsConcat(["next"], ws);
    ParseJoined(["next"] + ws);
    assert (["next"] + ws)[0] == "next";
    assert (["next"] + ws)[1..] == ws;
  }

  /** A line starting with a numeral is read as the coordinates, with or without `next`. */
  lemma BothForms(ws: seq<string>)
    requires AllWords(ws) && |ws| > 0 && IsNumeral(ws[0])
    ensures ParseCommand(Join(ws)) == TryParseXY(ws)
    ensures ParseCommand(Join(["next"] + ws)) == TryParseXY(ws)
  {
    BareForm(ws);
    NextForm(ws);
  }

  /** A line starting with a numeral is read as the coordinates. */
  lemma BareForm(ws: seq<string>)
    requires AllWords(ws) && |ws| > 0 && IsNumeral(ws[0])
    ensures ParseCommand(Join(ws)) == TryParseXY(ws)
  {
    NumeralIsNoKeyword(ws[0]);
    ParseJoined(ws);
  }

  /**
   * A line whose first word is exactly `prev`, `exit` or `help` is that
   * command, whatever words follow.
   */
  lemma KeywordIgnoresRest(kw: string, rest: seq<string>)
    requires IsKeyword(kw) && AllWords(rest)
    ensures ParseCommand(Join([kw] + rest)) == Ok(KeywordCommand(kw))
  {
    var tokens := [kw] + rest;
    SplitJoin(tokens);
    assert tokens[0] == kw;
  }

  /**
   * Both `next x y` and the bare `x y` give the move, for any numerals `a`
   * and `b` (with or without `+`, with or without leading zeros) whose
   * values are on the board.
   */
  lemma MoveForms(a: string, b: string)
    requires ParseUsize(a).Ok? && ParseUsize(b).Ok?
    requires ValidateXY(ParseUsize(a).value, ParseUsize(b).value)
    ensures ParseCommand(Join(["next", a, b])) ==
              Ok(Next(ParseUsize(a).value, ParseUsize(b).value))
    ensures ParseCommand(Join([a, b])) == Ok(Next(ParseUsize(a).value, ParseUsize(b).value))
  {
    NumeralIsNoKeyword(a);
    NumeralIsNoKeyword(b);
    NextForm([a, b]);
    assert ["next"] + [a, b] == ["next", a, b];
    BareForm([a, b]);
  }

  /** The printed form of every board coordinate is read back as a move. */
  lemma DecimalMoves(x: nat, y: nat)
    requires ValidateXY(x, y)
    ensures ParseCommand(Join(["next", Decimal(x), Decimal(y)])) == Ok(Next(x, y))
    ensures ParseCommand(Join([Decimal(x), Decimal(y)])) == Ok(Next(x, y))
  {
    ParseDecimal(x);
    ParseDecimal(y);
    MoveForms(Decimal(x), Decimal(y));
  }

  /** `next +0 02` is a move to column 0, row 2: a sign and leading zeros are accepted. */
  lemma SignAndZerosAccepted()
    ensures ParseCommand("next +0 02") == Ok(Next(0, 2))
  {
    assert ParseUsize("+0") == Ok(0) by {
      assert Digits("+0") == "0";
      assert "0"[1..] == [];
    }
    assert ParseUsize("02") == Ok(2) by {
      assert "02"[1..] == "2" && "2"[1..] == [];
    }
    var ws := ["next", "+0", "02"];
    assert ws[1..][1..] == ["02"];
    assert Join(ws[1..]) == "+0 02";
    assert Join(ws) == "next +0 02";
    MoveForms("+0", "02");
  }

  /** Empty or whitespace-only input reports the missing `x`. */
  lemma BlankIsMissingX(s: string)
    requires AllWhitespace(s)
    ensures ParseCommand(s) == Err(MissingX)
  {
    SplitBlank(s);
  }

  lemma NextIsWord()
    ensures IsWord("next")
  {
    var w := "next";
    assert w[0] == 'n' && w[1] == 'e' && w[2] == 'x' && w[3] == 't';
    forall i | 0 <= i < |w|
      ensures !IsWhitespace(w[i])
    {
      assert 'a' <= w[i] <= 'z';
    }
  }

  lemma SplitBareNext(before: string, after: string)
    requires AllWhitespace(before) && AllWhitespace(after)
    ensures SplitWhitespace(before + "next" + after) == ["next"]
  {
    var line := "next" + after;
    assert before + "next" + after == before + line;
    SplitSkipsLeadingSpace(before, line);
    NextIsWord();
    SplitWordFirst("next", after);
    SplitBlank(after);
  }

  /** `next` with nothing after it reports the missing `x`, too. */
  lemma BareNextIsMissingX(before: string, after: string)
    requires AllWhitespace(before) && AllWhitespace(after)
    ensures ParseCommand(before + "next" + after) == Err(MissingX)
  {
    SplitBareNext(before, after);
    assert ParseTokens(["next"]) == TryParseXY([]);
  }

  /**
   * A first word that is neither a keyword nor a numeral is read as `x`
   * and rejected as not a number; keywords are matched case-sensitively,
   * so `Prev` is one such word.
   */
  lemma UnknownWordIsInvalidX(w: string, rest: seq<string>)
    requires IsWord(w) && !IsKeyword(w) && w != "next" && !IsNumeral(w)
    requires AllWords(rest)
    ensures ParseCommand(Join([w] + rest)) == Err(InvalidX)
  {
    var tokens := [w] + rest;
    SplitJoin(tokens);
    assert tokens[0] == w;
  }

  /** A lone coordinate, with or without `next`, reports the missing `y`. */
  lemma LoneXIsMissingY(a: string)
    requires ParseUsize(a).Ok?
    ensures ParseCommand(Join([a])) == Err(MissingY)
    ensures ParseCommand(Join(["next", a])) == Err(MissingY)
  {
    NumeralIsNoKeyword(a);
    BareForm([a]);
    NextForm([a]);
    assert ["next"] + [a] == ["next", a];
  }

  lemma BadYWords(ws: seq<string>)
    requires AllWords(ws) && |ws| >= 2
    requires ParseUsize(ws[0]).Ok? && ParseUsize(ws[1]).Err?
    ensures ParseCommand(Join(ws)) == Err(InvalidY(ParseUsize(ws[1]).error))
    ensures ParseCommand(Join(["next"] + ws)) == Err(InvalidY(ParseUsize(ws[1]).error))
  {
    BothForms(ws);
  }

  /** A numeral and a word followed by more words form a line of words led by those two. */
  lemma NumeralWordThen(a: string, w: string, rest: seq<string>)
    requires IsNumeral(a) && IsWord(w) && AllWords(rest)
    ensures AllWords([a, w] + rest)
    ensures ([a, w] + rest)[0] == a && ([a, w] + rest)[1] == w
    ensures ["next", a, w] + rest == ["next"] + ([a, w] + rest)
  {
    NumeralIsNoKeyword(a);
    assert AllWords([a, w]);
    AllWordsConcat([a, w], rest);
    assert ["next", a, w] == ["next"] + [a, w];
  }

  /**
   * A `y` that does not parse (not a numeral, or too large) is reported,
   * with its integer error, before any surplus words are noticed.
   */
  lemma BadYBeforeTooMany(a: string, w: string, rest: seq<string>)
    requires ParseUsize(a).Ok?
    requires IsWord(w) && ParseUsize(w).Err? && AllWords(rest)
    ensures ParseCommand(Join([a, w] + rest)) == Err(InvalidY(ParseUsize(w).error))
    ensures ParseCommand(Join(["next", a, w] + rest)) == Err(InvalidY(ParseUsize(w).error))
  {
    NumeralWordThen(a, w, rest);
    BadYWords([a, w] + rest);
  }

  lemma TooManyWords(ws: seq<string>)
    requires AllWords(ws) && |ws| > 2
    requires ParseUsize(ws[0]).Ok? && ParseUsize(ws[1]).Ok?
    ensures ParseCommand(Join(ws)) == Err(TooManyArguments)
    ensures ParseCommand(Join(["next"] + ws)) == Err(TooManyArguments)
  {
    BothForms(ws);
  }

  /** Two numerals followed by more words form a line of words led by the numerals. */
  lemma NumeralsThen(a: string, b: string, extra: seq<string>)
    requires IsNumeral(a) && IsNumeral(b) && AllWords(extra)
    ensures AllWords([a, b] + extra)
    ensures ([a, b] + extra)[0] == a && ([a, b] + extra)[1] == b
    ensures ["next", a, b] + extra == ["next"] + ([a, b] + extra)
  {
    NumeralIsNoKeyword(a);
    NumeralIsNoKeyword(b);
    assert AllWords([a, b]);
    AllWordsConcat([a, b], extra);
    assert ["next", a, b] == ["next"] + [a, b];
  }

  /** Surplus words are reported before the range is checked. */
  lemma TooManyBeforeRange(a: string, b: string, extra: seq<string>)
    requires ParseUsize(a).Ok? && ParseUsize(b).Ok?
    requires |extra| > 0 && AllWords(extra)
    ensures ParseCommand(Join([a, b] + extra)) == Err(TooManyArguments)
    ensures ParseCommand(Join(["next", a, b] + extra)) == Err(TooManyArguments)
  {
    NumeralsThen(a, b, extra);
    TooManyWords([a, b] + extra);
  }

  /** Two numerals whose values are off the board are reported as out of range. */
  lemma OutOfRangeLast(a: string, b: string)
    requires ParseUsize(a).Ok? && ParseUsize(b).Ok?
    requires !ValidateXY(ParseUsize(a).value, ParseUsize(b).value)
    ensures ParseCommand(Join([a, b])) == Err(OutOfRange)
    ensures ParseCommand(Join(["next", a, b])) == Err(OutOfRange)
  {
    NumeralIsNoKeyword(a);
    NumeralIsNoKeyword(b);
    BareForm([a, b]);
    NextForm([a, b]);
    assert ["next"] + [a, b] == ["next", a, b];
  }

  /** `5 5 5` has too many words; that is reported, not the range. */
  lemma FiveFiveFive()
    ensures ParseCommand("5 5 5") == Err(TooManyArguments)
  {
    var ws := ["5", "5", "5"];
    assert ws[1..][1..] == ["5"];
    assert Join(ws) == "5 5 5";
    assert ParseUsize("5") == Ok(5) by {
      assert "5"[1..] == [];
    }
    NumeralIsNoKeyword("5");
    TooManyBeforeRange("5", "5", ["5"]);
    assert ["5", "5"] + ["5"] == ws;
  }
}
