# marubatsu in Dafny

A model of the core of *marubatsu*, a tic-tac-toe variant on a 3x3 board in which marks
decay. Each cell holds an optional owner (`MARU` or `BATSU`) and a `u8` counter. Every
accepted move works in three steps. First it places the mover's mark. Then it passes the
turn. Then it ages every cell: a marked cell's counter goes up by one, and a mark whose
counter reaches `MAX_COUNTER = 7` is removed. The model also covers the command-line parser
of the human player, which turns a typed line into `next x y`, `x y`, `prev`, `exit` or
`help`, or into one of six errors.

Files:

- `agent.dfy` (module `Agents`) covers `src/agent.rs`: the two players and `Agent::next`.
- `rules.dfy` (module `Rules`) holds the board rules as values. It covers `Cell::update`,
  `Board::put`, `Board::update`, `Environment::next` (as `Advance`) and `Board::winner`.
  It also holds the invariant kept between turns and the lemmas about how a mark lives
  and who wins.
- `environment.dfy` (module `Environment`) holds the source's in-place objects. `Board` is
  a class over an `array2<Cell>`, with `Update` written as the source's nested loop.
  `Environment` owns a `Board` and the current player. Each method is proved against the
  matching function of `Rules`.
- `human.dfy` (module `Human`) covers `parse_command`, `try_parse_x_y` and `validate_x_y`
  of `src/agent/human.rs`.
- `rust_str.dfy` (module `RustStr`) models the standard-library functions the parser
  depends on:
  - `str::split_whitespace`, using `char::is_whitespace`, the Unicode `White_Space`
    property;
  - `str::parse::<usize>`, with a 64-bit `usize`: an optional `+` and then ASCII digits;
    the first bad digit or the first overflow, scanning left to right, decides the error;
  - `usize::to_string` and a single-space join, which the lemmas use to build input lines.
- `wrappers.dfy` (module `Wrappers`) defines `Option` and `Result`.

Every marked cell ages on every turn, whoever owns it. `Environment` keeps no move history,
so `Command::Prev` reaches the game only as a parsed command.

src/agent/human.rs, src/lib.rs and src/agent/random.rs use `Command`, `AgentType`,
`Board::get`, `CellState` and a two-argument `Environment::new`. src/environment.rs and
src/agent.rs do not define these. `Command` is defined here from its uses, as
`Next(x, y) | Prev | Exit | Help`. `AgentType` is taken to be `Agent`.

Three source panics become preconditions:

- `cells[y][x]` with a coordinate of 3 or more panics, so `Environment.Next` and `Advance`
  require `x < 3 && y < 3`. Every `Next` command the parser accepts meets this.
- `counter += 1` overflowing a `u8` panics, so `Aged` requires an occupied cell's counter
  to be below 255. The invariant bounds counters by 6, and `InvCanAdvance` proves the
  overflow never happens.
- `Environment::winner` unwraps the result of `Board::winner` (src/environment.rs:47), so
  `Environment.Winner` requires `IsDone()`.

## Model

| member | source | states |
|---|---|---|
| `Agents.Agent.Next` | src/agent.rs:8-13 | `MARU` becomes `BATSU` and `BATSU` becomes `MARU`; the result always differs from the input, so turns alternate |
| `Agents.NextInvolution` | src/agent.rs:8-13 | toggling twice gives back the same player |
| `RustStr.SplitWhitespace` | src/agent/human.rs:44 | every token is non-empty and contains no whitespace |
| `RustStr.SplitJoin` | src/agent/human.rs:44 | splitting words joined by single spaces gives back exactly those words, in order |
| `RustStr.SplitBlank` | src/agent/human.rs:44 | a line with only whitespace (or nothing) has no tokens |
| `RustStr.SplitSkipsLeadingSpace` | src/agent/human.rs:44 | leading whitespace does not change the tokens |
| `RustStr.SplitWordFirst` | src/agent/human.rs:44 | a word followed by whitespace or by nothing is the first token, and the rest of the line gives the remaining tokens |
| `RustStr.ParseDigits` | src/agent/human.rs:21-23 | a successful digit scan gives a value that fits a `usize` and at least the starting value, and the text is all digits; on a digit string the result is the starting value shifted left by the digits plus their positional value `NumeralValue`, and `PosOverflow` exactly when that exceeds the largest `usize`; all-digit text never fails with an invalid digit |
| `RustStr.ParseUsize` | src/agent/human.rs:20-33 | success means the text is a numeral (optional `+`, then one or more digits); a numeral gives its positional value `NumeralValue` (leading zeros allowed) when that fits a `usize` and `PosOverflow` otherwise; anything else fails; `Empty` is reported exactly for the empty text |
| `RustStr.OverflowFirst` | src/agent/human.rs:20-33 | the digit scan reports `PosOverflow` on a run of digits whose value, after the starting value, is too large, whatever follows the run |
| `RustStr.OverflowBeforeBadDigit` | src/agent/human.rs:20-33 | a run of digits too large for a `usize` is reported as an overflow even when a non-digit follows it |
| `RustStr.BadDigitFirst` | src/agent/human.rs:20-33 | after a run of digits whose value, after the starting value, still fits, a character that is not a digit makes the scan report an invalid digit, whatever follows |
| `RustStr.BadDigitAfterFit` | src/agent/human.rs:20-33 | a run of digits that fits a `usize` followed by a character that is not a digit is reported as an invalid digit |
| `RustStr.ParseDecimal` | src/agent/human.rs:20-33 | parsing the decimal numeral of any `usize` value gives back that value |
| `Human.TryParseXY` | src/agent/human.rs:16-42 | success exactly when there are two tokens, both parse, and both are below 3, and the result is `Next` of the two values; each error is characterised in the source's order: no tokens is `MissingX`; a first token that does not parse is `InvalidX`; one parsed token alone is `MissingY`; a second token that does not parse is `InvalidY` with that token's integer error; two parsed tokens and more words is `TooManyArguments`; exactly two parsed tokens off the board is `OutOfRange` |
| `Human.ParseTokens` | src/agent/human.rs:45-51 | a first token `prev`, `exit` or `help` gives that command whatever follows, and only such a first token gives a command other than `Next`; an accepted `Next` is on the board |
| `Human.ParseCommand` | src/agent/human.rs:43-52 | the parser is total; an accepted `Next(x, y)` has `x < 3 && y < 3`; any other accepted command is the keyword that is the line's first word |
| `Human.NumeralIsNoKeyword` | src/agent/human.rs:45-50 | a numeral (with or without `+`) is a single word and is never read as `next`, `prev`, `exit` or `help` |
| `Human.ParseJoined` | src/agent/human.rs:43-44 | a line of words joined by spaces is parsed from exactly those words |
| `Human.NextForm` | src/agent/human.rs:46 | after a first word `next`, the remaining words are parsed as the coordinates |
| `Human.BareForm` | src/agent/human.rs:50 | a line whose first word is a numeral is parsed as the coordinates, from its first word on |
| `Human.BothForms` | src/agent/human.rs:46-50 | a line of words led by a numeral gives the same result with or without a leading `next` |
| `Human.KeywordIgnoresRest` | src/agent/human.rs:44-49 | a line whose first word is exactly `prev`, `exit` or `help` gives `Prev`, `Exit` or `Help`, whatever words follow |
| `Human.MoveForms` | src/agent/human.rs:16-52 | for any numerals `a` and `b` that fit a `usize` (with or without `+`, with or without leading zeros) and whose values are below 3, `next a b` and bare `a b` both give `Next` of their values |
| `Human.DecimalMoves` | src/agent/human.rs:16-52 | the printed decimal form of any board coordinates is read back as that move, in both forms |
| `Human.SignAndZerosAccepted` | src/agent/human.rs:20-46 | `next +0 02` is the move to column 0, row 2 |
| `Human.BlankIsMissingX` | src/agent/human.rs:24-26 | an empty or whitespace-only line fails with the missing-x error |
| `Human.BareNextIsMissingX` | src/agent/human.rs:46 | `next` with nothing after it, with any surrounding whitespace, fails with the missing-x error |
| `Human.UnknownWordIsInvalidX` | src/agent/human.rs:50 | a first word that is not a keyword, not `next` and not a numeral (for example `Prev`) is read as x and fails as not a number |
| `Human.LoneXIsMissingY` | src/agent/human.rs:28-33 | a single numeral that fits a `usize`, with or without `next` before it, fails with the missing-y error (a numeral too large for a `usize` fails earlier, as an invalid x) |
| `Human.BadYWords` | src/agent/human.rs:28-36 | in any line of words whose first word parses and whose second does not, with or without `next`, the second word's integer error is reported |
| `Human.BadYBeforeTooMany` | src/agent/human.rs:28-36 | after a numeral x that fits a `usize`, a y that does not parse (not a numeral, or too large) is reported with its integer error, before any extra words are noticed, with or without `next` |
| `Human.TooManyWords` | src/agent/human.rs:34-36 | any line of three or more words whose first two parse fails as "too many arguments", with or without `next` |
| `Human.TooManyBeforeRange` | src/agent/human.rs:34-41 | any two numerals that fit a `usize`, followed by at least one more word, fail as "too many arguments", even when the values are off the board, with or without `next` |
| `Human.OutOfRangeLast` | src/agent/human.rs:37-41 | exactly two numerals that fit a `usize`, at least one of whose values is 3 or more, fail as out of range, with or without `next` |
| `Human.ValidateXY` | src/agent/human.rs:53-55 | a coordinate pair is accepted when both values are below 3 |
| `Human.FiveFiveFive` | src/agent/human.rs:34-41 | `5 5 5` fails as "too many arguments", not as out of range |
| `Rules.MaxCounter` | src/environment.rs:130 | the counter value at which a mark is removed, 7 |
| `Rules.NewCell` | src/environment.rs:132-137 | a new cell has no owner and counter 0 |
| `Rules.Aged` | src/environment.rs:138-147 | an aged cell that is empty has counter 0; one that is still marked has the same owner and its counter plus one; a mark whose counter reaches 7 is removed, and any other mark stays |
| `Rules.EmptyGrid` | src/environment.rs:75-79 | a new board is nine new cells |
| `Rules.Placed` | src/environment.rs:81-83 | the chosen cell gets the new owner and keeps its counter; every other cell is unchanged |
| `Rules.AgedGrid` | src/environment.rs:85-91 | every one of the nine cells is aged, each on its own |
| `Rules.Advance` | src/environment.rs:32-40 | refused exactly when the cell is occupied; on success the turn passes, the chosen cell is the mover's mark aged once, and every other cell is aged once |
| `Rules.Initial` | src/environment.rs:23-30 | the new game: an empty board and `MARU` to move |
| `Rules.InitialInv` | src/environment.rs:22-30 | the new game has nine empty cells with counter 0, `MARU` to move, and satisfies the invariant |
| `Rules.InvCanAdvance` | src/environment.rs:138-147 | under the invariant no counter overflows its `u8` during a move |
| `Rules.AdvanceKeepsInv` | src/environment.rs:32-39 | under the invariant, a move on an occupied cell is refused; a move on an empty cell leaves it with the mover's mark and counter 1, passes the turn, and keeps the invariant: empty cells have counter 0, and marks have distinct counters from 1 to 6 |
| `Rules.AtMostSixMarks` | src/environment.rs:129-147 | between turns at most six cells are marked |
| `Rules.HasFreeCell` | src/environment.rs:32-39 | between turns some cell is empty, so a move can always be found |
| `Rules.Play` | src/environment.rs:32-40 | a run of moves applied one by one, stopping at the first refusal; every state it reaches satisfies the invariant |
| `Rules.TurnsAlternate` | src/environment.rs:37 | after n accepted moves the player to move is the first one if n is even and the other one if n is odd |
| `Rules.MarkAges` | src/environment.rs:138-147 | each accepted move adds one to a mark's counter and keeps its owner, until the move that takes it to 7 removes it |
| `Rules.MarkLifetime` | src/environment.rs:36-38 | the move that places a mark gives it counter 1; after k accepted moves in all (k at most 6), it still has its owner and counter k; the seventh move (the sixth after the placing one) removes it |
| `Rules.ScanLines` | src/environment.rs:93-126 | the scan of `Board::winner` from line i on, in the order rows, columns, main diagonal, anti-diagonal, returning at the first complete line; its meaning is stated by `ScanLinesFindsFirst` |
| `Rules.Winner` | src/environment.rs:93-126 | `Board::winner`: the scan from the first line; its meaning is stated by `WinnerIsFirstCompleteLine` |
| `Rules.ScanLinesFindsFirst` | src/environment.rs:93-126 | the scan from line i reports the owner of the first complete line at or after i, and nothing exactly when no later line is complete |
| `Rules.WinnerIsFirstCompleteLine` | src/environment.rs:93-126 | `Board::winner` is `Some(a)` exactly when the first complete line, in the order rows, columns, main diagonal, anti-diagonal, is owned by `a`; it is `None` exactly when no line is complete |
| `Rules.WinnerOwnsLine` | src/environment.rs:93-126 | a reported winner owns all three cells of some line |
| `Rules.NoWinnerInitially` | src/environment.rs:75-79 | a new board has no winner |
| `Environment.Board.constructor` | src/environment.rs:75-79 | a new board is nine new cells |
| `Environment.Board.Put` | src/environment.rs:81-83 | the board afterwards is `Placed` of the board before |
| `Environment.Board.Update` | src/environment.rs:85-91 | the nested loops leave the board as `AgedGrid` of the board before |
| `Environment.Environment.constructor` | src/environment.rs:23-30 | a new environment is the initial game (empty board, `MARU` to move) and satisfies the invariant |
| `Environment.Environment.Next` | src/environment.rs:32-40 | a refused move returns `AlreadyPlaced` and changes nothing; an accepted move makes the state `Advance` of the old state, leaving the chosen cell with the old player's mark and counter 1 and the other player to move; the invariant is kept |
| `Environment.Environment.IsDone` | src/environment.rs:42-44 | the game is over exactly when some row, column or diagonal is all one player's |
| `Environment.Environment.Winner` | src/environment.rs:46-48 | called only when the game is over; returns the owner of the first complete line in scan order |
| `Environment.Environment.CurrentAgent` | src/environment.rs:49-51 | returns the player whose turn it is |

## Left out

- The prompt-and-retry loop `HumanAgent::next` (src/agent/human.rs:63-78) reads standard input and prints. Only the parser behind it is modelled.
- The random and AI players (src/agent/random.rs, src/agent/ai.rs) draw from `rand::random`, and `AIAgent::make_file` writes files. They rely on `Board::get` and `CellState`, which the modelled `environment.rs` does not define. The one fact they depend on is that a free cell exists, which `Rules.HasFreeCell` proves.
- `Runner::run` (src/lib.rs) and `main` (src/main.rs) are a terminal loop and wiring. Their calls do not match the modelled `Environment`. A run of moves is modelled instead by the ghost function `Rules.Play`.
- The `Display` implementation of `Environment` (src/environment.rs:54-72) only draws the board on the terminal.
- The error texts are Japanese messages in the source. Here each error is a constructor of `Human.ParseError`. A bad `y` keeps the integer error kind, because the source passes Rust's own parse error through for `y`.
- `RustStr.ParseUsize`: assumes a 64-bit `usize`. On a 32-bit target, values from 2^32 to 2^64-1 would also overflow. No accepted command changes, because such a value is never below 3.
- Counter overflow: the source would panic in a debug build and wrap in a release build. The model requires instead that no overflow occurs, and proves that the invariant ensures this.
- `ParseUsize`: for text that is not a numeral, the contract says only that parsing fails, with `Empty` exactly for the empty text. Which error a non-empty one gives depends on which position fails first in the left-to-right scan. `OverflowBeforeBadDigit` and `BadDigitAfterFit` state this for text that starts with a digit, but the contract itself does not.
