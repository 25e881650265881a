# Lichess PGN annotator, modelled in Dafny

`analyze_game.py` reads a batch of chess games in PGN form. For each game it
takes the Lichess URL from the `[Site "..."]` header and fetches the game
page. From the page's PGN block it extracts the moves Lichess's analysis
marks as an Inaccuracy, a Mistake or a Blunder. It then rewrites the game's
moves line, writing the category in braces after each such half-move
(`e4` becomes `e4 {Blunder}`).

This project models the three parts of that program that do the work, and
proves what they do.

- **Error extraction** (`get_lichess_game_errors`, from the HTTP response
  on), in `extraction.dfy`.
  - The two regular expressions are written as a matcher, `ShapeAt`, for
    the White pattern `(\d+)\.\s+([^\s]+)(\?|\?\?|\?\!)\s+\{\s+\([^)]+\)\s+(Mistake|Blunder|Inaccuracy)\.`
    and the Black pattern, which has `\.\.\.` in place of `\.`.
  - The matcher is proved sound and complete against a declarative
    statement of what each pattern matches (`Derives`).
  - Python's backtracking has one real choice here: where the move ends
    and the glyph begins. The matcher is proved to take the choice Python
    takes, the longest move. So `Qh5??` is captured as move `Qh5?` and
    glyph `?`, and `Qh5?!` as move `Qh5` and glyph `?!`.
  - `re.findall`'s left-to-right scan is `Scan`. It is proved to report
    non-overlapping matches, each the match at its own start, and to miss
    no position where the pattern matches.
  - The two loops that build `errors_by_move` are proved to keep, per
    number and side, the last match with that number.
  - A status other than 200, or a page without a PGN block, gives the
    `{"error": ...}` value, with the source's messages.
- **The token walk** over the moves line (`embellish_pgn`, lines
  136-165), in `walk.dfy`.
  - The method `AnnotateMoves` is the source's loop, with `move_number`
    and `is_black_move`.
  - It is proved equal to a declarative definition. A token's move number
    is the value of the last `N.` marker before it. Its side is White
    after an even number of half-moves since that marker.
  - Proved properties: markers reset the count, and half-moves alternate.
    A token is rewritten exactly when the table has an entry for its
    number and side. The walk stops at the first result token. A failed
    fetch, or a table without entries, rewrites nothing.
- **Game and batch handling** (`embellish_pgn`, lines 107-133 and 166-168),
  in `games.dfy`.
  - The URL search `re.search(r'"(https://lichess\.org/\w+)"', line)` is
    proved to find the leftmost quoted Lichess URL.
  - The loop over a game's lines keeps the URL of the last matching
    `[Site` line and the index of the last line starting with `1.`.
  - A game missing either passes through. Otherwise exactly that one line
    is replaced.

String operations of Python (`str.strip`, `str.split`, `str.join`, `int`,
`str`, `str.startswith` and the `\s` class) are in `text.dfy`. `split`
followed by `join` is proved to round-trip. `join` followed by `split`
round-trips for a one-character separator that no part holds.

The HTTP call and the HTML parse are a parameter, `fetch: string ->
PageOutcome`. It gives the status code and the text of the page's
`div.pgn`, if the page has one.

## Model

| member | source | states |
|---|---|---|
| Extraction.ShapeAtSound | analyze_game.py:63-66 | every match the matcher reports is a way the White or Black pattern matches the text at that position |
| Extraction.ShapeAtFindsLongestMove | analyze_game.py:63-66 | wherever the pattern can match, the matcher reports a match there; it agrees with every way of matching except where the move ends, and its move is the longest, which is the one Python's backtracking reports |
| Extraction.HeadAtLongestMove | analyze_game.py:63-66 | the number, dots, whitespace, move and glyph part of the pattern is matched with the longest move whenever some split of move and glyph fits |
| Extraction.TailAtComplete | analyze_game.py:63-66 | the `\s+\{\s+\([^)]+\)\s+(Mistake\|Blunder\|Inaccuracy)\.` part has exactly one way to match where it matches, and the matcher finds it |
| Extraction.ScanAreMatches | analyze_game.py:69 | each match `re.findall`'s scan reports is the match at its own start |
| Extraction.ScanCovers | analyze_game.py:69 | no match is missed: every position where the pattern matches lies inside a reported match |
| Extraction.FindShapes | analyze_game.py:69 | the matches of `re.findall` lie in the text, in order and without overlap |
| Extraction.FindShapesAreMatches | analyze_game.py:69-81 | each match reported for either pattern is Python's match at its start |
| Extraction.FindShapesCovers | analyze_game.py:69-81 | every position where either pattern matches lies inside a reported match |
| Extraction.FindAll | analyze_game.py:69-82 | every tuple has a non-empty digit-string number, a non-empty move without whitespace and a glyph `?`, `??` or `?!` |
| Extraction.GroupsWellFormed | analyze_game.py:63-66 | the groups of any single match are well formed as above |
| Extraction.LookupInsertAll | analyze_game.py:70-91 | after one loop, the entry of its side under a number is the record of the last match with that number; the other side and the other numbers are unchanged |
| Extraction.KeysInsertAll | analyze_game.py:71-85 | a loop adds exactly the numbers its matches capture, each with at least one side |
| Extraction.ErrorTableLookup | analyze_game.py:69-91 | in the finished table, White and Black entries under one number are the records of the last White and last Black match with that number |
| Extraction.ErrorTableKeys | analyze_game.py:69-91 | the table holds a number exactly when a match of either pattern captured it, and never an empty entry |
| Extraction.ErrorTableWellFormed | analyze_game.py:63-91 | every entry sits under a digit string, its color is the side it is filed under, its move is non-empty without whitespace and its symbol is a glyph |
| Extraction.InsertMatches | analyze_game.py:70-78 | the create-then-set loop builds the table the fold `InsertAll` describes |
| Extraction.GetGameErrors | analyze_game.py:45-94 | a status other than 200 and a missing PGN block give the two error messages; otherwise the table of the White and then the Black matches |
| Text.Strip | analyze_game.py:107-113 | `strip` removes leading and trailing whitespace only, and its result neither starts nor ends with whitespace |
| Text.JoinSplit | analyze_game.py:107-113 | joining the pieces of a split with the separator gives back the string |
| Text.SplitJoin | analyze_game.py:165-166 | splitting a join on a one-character separator no part holds gives back the parts |
| Text.NatToString | analyze_game.py:155 | `str(n)` is a canonical digit string whose value is `n` |
| Text.NatToStringOfDigits | analyze_game.py:146-155 | a digit string without a leading zero is `str` of its value, so only such keys can be looked up |
| MoveWalk.MarkerResets | analyze_game.py:145-149 | after a `N.` marker the move number is `N` and White is to move |
| MoveWalk.MoveFlips | analyze_game.py:155-162 | any other token keeps the move number and passes the turn to the other side |
| MoveWalk.AnnotateMoves | analyze_game.py:140-162 | the loop emits, for each token up to the first result, the token annotated under the move number of the last marker and the side given by the parity of the half-moves since it |
| MoveWalk.RewriteIff | analyze_game.py:145-159 | a token is rewritten if and only if it is neither a marker nor a result and the table has an entry for its number and side; the rewritten token is the token followed by a space and that entry's category in braces |
| MoveWalk.ResultTerminates | analyze_game.py:151-153 | the walk emits the tokens up to and including the first result, which is kept as is, and nothing after |
| MoveWalk.TailIgnored | analyze_game.py:151-153 | the tokens after the first result do not affect the output |
| MoveWalk.NoEntriesNoRewrite | analyze_game.py:155-159 | with a failed fetch or an empty table every emitted token is the token read |
| MoveWalk.NoEntriesLineUnchanged | analyze_game.py:136-165 | with no entries and no result token the moves line comes back unchanged |
| MoveWalk.AnnotatedLineLacksBreak | analyze_game.py:165 | the rewritten moves line holds no line break when the line did not |
| Games.UrlAtComplete | analyze_game.py:121 | a quoted Lichess URL at a position is the match of the URL pattern there; the `\w+` has only one way to match |
| Games.FindUrlIff | analyze_game.py:121-123 | `re.search` finds a URL if and only if a quoted Lichess URL stands in the line; what it finds is such a URL, and the leftmost |
| Games.LastOfKind | analyze_game.py:119-127 | the line kept is the last `[Site` line with a URL match, or the last line starting with `1.`; none is kept when there is none |
| Games.FindLinesOfInterest | analyze_game.py:115-127 | the loop over the lines ends with the URL of the last matching `[Site` line and the index of the last moves line |
| Games.GamePassThrough | analyze_game.py:130-133 | a game without a URL or a moves line is appended as it was |
| Games.OnlyMovesLineReplaced | analyze_game.py:135-166 | otherwise the game comes out stripped, with the same lines except the last moves line, which becomes its annotation under the table fetched for the last URL |
| Games.EmbellishGame | analyze_game.py:113-166 | the body of the loop over the games computes the game's output as the code writes it: a skipped game unstripped, an annotated one as above |
| Games.AsWrittenAddsSpaces | analyze_game.py:132-168 | as written, a batch of two or more games none of which is annotated comes out one character longer per later game, so not as it went in |
| Games.BatchPassThrough | analyze_game.py:132-168 | with skipped games stripped, a well-spaced batch none of whose games is annotated comes out as the stripped batch |
| Games.CorrectionKeepsAnnotated | analyze_game.py:130-168 | when no game of the batch is skipped, the output with skipped games stripped is the output as written |
| Games.EmbellishGames | analyze_game.py:110-166 | the loop over the games appends each game's output as the code writes it, in order |
| Games.EmbellishPgn | analyze_game.py:107-168 | the batch is cut on `\n\n[Event`, each game embellished as the code writes it, and the outputs joined with `\n\n[Event ` |

## Left out

- The HTTP request, the HTML parse and `div.pgn` lookup (lines 43-57) are the `fetch` parameter. Exceptions raised by `requests` are not modelled. `fetch` is a pure function, so two games with the same URL see the same page.
- Logging, `setup_logger`, `main`, argument parsing and file I/O are not modelled. They do not affect the output.
- `\d` and `\w` are ASCII only. Python's `str` patterns also accept other Unicode digits and letters, and `int()` accepts non-ASCII digits. `\s` is Python's full Unicode whitespace set, as is `str.strip`.
- `re.match(r"^\d+\.$", move)`: `$` also matches before a final newline. Tokens of a line split on `\n` cannot hold one, so this case is not modelled.
- Dictionary insertion order is not modelled: `errors_by_move` is a `map`, and its entries' `"color"` is a `Side` rather than the strings `"white"` and `"black"`.
- No general regular-expression engine: only the three patterns the code uses are modelled.
- The backtracking choice for `Qh5??` is modelled as the code behaves: move `Qh5?`, glyph `?`. A first reading of the pattern suggests `Qh5` and `??`.
- Running the annotator twice is not claimed to be idempotent, and nothing about it is proved. An annotated token `e4 {Blunder}` splits into two tokens on the second run, and that shifts the side to move.
- MoveWalk.MarkerValue: does not model the `ValueError` that `int(move[:-1])` (line 146) raises on Python 3.11 and later for a string of more than 4300 digits, which would abort the whole run. Neither it nor `Text.NatToString` has a digit limit, so the walk goes on past a marker that long instead of raising.
- MoveWalk.AnnotateMoves: no worked six-token example is proved. Its proof by evaluation is beyond the resource limit, and the general lemmas state the same behaviour.

## Findings

| source | as written | input that shows it | evidently intended | confidence | as-written member | corrected member |
|---|---|---|---|---|---|---|
| analyze_game.py:132 | a game skipped for lacking a URL or a moves line is appended unstripped, but all games are joined with `"\n\n[Event "`, whose last character is a space | `[Event "A"]`, a blank line, `[Event "B"]`, with no `[Site` lines: the output's second header reads `[Event  "B"]` | skipped games are stripped like annotated ones, so the join restores each `[Event "..."]` header | high (not executed) | Games.AsWrittenAddsSpaces | Games.BatchPassThrough |

The as-written behaviour is `Games.GameOutputAsWritten` and
`Games.BatchOutputAsWritten`. The methods `Games.EmbellishGame`,
`Games.EmbellishGames` and `Games.EmbellishPgn` implement them, as the code
does. The corrected `Games.GameOutput` and `Games.BatchOutput` differ only in
appending `game.strip()` for a skipped game. `Games.CorrectionKeepsAnnotated`
proves that the correction changes nothing for a batch with no skipped game.
