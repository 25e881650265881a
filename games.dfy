/**
  `embellish_pgn` around the walk: the batch is cut into games, each game
  into lines; the game's Lichess URL and its moves line are found, the error
  table is fetched for the URL, and the moves line is replaced by its
  annotated form. Games without a URL or a moves line pass through.
 */
module Games {
  import opened Wrappers
  import opened Text
  import opened Extraction
  import opened MoveWalk

  // ---------------------------------------------------------------------------
  // re.search(r'"(https://lichess\.org/\w+)"', line)

  const LichessPrefix := "https://lichess.org/"

  /** `https://lichess\.org/\w+`: the prefix, then one or more word characters. */
  predicate IsLichessUrl(url: string) {
    && StartsWith(url, LichessPrefix) && |url| > |LichessPrefix|
    && forall i :: |LichessPrefix| <= i < |url| ==> IsWordChar(url[i])
  }

  /** `url` stands between double quotes at `p`. */
  predicate QuotedAt(line: string, p: nat, url: string) {
    && p + |url| + 2 <= |line|
    && line[p] == '"' && line[p + 1..p + 1 + |url|] == url && line[p + 1 + |url|] == '"'
  }

  /**
    The pattern tried at `p`. A shorter `\w+` run would be followed by a word
    character rather than `"`, so only the longest run can match.
   */
  function UrlAt(line: string, p: nat): (r: Option<string>)
    requires p <= |line|
    ensures r.Some? ==> IsLichessUrl(r.value) && QuotedAt(line, p, r.value)
  {
    var a := p + 1 + |LichessPrefix|;
    if a > |line| || line[p] != '"' || line[p + 1..a] != LichessPrefix then None
    else
      var e := RunEnd(line, a, WordChars);
      if e == a || e == |line| || line[e] != '"' then None
      else
        var url := line[p + 1..e];
        SliceOfSlice(line, p + 1, a, e);
        assert forall i :: |LichessPrefix| <= i < |url| ==> url[i] == line[p + 1 + i];
        Some(url)
  }

  /** The front of a slice is the slice of the front. */
  lemma SliceOfSlice(s: string, i: nat, k: nat, j: nat)
    requires i <= k <= j <= |s|
    ensures s[i..j][..k - i] == s[i..k]
  {
    assert forall x :: 0 <= x < k - i ==> s[i..j][..k - i][x] == s[i..k][x];
  }

  /** The leftmost position from `from` on where the pattern matches. */
  function SearchUrl(line: string, from: nat): (r: Option<nat>)
    requires from <= |line|
    ensures r.Some? ==> from <= r.value < |line| && UrlAt(line, r.value).Some?
    ensures r.Some? ==> forall q :: from <= q < r.value ==> UrlAt(line, q).None?
    ensures r.None? ==> forall q :: from <= q <= |line| ==> UrlAt(line, q).None?
    decreases |line| - from
  {
    if from == |line| then None
    else if UrlAt(line, from).Some? then Some(from)
    else SearchUrl(line, from + 1)
  }

  /** `match.group(1)` of `re.search`, if the line has a match. */
  function FindUrl(line: string): Option<string> {
    match SearchUrl(line, 0)
    case Some(p) => UrlAt(line, p)
    case None => None
  }

  /** The pattern has one way to match at a position, so a quoted Lichess URL is the match there. */
  lemma {:induction false} UrlAtComplete(line: string, p: nat, url: string)
    requires QuotedAt(line, p, url) && IsLichessUrl(url)
    ensures UrlAt(line, p) == Some(url)
  {
    var n := |LichessPrefix|;
    var a := p + 1 + n;
    var e := p + 1 + |url|;
    assert line[p + 1..a] == url[..n];
    assert forall i :: a <= i < e ==> line[i] == url[i - p - 1];
    assert AllIn(line, a, e, WordChars);
    assert !InClass(WordChars, line[e]);
    RunEndUnique(line, a, e, WordChars);
  }

  /**
    `re.search` finds a URL exactly when some quoted Lichess URL stands in
    the line, and what it finds is the leftmost one.
   */
  lemma {:induction false} FindUrlIff(line: string)
    ensures FindUrl(line).Some? ==> IsLichessUrl(FindUrl(line).value)
    ensures FindUrl(line).Some? ==> QuotedAt(line, SearchUrl(line, 0).value, FindUrl(line).value)
    ensures forall p, url :: QuotedAt(line, p, url) && IsLichessUrl(url) ==>
      FindUrl(line).Some? && SearchUrl(line, 0).value <= p
  {
    forall p, url | QuotedAt(line, p, url) && IsLichessUrl(url)
      ensures FindUrl(line).Some? && SearchUrl(line, 0).value <= p
    {
      UrlAtComplete(line, p, url);
    }
  }

  // ---------------------------------------------------------------------------
  // The lines of interest

  /** The two kinds of line the loop over a game's lines looks for. */
  datatype LineKind = SiteUrl | Moves

  /** A `[Site` line whose URL pattern matches, or a line starting with `1.`. */
  predicate HasKind(line: string, kind: LineKind) {
    match kind
    case SiteUrl => StartsWith(line, "[Site") && FindUrl(line).Some?
    case Moves => StartsWith(line, "1.")
  }

  /** The last line of `kind` among the first `k`: each later one overwrites what the loop kept. */
  function LastOfKind(lines: seq<string>, k: nat, kind: LineKind): (r: Option<nat>)
    requires k <= |lines|
    ensures r.Some? ==> r.value < k && HasKind(lines[r.value], kind)
    ensures r.Some? ==> forall j :: r.value < j < k ==> !HasKind(lines[j], kind)
    ensures r.None? ==> forall j :: 0 <= j < k ==> !HasKind(lines[j], kind)
  {
    if k == 0 then None
    else if HasKind(lines[k - 1], kind) then Some(k - 1)
    else LastOfKind(lines, k - 1, kind)
  }

  /** `url` after the first `k` lines: the match on the last `[Site` line that had one. */
  function SiteUrlOf(lines: seq<string>, k: nat): (r: Option<string>)
    requires k <= |lines|
    ensures r.Some? ==> IsLichessUrl(r.value)
  {
    match LastOfKind(lines, k, SiteUrl)
    case Some(s) => FindUrlIff(lines[s]); FindUrl(lines[s])
    case None => None
  }

  // ---------------------------------------------------------------------------
  // One game

  /** `game.strip().split("\n")`. */
  function GameLines(game: string): (lines: seq<string>)
    ensures |lines| >= 1
  {
    Split(Strip(game), "\n")
  }

  /** The game's lines joined back, its moves line `m` annotated under the table `fetch` gives for `url`. */
  function AnnotatedGame(lines: seq<string>, m: nat, url: string, fetch: string -> PageOutcome): string
    requires m < |lines|
  {
    Join("\n", lines[m := AnnotatedLine(lines[m], GameErrorsOf(fetch(url)))])
  }

  /**
    What the loop over the games appends for `game` as written, with `fetch`
    standing for the HTTP call and the HTML parse: a game it skips goes in
    unstripped.
   */
  function GameOutputAsWritten(game: string, fetch: string -> PageOutcome): string {
    var lines := GameLines(game);
    match (SiteUrlOf(lines, |lines|), LastOfKind(lines, |lines|, Moves))
    case (Some(url), Some(m)) => AnnotatedGame(lines, m, url, fetch)
    case _ => game
  }

  /** The same with a skipped game stripped like an annotated one, so that the join restores its `[Event ` header. */
  function GameOutput(game: string, fetch: string -> PageOutcome): string {
    var lines := GameLines(game);
    match (SiteUrlOf(lines, |lines|), LastOfKind(lines, |lines|, Moves))
    case (Some(url), Some(m)) => AnnotatedGame(lines, m, url, fetch)
    case _ => Strip(game)
  }

  /** One turn of the loop over a game's lines, for the URL it keeps. */
  lemma {:induction false} SiteUrlStep(lines: seq<string>, i: nat)
    requires i < |lines|
    ensures SiteUrlOf(lines, i + 1) ==
      if StartsWith(lines[i], "[Site") && FindUrl(lines[i]).Some? then FindUrl(lines[i]) else SiteUrlOf(lines, i)
  {
  }

  /** What a game comes out as once its URL and moves line are known. */
  lemma {:induction false} GameOutputFound(game: string, fetch: string -> PageOutcome, url: string, m: nat)
    requires SiteUrlOf(GameLines(game), |GameLines(game)|) == Some(url)
    requires LastOfKind(GameLines(game), |GameLines(game)|, Moves) == Some(m)
    ensures GameOutput(game, fetch) == AnnotatedGame(GameLines(game), m, url, fetch)
    ensures GameOutputAsWritten(game, fetch) == GameOutput(game, fetch)
  {
  }

  /** The loop over a game's lines: the last URL of a `[Site` line, and the index of the last moves line. */
  method FindLinesOfInterest(lines: seq<string>) returns (url: Option<string>, movesLineIndex: Option<nat>)
    ensures url == SiteUrlOf(lines, |lines|)
    ensures movesLineIndex == LastOfKind(lines, |lines|, Moves)
  {
    url := None;
    movesLineIndex := None;
    for i := 0 to |lines|
      invariant url == SiteUrlOf(lines, i)
      invariant movesLineIndex == LastOfKind(lines, i, Moves)
    {
      SiteUrlStep(lines, i);
      var line := lines[i];
      if StartsWith(line, "[Site") {
        var found := FindUrl(line);
        if found.Some? {
          url := found;
        }
      }
      if StartsWith(line, "1.") {
        movesLineIndex := Some(i);
      }
    }
  }

  /**
    The body of the loop over the games: find the URL and the moves line,
    fetch the error table and annotate the moves line.
   */
  method EmbellishGame(game: string, fetch: string -> PageOutcome) returns (out: string)
    ensures out == GameOutputAsWritten(game, fetch)
  {
    var lines := Split(Strip(game), "\n");
    var url, movesLineIndex := FindLinesOfInterest(lines);
    if url.None? || movesLineIndex.None? {
      return game;
    }
    var m := movesLineIndex.value;
    GameOutputFound(game, fetch, url.value, m);
    var errors := GetGameErrors(fetch(url.value));
    var moves := Split(lines[m], " ");
    var newMoves := AnnotateMoves(moves, errors);
    lines := lines[m := Join(" ", newMoves)];
    out := Join("\n", lines);
  }

  /** A game without a matching `[Site` line or without a moves line. */
  predicate PassesThrough(game: string) {
    SiteUrlOf(GameLines(game), |GameLines(game)|).None? || LastOfKind(GameLines(game), |GameLines(game)|, Moves).None?
  }

  /**
    A game without a matching `[Site` line or without a moves line comes out
    as it went in: unstripped as written, stripped once corrected.
   */
  lemma {:induction false} GamePassThrough(game: string, fetch: string -> PageOutcome)
    requires PassesThrough(game)
    ensures GameOutputAsWritten(game, fetch) == game
    ensures GameOutput(game, fetch) == Strip(game)
  {
  }

  /**
    Otherwise the game comes out stripped, with the same lines as before
    except the last moves line, which is replaced by its annotation under
    the table fetched for the last URL.
   */
  lemma {:induction false} OnlyMovesLineReplaced(game: string, fetch: string -> PageOutcome)
    requires SiteUrlOf(GameLines(game), |GameLines(game)|).Some?
    requires LastOfKind(GameLines(game), |GameLines(game)|, Moves).Some?
    ensures var lines := GameLines(game);
      var m := LastOfKind(lines, |lines|, Moves).value;
      var errors := GameErrorsOf(fetch(SiteUrlOf(lines, |lines|).value));
      var outLines := Split(GameOutput(game, fetch), "\n");
      && |outLines| == |lines|
      && outLines[m] == AnnotatedLine(lines[m], errors)
      && forall j :: 0 <= j < |lines| && j != m ==> outLines[j] == lines[j]
  {
    var lines := GameLines(game);
    var m := LastOfKind(lines, |lines|, Moves).value;
    var url := SiteUrlOf(lines, |lines|).value;
    GameOutputFound(game, fetch, url, m);
    SplitPartsAvoidSep(Strip(game), "\n");
    AnnotatedGameLines(lines, m, url, fetch);
  }

  /** Splitting an annotated game into lines gives back its lines, the moves line replaced. */
  lemma {:induction false} AnnotatedGameLines(lines: seq<string>, m: nat, url: string, fetch: string -> PageOutcome)
    requires m < |lines|
    requires forall k, j :: 0 <= k < |lines| && 0 <= j < |lines[k]| ==> lines[k][j] != "\n"[0]
    ensures Split(AnnotatedGame(lines, m, url, fetch), "\n") == lines[m := AnnotatedLine(lines[m], GameErrorsOf(fetch(url)))]
  {
    var errors := GameErrorsOf(fetch(url));
    var newLines := lines[m := AnnotatedLine(lines[m], errors)];
    assert Lacks(lines[m], '\n') by {
      assert forall j :: 0 <= j < |lines[m]| ==> lines[m][j] != "\n"[0];
    }
    AnnotatedLineLacksBreak(lines[m], errors);
    assert forall k, j :: 0 <= k < |newLines| && 0 <= j < |newLines[k]| ==> newLines[k][j] != "\n"[0];
    SplitJoin(newLines, "\n");
  }

  // ---------------------------------------------------------------------------
  // The batch

  /** What the batch is cut on. */
  const GameSeparator := "\n\n[Event"

  /** What the source joins the games back with: the separator and a space. */
  const GameJoiner := "\n\n[Event "

  /** `pgn.strip().split("\n\n[Event")`. */
  function Games(pgn: string): (games: seq<string>)
    ensures |games| >= 1
  {
    Split(Strip(pgn), GameSeparator)
  }

  /** The games, each replaced by what `f` makes of it, in order. */
  function MapGames(games: seq<string>, f: string -> string): (outs: seq<string>)
    ensures |outs| == |games|
  {
    if games == [] then [] else MapGames(games[..|games| - 1], f) + [f(games[|games| - 1])]
  }

  /** One more turn of the loop over the games appends what `f` makes of the next game. */
  lemma {:induction false} MapGamesSnoc(games: seq<string>, i: nat, f: string -> string)
    requires i < |games|
    ensures MapGames(games[..i + 1], f) == MapGames(games[..i], f) + [f(games[i])]
  {
    assert games[..i + 1][..i] == games[..i];
  }

  /** Each game is replaced by what `f` makes of it. */
  lemma {:induction false} MapGamesAt(games: seq<string>, f: string -> string)
    ensures forall i :: 0 <= i < |games| ==> MapGames(games, f)[i] == f(games[i])
    decreases |games|
  {
    if games != [] {
      var init := games[..|games| - 1];
      MapGamesAt(init, f);
      assert forall i :: 0 <= i < |init| ==> init[i] == games[i];
    }
  }

  /** Games that `f` leaves alone come out as they went in. */
  lemma {:induction false} MapGamesUnchanged(games: seq<string>, f: string -> string)
    requires forall i :: 0 <= i < |games| ==> f(games[i]) == games[i]
    ensures MapGames(games, f) == games
  {
    MapGamesAt(games, f);
  }

  /** What the loop over the games does to one game, as written. */
  function GameOutputAsWrittenOf(fetch: string -> PageOutcome): string -> string {
    game => GameOutputAsWritten(game, fetch)
  }

  /** What the loop over the games does to one game, once corrected. */
  function GameOutputOf(fetch: string -> PageOutcome): string -> string {
    game => GameOutput(game, fetch)
  }

  /** `embellish_pgn` as written. */
  function BatchOutputAsWritten(pgn: string, fetch: string -> PageOutcome): string {
    Join(GameJoiner, MapGames(Games(pgn), GameOutputAsWrittenOf(fetch)))
  }

  /** `embellish_pgn` with skipped games stripped before the join. */
  function BatchOutput(pgn: string, fetch: string -> PageOutcome): string {
    Join(GameJoiner, MapGames(Games(pgn), GameOutputOf(fetch)))
  }

  /** Every game of the batch passes through. */
  predicate NoGameAnnotated(pgn: string) {
    forall i :: 0 <= i < |Games(pgn)| ==> PassesThrough(Games(pgn)[i])
  }

  /**
    The pieces of a batch whose headers read `[Event ` followed by the rest
    of the game, with no stray whitespace where the games meet: the first
    piece is stripped, and every later one is a space and a stripped game.
   */
  predicate WellSpaced(games: seq<string>) {
    && |games| >= 1 && Strip(games[0]) == games[0]
    && forall i :: 1 <= i < |games| ==> games[i] == " " + Strip(games[i])
  }

  /**
    As written, a batch of two or more games none of which is annotated
    still changes: every game after the first gains a character, the space
    the join puts after `[Event`.
   */
  lemma {:induction false} AsWrittenAddsSpaces(pgn: string, fetch: string -> PageOutcome)
    requires NoGameAnnotated(pgn) && |Games(pgn)| >= 2
    ensures |BatchOutputAsWritten(pgn, fetch)| == |Strip(pgn)| + |Games(pgn)| - 1
    ensures BatchOutputAsWritten(pgn, fetch) != Strip(pgn)
  {
    var games := Games(pgn);
    forall i | 0 <= i < |games| ensures GameOutputAsWrittenOf(fetch)(games[i]) == games[i] {
      GamePassThrough(games[i], fetch);
    }
    MapGamesUnchanged(games, GameOutputAsWrittenOf(fetch));
    JoinSplit(Strip(pgn), GameSeparator);
    JoinWiderSeparator(GameSeparator, GameJoiner, games);
  }

  /**
    Corrected, a well-spaced batch none of whose games is annotated comes
    out as the stripped batch, every `[Event ` header as it was.
   */
  lemma {:induction false} BatchPassThrough(pgn: string, fetch: string -> PageOutcome)
    requires NoGameAnnotated(pgn) && WellSpaced(Games(pgn))
    ensures BatchOutput(pgn, fetch) == Strip(pgn)
  {
    var games := Games(pgn);
    forall i | 0 <= i < |games| ensures GameOutputOf(fetch)(games[i]) == Strip(games[i]) {
      GamePassThrough(games[i], fetch);
    }
    StrippedGamesRejoin(games, GameOutputOf(fetch));
    JoinSplit(Strip(pgn), GameSeparator);
  }

  /** The correction only touches skipped games: a batch none of whose games is skipped comes out the same either way. */
  lemma {:induction false} CorrectionKeepsAnnotated(pgn: string, fetch: string -> PageOutcome)
    requires forall i :: 0 <= i < |Games(pgn)| ==> !PassesThrough(Games(pgn)[i])
    ensures BatchOutput(pgn, fetch) == BatchOutputAsWritten(pgn, fetch)
  {
    var games := Games(pgn);
    forall i | 0 <= i < |games| ensures GameOutputOf(fetch)(games[i]) == GameOutputAsWrittenOf(fetch)(games[i]) {
      GameOutputsAgree(games[i], fetch);
    }
    MapGamesAgree(games, GameOutputOf(fetch), GameOutputAsWrittenOf(fetch));
  }

  /** A game that is not skipped comes out the same with or without the correction. */
  lemma {:induction false} GameOutputsAgree(game: string, fetch: string -> PageOutcome)
    requires !PassesThrough(game)
    ensures GameOutput(game, fetch) == GameOutputAsWritten(game, fetch)
  {
    var lines := GameLines(game);
    GameOutputFound(game, fetch, SiteUrlOf(lines, |lines|).value, LastOfKind(lines, |lines|, Moves).value);
  }

  /** Two functions that agree on every game give the same outputs. */
  lemma {:induction false} MapGamesAgree(games: seq<string>, f: string -> string, g: string -> string)
    requires forall i :: 0 <= i < |games| ==> f(games[i]) == g(games[i])
    ensures MapGames(games, f) == MapGames(games, g)
  {
    MapGamesAt(games, f);
    MapGamesAt(games, g);
  }

  /** Well-spaced games, each stripped, joined with the joiner, give the games joined on the separator. */
  lemma {:induction false} StrippedGamesRejoin(games: seq<string>, f: string -> string)
    requires WellSpaced(games)
    requires forall i :: 0 <= i < |games| ==> f(games[i]) == Strip(games[i])
    ensures Join(GameJoiner, MapGames(games, f)) == Join(GameSeparator, games)
  {
    MapGamesAt(games, f);
    assert GameJoiner == GameSeparator + " ";
    JoinRestoresSpace(GameSeparator, games, MapGames(games, f));
  }

  /** Joining on `sep` and a space the pieces stripped of their leading space gives the join on `sep`. */
  lemma {:induction false} JoinRestoresSpace(sep: string, parts: seq<string>, stripped: seq<string>)
    requires |parts| == |stripped| >= 1 && stripped[0] == parts[0]
    requires forall i :: 1 <= i < |parts| ==> parts[i] == " " + stripped[i]
    ensures Join(sep + " ", stripped) == Join(sep, parts)
    decreases |parts|
  {
    if |parts| >= 2 {
      var parts' := [stripped[1]] + parts[2..];
      assert forall i :: 1 <= i < |parts'| ==> parts'[i] == parts[i + 1];
      JoinRestoresSpace(sep, parts', stripped[1..]);
      assert parts[1..] == [" " + stripped[1]] + parts[2..];
      JoinPrefixFirst(sep, " ", stripped[1], parts[2..]);
      assert parts'[1..] == parts[2..];
    }
  }

  /** The loop of `embellish_pgn` over the games, building `updated_pgn`. */
  method EmbellishGames(games: seq<string>, fetch: string -> PageOutcome) returns (updatedPgn: seq<string>)
    ensures updatedPgn == MapGames(games, GameOutputAsWrittenOf(fetch))
  {
    updatedPgn := [];
    for i := 0 to |games|
      invariant updatedPgn == MapGames(games[..i], GameOutputAsWrittenOf(fetch))
    {
      var updated := EmbellishGame(games[i], fetch);
      MapGamesSnoc(games, i, GameOutputAsWrittenOf(fetch));
      updatedPgn := updatedPgn + [updated];
    }
    assert games[..|games|] == games;
  }

  /** `embellish_pgn`: the games cut apart, each embellished, and joined back. */
  method EmbellishPgn(pgn: string, fetch: string -> PageOutcome) returns (out: string)
    ensures out == BatchOutputAsWritten(pgn, fetch)
  {
    var games := Split(Strip(pgn), GameSeparator);
    var updatedPgn := EmbellishGames(games, fetch);
    out := Join(GameJoiner, updatedPgn);
  }
}
