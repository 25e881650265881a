/**
  The walk over the tokens of a game's movetext: move-number markers reset
  the count and give the turn to White, a result token ends the walk, and
  every other token is a half-move that is annotated when the error table
  has an entry for its number and side.
 */
module MoveWalk {
  import opened Wrappers
  import opened Text
  import opened Extraction

  // ---------------------------------------------------------------------------
  // Tokens

  /** `^\d+\.$`: one or more digits, then a dot, and nothing else. */
  predicate IsMarker(tok: string) {
    |tok| >= 2 && tok[|tok| - 1] == '.' && AllDigits(tok[..|tok| - 1])
  }

  /** `int(move[:-1])` of a marker. */
  function MarkerValue(tok: string): nat
    requires IsMarker(tok)
  {
    DigitsValue(tok[..|tok| - 1])
  }

  /** The three result tokens. */
  predicate IsResult(tok: string) {
    tok == "1-0" || tok == "0-1" || tok == "1/2-1/2"
  }

  function Flip(side: Side): Side {
    if side == White then Black else White
  }

  /** `f"{move} {{{error_type}}}"`. */
  function Annotate(tok: string, e: ErrorRecord): (r: string)
    ensures |r| > |tok| && r[..|tok|] == tok
    ensures r[|tok|..] == " {" + SeverityWord(e.errorType) + "}"
  {
    tok + " {" + SeverityWord(e.errorType) + "}"
  }

  /**
    `errors.get(str(n), {}).get(color)`. A failure dictionary only has the
    key `"error"`, which no `str(n)` equals, so it yields nothing.
   */
  function Lookup(errors: GameErrors, n: nat, side: Side): Option<ErrorRecord> {
    match errors
    case Failure(_) => None
    case Table(table) => LookupKey(table, NatToString(n), side)
  }

  // ---------------------------------------------------------------------------
  // Where the walk is, for each token

  /** The index of the last marker among the first `k` tokens. */
  function LastMarkerBefore(toks: seq<string>, k: nat): (r: Option<nat>)
    requires k <= |toks|
    ensures r.Some? ==> r.value < k && IsMarker(toks[r.value])
    ensures r.Some? ==> forall j :: r.value < j < k ==> !IsMarker(toks[j])
    ensures r.None? ==> forall j :: 0 <= j < k ==> !IsMarker(toks[j])
  {
    if k == 0 then None
    else if IsMarker(toks[k - 1]) then Some(k - 1)
    else LastMarkerBefore(toks, k - 1)
  }

  /** The move number in force at token `k`: the value of the last marker before it, or 1. */
  function MoveNumberAt(toks: seq<string>, k: nat): nat
    requires k <= |toks|
  {
    match LastMarkerBefore(toks, k)
    case Some(i) => MarkerValue(toks[i])
    case None => 1
  }

  /** How many tokens lie between the last marker before `k` (or the start) and `k`. */
  function HalfMovesSince(toks: seq<string>, k: nat): nat
    requires k <= |toks|
  {
    match LastMarkerBefore(toks, k)
    case Some(i) => k - (i + 1)
    case None => k
  }

  /** The side to move at token `k`: White after an even number of half-moves since the marker. */
  function SideAt(toks: seq<string>, k: nat): Side
    requires k <= |toks|
  {
    if HalfMovesSince(toks, k) % 2 == 0 then White else Black
  }

  /** A marker sets the move number to its value and gives the turn to White. */
  lemma {:induction false} MarkerResets(toks: seq<string>, k: nat)
    requires k < |toks| && IsMarker(toks[k])
    ensures MoveNumberAt(toks, k + 1) == MarkerValue(toks[k])
    ensures SideAt(toks, k + 1) == White
  {
  }

  /** Any other token keeps the move number and passes the turn to the other side. */
  lemma {:induction false} MoveFlips(toks: seq<string>, k: nat)
    requires k < |toks| && !IsMarker(toks[k])
    ensures MoveNumberAt(toks, k + 1) == MoveNumberAt(toks, k)
    ensures SideAt(toks, k + 1) == Flip(SideAt(toks, k))
  {
    assert LastMarkerBefore(toks, k + 1) == LastMarkerBefore(toks, k);
  }

  /** Where the walk is depends only on the tokens before it. */
  lemma {:induction false} LastMarkerPrefix(toks: seq<string>, m: nat, k: nat)
    requires k <= m <= |toks|
    ensures LastMarkerBefore(toks[..m], k) == LastMarkerBefore(toks, k)
    decreases k
  {
    if k > 0 {
      assert toks[..m][k - 1] == toks[k - 1];
      LastMarkerPrefix(toks, m, k - 1);
    }
  }

  // ---------------------------------------------------------------------------
  // The walk

  /** The index of the first result token. */
  function FirstResult(toks: seq<string>): (r: Option<nat>)
    ensures r.Some? ==> r.value < |toks| && IsResult(toks[r.value])
    ensures r.Some? ==> forall j :: 0 <= j < r.value ==> !IsResult(toks[j])
    ensures r.None? ==> forall j :: 0 <= j < |toks| ==> !IsResult(toks[j])
  {
    if toks == [] then None
    else if IsResult(toks[0]) then Some(0)
    else match FirstResult(toks[1..])
      case None => None
      case Some(i) => Some(i + 1)
  }

  /** How many tokens the walk emits: up to and including the first result, or all of them. */
  function WalkLength(toks: seq<string>): (n: nat)
    ensures n <= |toks|
  {
    match FirstResult(toks)
    case Some(i) => i + 1
    case None => |toks|
  }

  /** What one turn of the loop emits for `tok` at move number `n` with `side` to move. */
  function TokenOut(tok: string, n: nat, side: Side, errors: GameErrors): string {
    if IsMarker(tok) || IsResult(tok) then tok
    else match Lookup(errors, n, side)
      case Some(e) => Annotate(tok, e)
      case None => tok
  }

  /** What the walk emits for token `k`. */
  function AnnotatedToken(toks: seq<string>, k: nat, errors: GameErrors): string
    requires k < |toks|
  {
    TokenOut(toks[k], MoveNumberAt(toks, k), SideAt(toks, k), errors)
  }

  /** `new_moves` once the walk over `moves` is done. */
  function AnnotatedTokens(toks: seq<string>, errors: GameErrors): (out: seq<string>)
    ensures |out| == WalkLength(toks)
  {
    seq(WalkLength(toks), k requires 0 <= k < WalkLength(toks) => AnnotatedToken(toks, k, errors))
  }

  /** One more token of the walk extends its output by that token's output. */
  lemma AnnotatedTokensStep(toks: seq<string>, errors: GameErrors, i: nat)
    requires i < WalkLength(toks)
    ensures AnnotatedTokens(toks, errors)[..i + 1] == AnnotatedTokens(toks, errors)[..i] + [AnnotatedToken(toks, i, errors)]
  {
  }

  /** The walk stops right after a result and goes on past any other token. */
  lemma WalkGoesOn(toks: seq<string>, i: nat)
    requires i < WalkLength(toks)
    ensures IsResult(toks[i]) ==> WalkLength(toks) == i + 1
    ensures !IsResult(toks[i]) ==> i + 1 <= WalkLength(toks) && (i + 1 == WalkLength(toks) ==> i + 1 == |toks|)
  {
  }

  /**
    The loop of `embellish_pgn` over the tokens of the moves line, with its
    `move_number` and `is_black_move`.
   */
  method AnnotateMoves(moves: seq<string>, errors: GameErrors) returns (newMoves: seq<string>)
    ensures newMoves == AnnotatedTokens(moves, errors)
  {
    newMoves := [];
    var moveNumber: nat := 1;
    var isBlackMove := false;
    var i := 0;
    while i < |moves|
      invariant i <= WalkLength(moves) && (i == WalkLength(moves) ==> i == |moves|)
      invariant moveNumber == MoveNumberAt(moves, i)
      invariant (if isBlackMove then Black else White) == SideAt(moves, i)
      invariant newMoves == AnnotatedTokens(moves, errors)[..i]
    {
      var move := moves[i];
      ghost var out := AnnotatedToken(moves, i, errors);
      assert out == TokenOut(move, moveNumber, if isBlackMove then Black else White, errors);
      AnnotatedTokensStep(moves, errors, i);
      WalkGoesOn(moves, i);
      if IsMarker(move) {
        MarkerResets(moves, i);
        moveNumber := MarkerValue(move);
        newMoves := newMoves + [move];
        isBlackMove := false;
        i := i + 1;
        continue;
      }
      if IsResult(move) {
        newMoves := newMoves + [move];
        return;
      }
      MoveFlips(moves, i);
      var errorInfo := Lookup(errors, moveNumber, if isBlackMove then Black else White);
      if errorInfo.Some? {
        move := Annotate(move, errorInfo.value);
      }
      newMoves := newMoves + [move];
      isBlackMove := !isBlackMove;
      i := i + 1;
    }
  }

  // ---------------------------------------------------------------------------
  // What the walk does

  /**
    A token is rewritten exactly when it is a half-move (neither a marker
    nor a result) and the table has an entry for its number and side; it is
    then followed by the category in braces, and otherwise kept as it is.
   */
  lemma {:induction false} RewriteIff(toks: seq<string>, errors: GameErrors, k: nat)
    requires k < WalkLength(toks)
    ensures var out := AnnotatedTokens(toks, errors);
      var entry := Lookup(errors, MoveNumberAt(toks, k), SideAt(toks, k));
      && (out[k] != toks[k] <==> !IsMarker(toks[k]) && !IsResult(toks[k]) && entry.Some?)
      && (out[k] != toks[k] ==> out[k] == toks[k] + " {" + SeverityWord(entry.value.errorType) + "}")
  {
    var out := AnnotatedTokens(toks, errors);
    assert out[k] == AnnotatedToken(toks, k, errors);
    if !IsMarker(toks[k]) && !IsResult(toks[k]) && Lookup(errors, MoveNumberAt(toks, k), SideAt(toks, k)).Some? {
      assert |out[k]| > |toks[k]|;
    }
  }

  /**
    The walk stops at the first result: it emits the tokens before it and
    the result itself, and nothing after.
   */
  lemma {:induction false} ResultTerminates(toks: seq<string>, errors: GameErrors, i: nat)
    requires i < |toks| && IsResult(toks[i])
    requires forall j :: 0 <= j < i ==> !IsResult(toks[j])
    ensures |AnnotatedTokens(toks, errors)| == i + 1
    ensures AnnotatedTokens(toks, errors)[i] == toks[i]
  {
    assert FirstResult(toks) == Some(i);
    assert AnnotatedTokens(toks, errors)[i] == AnnotatedToken(toks, i, errors);
  }

  /** Without a result token the walk emits one token per input token. */
  lemma {:induction false} NoResultWalksAll(toks: seq<string>, errors: GameErrors)
    requires forall j :: 0 <= j < |toks| ==> !IsResult(toks[j])
    ensures |AnnotatedTokens(toks, errors)| == |toks|
  {
  }

  /** What follows the first result has no effect on the output. */
  lemma {:induction false} TailIgnored(toks: seq<string>, errors: GameErrors, i: nat)
    requires FirstResult(toks) == Some(i)
    ensures AnnotatedTokens(toks[..i + 1], errors) == AnnotatedTokens(toks, errors)
  {
    var pre := toks[..i + 1];
    FirstResultPrefix(toks, i);
    forall k | 0 <= k <= i
      ensures AnnotatedToken(pre, k, errors) == AnnotatedToken(toks, k, errors)
    {
      AnnotatedTokenPrefix(toks, i + 1, k, errors);
    }
  }

  lemma {:induction false} FirstResultPrefix(toks: seq<string>, i: nat)
    requires FirstResult(toks) == Some(i)
    ensures FirstResult(toks[..i + 1]) == Some(i)
    decreases i
  {
    if i > 0 {
      assert toks[..i + 1][1..] == toks[1..][..i];
      FirstResultPrefix(toks[1..], i - 1);
    }
  }

  lemma {:induction false} AnnotatedTokenPrefix(toks: seq<string>, m: nat, k: nat, errors: GameErrors)
    requires k < m <= |toks|
    ensures AnnotatedToken(toks[..m], k, errors) == AnnotatedToken(toks, k, errors)
  {
    var pre := toks[..m];
    LastMarkerPrefix(toks, m, k);
    assert pre[k] == toks[k];
    if LastMarkerBefore(toks, k).Some? {
      assert pre[LastMarkerBefore(toks, k).value] == toks[LastMarkerBefore(toks, k).value];
    }
    assert MoveNumberAt(pre, k) == MoveNumberAt(toks, k);
    assert SideAt(pre, k) == SideAt(toks, k);
  }

  /** With no entry for any number, every token the walk emits is the token it read. */
  predicate NoEntries(errors: GameErrors) {
    errors.Failure? || errors.table == map[]
  }

  lemma {:induction false} NoEntriesNoRewrite(toks: seq<string>, errors: GameErrors)
    requires NoEntries(errors)
    ensures AnnotatedTokens(toks, errors) == toks[..WalkLength(toks)]
  {
    var out := AnnotatedTokens(toks, errors);
    forall k | 0 <= k < |out| ensures out[k] == toks[k] {
      assert out[k] == AnnotatedToken(toks, k, errors);
      assert Lookup(errors, MoveNumberAt(toks, k), SideAt(toks, k)).None?;
    }
  }

  // ---------------------------------------------------------------------------
  // The moves line

  /** `" ".join(new_moves)` for the moves line split on single spaces. */
  function AnnotatedLine(line: string, errors: GameErrors): string {
    Join(" ", AnnotatedTokens(Split(line, " "), errors))
  }

  /**
    A line without a result token and a table without entries (or a failed
    fetch) leave the moves line exactly as it was.
   */
  lemma {:induction false} NoEntriesLineUnchanged(line: string, errors: GameErrors)
    requires NoEntries(errors)
    requires forall j :: 0 <= j < |Split(line, " ")| ==> !IsResult(Split(line, " ")[j])
    ensures AnnotatedLine(line, errors) == line
  {
    var toks := Split(line, " ");
    NoEntriesNoRewrite(toks, errors);
    NoResultWalksAll(toks, errors);
    assert toks[..|toks|] == toks;
    JoinSplit(line, " ");
  }

  /** Annotating a line that holds no line break gives a line that holds none. */
  lemma {:induction false} AnnotatedLineLacksBreak(line: string, errors: GameErrors)
    requires Lacks(line, '\n')
    ensures Lacks(AnnotatedLine(line, errors), '\n')
  {
    var toks := Split(line, " ");
    SplitPartsLack(line, " ", '\n');
    var out := AnnotatedTokens(toks, errors);
    forall k | 0 <= k < |out| ensures Lacks(out[k], '\n') {
      assert out[k] == AnnotatedToken(toks, k, errors);
      TokenOutLacksBreak(toks[k], MoveNumberAt(toks, k), SideAt(toks, k), errors);
    }
    JoinLacks(" ", out, '\n');
  }

  lemma {:induction false} TokenOutLacksBreak(tok: string, n: nat, side: Side, errors: GameErrors)
    requires Lacks(tok, '\n')
    ensures Lacks(TokenOut(tok, n, side, errors), '\n')
  {
    if !IsMarker(tok) && !IsResult(tok) && Lookup(errors, n, side).Some? {
      var suffix := " {" + SeverityWord(Lookup(errors, n, side).value.errorType) + "}";
      assert Lacks(suffix, '\n');
      var r := tok + suffix;
      assert forall i :: |tok| <= i < |r| ==> r[i] == suffix[i - |tok|];
    }
  }
}
