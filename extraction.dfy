/**
  Error extraction: the part of `get_lichess_game_errors` that runs after the
  page has been fetched. Two fixed patterns are scanned over the text of the
  page's PGN block,

    White:  (\d+)\.\s+([^\s]+)(\?|\?\?|\?\!)\s+\{\s+\([^)]+\)\s+(Mistake|Blunder|Inaccuracy)\.
    Black:  (\d+)\.\.\.\s+([^\s]+)(\?|\?\?|\?\!)\s+\{\s+\([^)]+\)\s+(Mistake|Blunder|Inaccuracy)\.

  and every match is written into a table keyed by the captured number and
  then by the side.
 */
module Extraction {
  import opened Wrappers
  import opened Text

  datatype Side = White | Black

  datatype Severity = Mistake | Blunder | Inaccuracy

  function SeverityWord(s: Severity): (w: string) {
    match s
    case Mistake => "Mistake"
    case Blunder => "Blunder"
    case Inaccuracy => "Inaccuracy"
  }

  /** The annotation glyphs of the group `(\?|\?\?|\?\!)`. */
  predicate IsGlyph(s: string) {
    s == "?" || s == "??" || s == "?!"
  }

  /** `\.` after a White move number, `\.\.\.` after a Black one. */
  function MarkerDots(side: Side): string {
    if side == White then "." else "..."
  }

  // ---------------------------------------------------------------------------
  // The pattern as a language

  /**
    Where the pieces of the first half of a match lie: the number is
    `t[start..numEnd]`, the move `t[moveStart..moveEnd]` and the glyph
    `t[moveEnd..symEnd]`.
   */
  datatype Head = Head(numEnd: nat, moveStart: nat, moveEnd: nat, symEnd: nat)

  /**
    Where the pieces of the bracketed comment lie: `{` at braceAt, `(` at
    parenAt, `)` at closeAt, the category word from sevStart, and `end` one
    past the final `\.`.
   */
  datatype Tail = Tail(braceAt: nat, parenAt: nat, closeAt: nat, sevStart: nat, severity: Severity, end: nat)

  /** One match of a pattern that starts at `start`. */
  datatype Shape = Shape(start: nat, head: Head, tail: Tail) {
    function End(): nat {
      tail.end
    }

    /** The pieces lie in order inside a text of length `n`. */
    predicate InOrder(n: nat) {
      start < head.numEnd < head.moveStart < head.moveEnd < head.symEnd < End() <= n
    }
  }

  /** `(\d+)\.\s+([^\s]+)(\?|\?\?|\?\!)` (White) or `(\d+)\.\.\.\s+([^\s]+)(\?|\?\?|\?\!)` (Black) matches `t[start..h.symEnd]` as `h` says. */
  predicate HeadDerives(t: string, side: Side, start: nat, h: Head) {
    var dots := MarkerDots(side);
    var a := h.numEnd + |dots|;
    && start < h.numEnd && a < h.moveStart < h.moveEnd < h.symEnd <= |t|
    && AllIn(t, start, h.numEnd, Digits)            // (\d+)
    && t[h.numEnd..a] == dots                         // \.  or  \.\.\.
    && AllIn(t, a, h.moveStart, Spaces)             // \s+
    && AllIn(t, h.moveStart, h.moveEnd, NonSpaces)  // ([^\s]+)
    && IsGlyph(t[h.moveEnd..h.symEnd])               // (\?|\?\?|\?\!)
  }

  /** `\s+\{\s+\([^)]+\)\s+(Mistake|Blunder|Inaccuracy)\.` matches `t[from..tl.End()]` as `tl` says. */
  predicate TailDerives(t: string, from: nat, tl: Tail) {
    var word := SeverityWord(tl.severity);
    && from < tl.braceAt && tl.braceAt + 1 < tl.parenAt && tl.parenAt + 1 < tl.closeAt && tl.closeAt + 1 < tl.sevStart
    && tl.end == tl.sevStart + |word| + 1 <= |t|
    && AllIn(t, from, tl.braceAt, Spaces)                  // \s+
    && t[tl.braceAt] == '{'                                  // \{
    && AllIn(t, tl.braceAt + 1, tl.parenAt, Spaces)        // \s+
    && t[tl.parenAt] == '('                                  // \(
    && AllIn(t, tl.parenAt + 1, tl.closeAt, NotCloseParen)  // [^)]+
    && t[tl.closeAt] == ')'                                  // \)
    && AllIn(t, tl.closeAt + 1, tl.sevStart, Spaces)       // \s+
    && t[tl.sevStart..tl.sevStart + |word|] == word          // (Mistake|Blunder|Inaccuracy)
    && t[tl.sevStart + |word|] == '.'                        // \.
  }

  /** `d` is one way the whole pattern of `side` matches `t[d.start..d.End()]`. */
  predicate Derives(t: string, side: Side, d: Shape) {
    HeadDerives(t, side, d.start, d.head) && TailDerives(t, d.head.symEnd, d.tail)
  }

  // ---------------------------------------------------------------------------
  // The matcher

  /**
    How the move and the glyph share the run of non-space characters
    `t[moveStart..wEnd]`: the glyph must end the run (a space must follow
    it), and the longest move comes first, as the greedy `([^\s]+)` tries it.
   */
  function MoveEnd(t: string, moveStart: nat, wEnd: nat): (r: Option<nat>)
    requires moveStart <= wEnd <= |t|
    ensures r.Some? ==> moveStart < r.value < wEnd && IsGlyph(t[r.value..wEnd])
  {
    if wEnd - moveStart >= 2 && t[wEnd - 1] == '?' then Some(wEnd - 1)
    else if wEnd - moveStart >= 3 && t[wEnd - 2] == '?' && t[wEnd - 1] == '!' then Some(wEnd - 2)
    else None
  }

  /**
    The first half of the match Python's `re` finds at `p`. Each `\d+` and
    `\s+` can only succeed with its longest run, because the character after
    a shorter run is still in the class while the pattern needs one outside
    it; the one choice left to backtracking is where the move ends.
   */
  function HeadAt(t: string, p: nat, side: Side): (r: Option<Head>)
    requires p <= |t|
    ensures r.Some? ==> p < r.value.numEnd < r.value.moveStart < r.value.moveEnd < r.value.symEnd <= |t|
  {
    var dots := MarkerDots(side);
    var numEnd := RunEnd(t, p, Digits);
    var a := numEnd + |dots|;
    if numEnd == p || a > |t| || t[numEnd..a] != dots then None
    else
      var moveStart := RunEnd(t, a, Spaces);
      var wEnd := RunEnd(t, moveStart, NonSpaces);
      if moveStart == a then None
      else match MoveEnd(t, moveStart, wEnd)
        case None => None
        case Some(moveEnd) => Some(Head(numEnd, moveStart, moveEnd, wEnd))
  }

  /** `word` followed by a `.` at `i`. */
  predicate WordAt(t: string, i: nat, word: string) {
    i + |word| < |t| && t[i..i + |word|] == word && t[i + |word|] == '.'
  }

  /** `(Mistake|Blunder|Inaccuracy)\.`, alternatives tried left to right. */
  function SeverityAt(t: string, i: nat): (r: Option<Severity>)
    ensures r.Some? ==> WordAt(t, i, SeverityWord(r.value))
  {
    if WordAt(t, i, "Mistake") then Some(Mistake)
    else if WordAt(t, i, "Blunder") then Some(Blunder)
    else if WordAt(t, i, "Inaccuracy") then Some(Inaccuracy)
    else None
  }

  /** `\s+(Mistake|Blunder|Inaccuracy)\.` after the `)` at `closeAt`: where the word starts, and which it is. */
  function CategoryAt(t: string, closeAt: nat): (r: Option<(nat, Severity)>)
    requires closeAt < |t|
    ensures r.Some? ==> closeAt + 1 < r.value.0 && WordAt(t, r.value.0, SeverityWord(r.value.1))
  {
    var sevStart := RunEnd(t, closeAt + 1, Spaces);
    if sevStart == closeAt + 1 then None
    else match SeverityAt(t, sevStart)
      case None => None
      case Some(severity) => Some((sevStart, severity))
  }

  /** `\s+\{\s+\([^)]+\)` from `from`: where the brace, the parenthesis and the closing parenthesis are. */
  function BracketAt(t: string, from: nat): (r: Option<(nat, nat, nat)>)
    requires from <= |t|
    ensures r.Some? ==> from < r.value.0 < r.value.1 < r.value.2 < |t|
  {
    var braceAt := RunEnd(t, from, Spaces);
    if braceAt == from || braceAt == |t| || t[braceAt] != '{' then None
    else
      var parenAt := RunEnd(t, braceAt + 1, Spaces);
      if parenAt == braceAt + 1 || parenAt == |t| || t[parenAt] != '(' then None
      else
        var closeAt := RunEnd(t, parenAt + 1, NotCloseParen);
        if closeAt == parenAt + 1 || closeAt == |t| then None
        else Some((braceAt, parenAt, closeAt))
  }

  /** The bracketed comment after the glyph; `[^)]+` also only succeeds with its longest run. */
  function TailAt(t: string, from: nat): (r: Option<Tail>)
    requires from <= |t|
    ensures r.Some? ==> from < r.value.braceAt < r.value.end <= |t|
  {
    match BracketAt(t, from)
    case None => None
    case Some((braceAt, parenAt, closeAt)) =>
      match CategoryAt(t, closeAt)
      case None => None
      case Some((sevStart, severity)) =>
        Some(Tail(braceAt, parenAt, closeAt, sevStart, severity, sevStart + |SeverityWord(severity)| + 1))
  }

  /** The match Python's `re` finds when it tries the pattern of `side` at `p`. */
  function ShapeAt(t: string, p: nat, side: Side): (r: Option<Shape>)
    requires p <= |t|
    ensures r.Some? ==> r.value.start == p && r.value.InOrder(|t|)
  {
    match HeadAt(t, p, side)
    case None => None
    case Some(h) =>
      match TailAt(t, h.symEnd)
      case None => None
      case Some(tl) => Some(Shape(p, h, tl))
  }

  lemma {:induction false} HeadAtSound(t: string, p: nat, side: Side)
    requires p <= |t| && HeadAt(t, p, side).Some?
    ensures HeadDerives(t, side, p, HeadAt(t, p, side).value)
  {
  }

  lemma {:induction false} BracketAtSound(t: string, from: nat)
    requires from <= |t| && BracketAt(t, from).Some?
    ensures var (braceAt, parenAt, closeAt) := BracketAt(t, from).value;
      && from < braceAt && braceAt + 1 < parenAt && parenAt + 1 < closeAt < |t|
      && AllIn(t, from, braceAt, Spaces) && t[braceAt] == '{'
      && AllIn(t, braceAt + 1, parenAt, Spaces) && t[parenAt] == '('
      && AllIn(t, parenAt + 1, closeAt, NotCloseParen) && t[closeAt] == ')'
  {
  }

  lemma {:induction false} CategoryAtSound(t: string, closeAt: nat)
    requires closeAt < |t| && CategoryAt(t, closeAt).Some?
    ensures var (sevStart, s) := CategoryAt(t, closeAt).value;
      && closeAt + 1 < sevStart && AllIn(t, closeAt + 1, sevStart, Spaces) && WordAt(t, sevStart, SeverityWord(s))
  {
  }

  lemma {:induction false} TailAtSound(t: string, from: nat)
    requires from <= |t| && TailAt(t, from).Some?
    ensures TailDerives(t, from, TailAt(t, from).value)
  {
    BracketAtSound(t, from);
    CategoryAtSound(t, BracketAt(t, from).value.2);
  }

  /** Every match ShapeAt reports is a way the pattern matches. */
  lemma {:induction false} ShapeAtSound(t: string, p: nat, side: Side)
    requires p <= |t| && ShapeAt(t, p, side).Some?
    ensures Derives(t, side, ShapeAt(t, p, side).value)
  {
    HeadAtSound(t, p, side);
    TailAtSound(t, HeadAt(t, p, side).value.symEnd);
  }

  lemma {:induction false} SeverityAtComplete(t: string, i: nat, s: Severity)
    requires WordAt(t, i, SeverityWord(s))
    ensures SeverityAt(t, i) == Some(s)
  {
    assert t[i] == SeverityWord(s)[0];
  }

  lemma {:induction false} CategoryAtComplete(t: string, closeAt: nat, sevStart: nat, s: Severity)
    requires WordAt(t, sevStart, SeverityWord(s)) && closeAt + 1 < sevStart && AllIn(t, closeAt + 1, sevStart, Spaces)
    ensures CategoryAt(t, closeAt) == Some((sevStart, s))
  {
    assert t[sevStart] == SeverityWord(s)[0];
    RunEndUnique(t, closeAt + 1, sevStart, Spaces);
    SeverityAtComplete(t, sevStart, s);
  }

  lemma {:induction false} BracketAtComplete(t: string, from: nat, braceAt: nat, parenAt: nat, closeAt: nat)
    requires from < braceAt && braceAt + 1 < parenAt && parenAt + 1 < closeAt < |t|
    requires AllIn(t, from, braceAt, Spaces) && t[braceAt] == '{'
    requires AllIn(t, braceAt + 1, parenAt, Spaces) && t[parenAt] == '('
    requires AllIn(t, parenAt + 1, closeAt, NotCloseParen) && t[closeAt] == ')'
    ensures BracketAt(t, from) == Some((braceAt, parenAt, closeAt))
  {
    assert !InClass(Spaces, t[braceAt]) && !InClass(Spaces, t[parenAt]) && !InClass(NotCloseParen, t[closeAt]);
    RunEndUnique(t, from, braceAt, Spaces);
    RunEndUnique(t, braceAt + 1, parenAt, Spaces);
    RunEndUnique(t, parenAt + 1, closeAt, NotCloseParen);
  }

  lemma {:induction false} TailAtComplete(t: string, from: nat, tl: Tail)
    requires TailDerives(t, from, tl)
    ensures TailAt(t, from) == Some(tl)
  {
    BracketAtComplete(t, from, tl.braceAt, tl.parenAt, tl.closeAt);
    CategoryAtComplete(t, tl.closeAt, tl.sevStart, tl.severity);
  }

  lemma {:induction false} HeadAtLongestMove(t: string, side: Side, p: nat, h: Head)
    requires HeadDerives(t, side, p, h)
    requires h.symEnd < |t| && IsSpace(t[h.symEnd])
    ensures HeadAt(t, p, side).Some?
    ensures HeadAt(t, p, side).value.moveEnd >= h.moveEnd
    ensures HeadAt(t, p, side).value == h.(moveEnd := HeadAt(t, p, side).value.moveEnd)
  {
    var dots := MarkerDots(side);
    var a := h.numEnd + |dots|;
    assert t[h.numEnd] == dots[0];
    RunEndUnique(t, p, h.numEnd, Digits);
    assert InClass(NonSpaces, t[h.moveStart]);
    RunEndUnique(t, a, h.moveStart, Spaces);
    assert AllIn(t, h.moveStart, h.symEnd, NonSpaces) by {
      GlyphNonSpaces(t, h.moveEnd, h.symEnd);
    }
    RunEndUnique(t, h.moveStart, h.symEnd, NonSpaces);
    MoveEndLongest(t, h.moveStart, h.moveEnd, h.symEnd);
    HeadAtOfRuns(t, p, side, h.numEnd, h.moveStart, h.symEnd);
  }

  /** HeadAt in terms of the runs it reads. */
  lemma HeadAtOfRuns(t: string, p: nat, side: Side, numEnd: nat, moveStart: nat, wEnd: nat)
    requires p < numEnd && numEnd + |MarkerDots(side)| < moveStart <= wEnd <= |t|
    requires RunEnd(t, p, Digits) == numEnd && t[numEnd..numEnd + |MarkerDots(side)|] == MarkerDots(side)
    requires RunEnd(t, numEnd + |MarkerDots(side)|, Spaces) == moveStart
    requires RunEnd(t, moveStart, NonSpaces) == wEnd && MoveEnd(t, moveStart, wEnd).Some?
    ensures HeadAt(t, p, side) == Some(Head(numEnd, moveStart, MoveEnd(t, moveStart, wEnd).value, wEnd))
  {
  }

  /** A glyph holds no whitespace. */
  lemma {:induction false} GlyphNonSpaces(t: string, i: nat, j: nat)
    requires i <= j <= |t| && IsGlyph(t[i..j])
    ensures AllIn(t, i, j, NonSpaces)
  {
    var glyph := t[i..j];
    assert forall k :: i <= k < j ==> t[k] == glyph[k - i];
  }

  /** A glyph ending the run is found by MoveEnd, with a move at least as long. */
  lemma {:induction false} MoveEndLongest(t: string, moveStart: nat, moveEnd: nat, wEnd: nat)
    requires moveStart < moveEnd < wEnd <= |t| && IsGlyph(t[moveEnd..wEnd])
    ensures MoveEnd(t, moveStart, wEnd).Some? && MoveEnd(t, moveStart, wEnd).value >= moveEnd
  {
    var glyph := t[moveEnd..wEnd];
    assert forall i :: moveEnd <= i < wEnd ==> t[i] == glyph[i - moveEnd];
  }

  /**
    Every way the pattern can match at a position agrees with ShapeAt's match
    everywhere except where the move ends, and ShapeAt's move is the longest
    of them. Python's backtracking tries the longest move first, so ShapeAt
    is the match it reports.
   */
  lemma {:induction false} ShapeAtFindsLongestMove(t: string, side: Side, d: Shape)
    requires Derives(t, side, d)
    ensures ShapeAt(t, d.start, side).Some?
    ensures ShapeAt(t, d.start, side).value.head.moveEnd >= d.head.moveEnd
    ensures ShapeAt(t, d.start, side).value == d.(head := d.head.(moveEnd := ShapeAt(t, d.start, side).value.head.moveEnd))
  {
    assert InClass(Spaces, t[d.head.symEnd]);
    HeadAtLongestMove(t, side, d.start, d.head);
    TailAtComplete(t, d.head.symEnd, d.tail);
  }

  // ---------------------------------------------------------------------------
  // re.findall

  /**
    What the scan needs of a matcher over a text of length `n`: a match
    reported at `p` starts at `p` and ends after it, inside the text.
   */
  ghost predicate Advances(n: nat, m: nat -> Option<Shape>) {
    forall p :: m(p).Some? ==> m(p).value.start == p && m(p).value.InOrder(n)
  }

  /**
    The scan of Python's `re.findall`: try the pattern at `pos`; after a
    match go on from its end, otherwise from the next position.
   */
  function Scan(n: nat, pos: nat, m: nat -> Option<Shape>): (ds: seq<Shape>)
    requires pos <= n && Advances(n, m)
    ensures forall k :: 0 <= k < |ds| ==> pos <= ds[k].start && ds[k].InOrder(n)
    ensures forall k, l :: 0 <= k < l < |ds| ==> ds[k].End() <= ds[l].start
    decreases n - pos
  {
    if pos == n then []
    else match m(pos)
      case Some(d) => [d] + Scan(n, d.End(), m)
      case None => Scan(n, pos + 1, m)
  }

  /** Each shape of `ds` is the match at its own start. */
  predicate AreMatches(m: nat -> Option<Shape>, ds: seq<Shape>) {
    forall k :: 0 <= k < |ds| ==> m(ds[k].start) == Some(ds[k])
  }

  /** Position `q` lies inside one of the shapes of `ds`. */
  predicate Covered(ds: seq<Shape>, q: nat) {
    exists k :: 0 <= k < |ds| && ds[k].start <= q < ds[k].End()
  }

  /** Each match the scan reports is the match at its own start. */
  lemma {:induction false} ScanAreMatches(n: nat, pos: nat, m: nat -> Option<Shape>)
    requires pos <= n && Advances(n, m)
    ensures AreMatches(m, Scan(n, pos, m))
    decreases n - pos
  {
    if pos < n {
      match m(pos)
      case None =>
        ScanAreMatches(n, pos + 1, m);
      case Some(d) =>
        var rest := Scan(n, d.End(), m);
        ScanAreMatches(n, d.End(), m);
        assert Scan(n, pos, m) == [d] + rest;
        forall k | 0 <= k < |[d] + rest| ensures m(([d] + rest)[k].start) == Some(([d] + rest)[k]) {
          if k > 0 {
            assert ([d] + rest)[k] == rest[k - 1];
          }
        }
    }
  }

  /** No match is missed: every position where the pattern matches lies inside one of the matches reported. */
  lemma {:induction false} ScanCovers(n: nat, pos: nat, m: nat -> Option<Shape>, q: nat)
    requires pos <= q < n && Advances(n, m) && m(q).Some?
    ensures Covered(Scan(n, pos, m), q)
    decreases n - pos
  {
    var r := m(pos);
    if r.None? {
      assert q != pos;
      ScanCovers(n, pos + 1, m, q);
      ScanSkip(n, pos, m);
    } else {
      var d := r.value;
      ScanTake(n, pos, m);
      if q < d.End() {
        CoverFirst(d, Scan(n, d.End(), m), q);
      } else {
        ScanCovers(n, d.End(), m, q);
        CoverShifts(d, Scan(n, d.End(), m), q);
      }
    }
  }

  lemma {:induction false} ScanSkip(n: nat, pos: nat, m: nat -> Option<Shape>)
    requires pos < n && Advances(n, m) && m(pos).None?
    ensures Scan(n, pos, m) == Scan(n, pos + 1, m)
  {
  }

  lemma {:induction false} ScanTake(n: nat, pos: nat, m: nat -> Option<Shape>)
    requires pos < n && Advances(n, m) && m(pos).Some?
    ensures m(pos).value.End() <= n
    ensures Scan(n, pos, m) == [m(pos).value] + Scan(n, m(pos).value.End(), m)
  {
  }

  lemma {:induction false} CoverFirst(d: Shape, rest: seq<Shape>, q: nat)
    requires d.start <= q < d.End()
    ensures Covered([d] + rest, q)
  {
    assert ([d] + rest)[0] == d;
  }

  lemma {:induction false} CoverShifts(d: Shape, rest: seq<Shape>, q: nat)
    requires Covered(rest, q)
    ensures Covered([d] + rest, q)
  {
    var k :| 0 <= k < |rest| && rest[k].start <= q < rest[k].End();
    assert ([d] + rest)[k + 1] == rest[k];
  }

  /** The pattern of `side` tried at every position of `t`. */
  function MatcherOf(t: string, side: Side): nat -> Option<Shape> {
    (p: nat) => if p <= |t| then ShapeAt(t, p, side) else None
  }

  lemma {:induction false} MatcherAdvances(t: string, side: Side)
    ensures Advances(|t|, MatcherOf(t, side))
  {
    forall p: nat ensures MatcherOf(t, side)(p).Some? ==> MatcherOf(t, side)(p).value.start == p && MatcherOf(t, side)(p).value.InOrder(|t|) {
      if p <= |t| {
        assert MatcherOf(t, side)(p) == ShapeAt(t, p, side);
      }
    }
  }

  /** The matches `re.findall` reports for the pattern of `side`, in order and without overlap. */
  function FindShapes(t: string, side: Side): (ds: seq<Shape>)
    ensures forall k :: 0 <= k < |ds| ==> ds[k].InOrder(|t|)
    ensures forall k, l :: 0 <= k < l < |ds| ==> ds[k].End() <= ds[l].start
  {
    MatcherAdvances(t, side);
    Scan(|t|, 0, MatcherOf(t, side))
  }

  /** Each match FindShapes reports is the match Python's `re` finds at its start. */
  lemma {:induction false} FindShapesAreMatches(t: string, side: Side)
    ensures forall k :: 0 <= k < |FindShapes(t, side)| ==> ShapeAt(t, FindShapes(t, side)[k].start, side) == Some(FindShapes(t, side)[k])
  {
    MatcherAdvances(t, side);
    var ds := FindShapes(t, side);
    ScanAreMatches(|t|, 0, MatcherOf(t, side));
    forall k | 0 <= k < |ds| ensures ShapeAt(t, ds[k].start, side) == Some(ds[k]) {
      assert MatcherOf(t, side)(ds[k].start) == Some(ds[k]);
    }
  }

  /** Every position where the pattern of `side` matches lies inside a match FindShapes reports. */
  lemma {:induction false} FindShapesCovers(t: string, side: Side, q: nat)
    requires q < |t| && ShapeAt(t, q, side).Some?
    ensures Covered(FindShapes(t, side), q)
  {
    MatcherAdvances(t, side);
    assert MatcherOf(t, side)(q) == ShapeAt(t, q, side);
    ScanCovers(|t|, 0, MatcherOf(t, side), q);
  }

  /** The tuple `re.findall` returns for one match: number, move, glyph and category. */
  datatype Groups = Groups(number: string, move: string, symbol: string, errorType: Severity)

  function GroupsOf(t: string, d: Shape): Groups
    requires d.InOrder(|t|)
  {
    Groups(t[d.start..d.head.numEnd], t[d.head.moveStart..d.head.moveEnd], t[d.head.moveEnd..d.head.symEnd], d.tail.severity)
  }

  /** What every tuple of the two patterns satisfies. */
  predicate WellFormedGroups(g: Groups) {
    && |g.number| >= 1 && AllDigits(g.number)
    && |g.move| >= 1 && (forall i :: 0 <= i < |g.move| ==> !IsSpace(g.move[i]))
    && IsGlyph(g.symbol)
  }

  /**
    `re.findall(pattern, text)` for the pattern of `side`: the captured
    number is a non-empty digit string, the move is non-empty and holds no
    whitespace, and the glyph is one of `?`, `??`, `?!`.
   */
  function FindAll(t: string, side: Side): (gs: seq<Groups>)
    ensures forall k :: 0 <= k < |gs| ==> WellFormedGroups(gs[k])
  {
    var ds := FindShapes(t, side);
    FoundGroupsWellFormed(t, side);
    seq(|ds|, k requires 0 <= k < |ds| => GroupsOf(t, ds[k]))
  }

  lemma {:induction false} GroupsWellFormed(t: string, side: Side, p: nat)
    requires p <= |t| && ShapeAt(t, p, side).Some?
    ensures WellFormedGroups(GroupsOf(t, ShapeAt(t, p, side).value))
  {
    var d := ShapeAt(t, p, side).value;
    ShapeAtSound(t, p, side);
    assert HeadDerives(t, side, p, d.head);
    var g := GroupsOf(t, d);
    assert IsGlyph(g.symbol);
  }

  lemma {:induction false} FoundGroupsWellFormed(t: string, side: Side)
    ensures forall k :: 0 <= k < |FindShapes(t, side)| ==> WellFormedGroups(GroupsOf(t, FindShapes(t, side)[k]))
  {
    var ds := FindShapes(t, side);
    FindShapesAreMatches(t, side);
    forall k | 0 <= k < |ds| ensures WellFormedGroups(GroupsOf(t, ds[k])) {
      GroupsWellFormed(t, side, ds[k].start);
    }
  }

  // ---------------------------------------------------------------------------
  // The table

  /** One entry: `{"color", "move", "error_type", "symbol"}`. */
  datatype ErrorRecord = ErrorRecord(color: Side, move: string, errorType: Severity, symbol: string)

  /** `errors_by_move`: captured number, then side, to the entry. */
  type ErrorTable = map<string, map<Side, ErrorRecord>>

  /** An entry of the table, as it would be stored for a match of the pattern of `side`. */
  predicate WellFormedRecord(r: ErrorRecord, side: Side) {
    && r.color == side
    && |r.move| >= 1 && (forall i :: 0 <= i < |r.move| ==> !IsSpace(r.move[i]))
    && IsGlyph(r.symbol)
  }

  function RecordOf(g: Groups, side: Side): ErrorRecord {
    ErrorRecord(side, g.move, g.errorType, g.symbol)
  }

  function LookupKey(table: ErrorTable, key: string, side: Side): Option<ErrorRecord> {
    if key in table && side in table[key] then Some(table[key][side]) else None
  }

  /** One turn of either loop: create `errors_by_move[number]` if missing, then set its side. */
  function Insert(table: ErrorTable, g: Groups, side: Side): ErrorTable {
    var inner := if g.number in table then table[g.number] else map[];
    table[g.number := inner[side := RecordOf(g, side)]]
  }

  /** Both loops as one fold: the matches inserted in order. */
  function InsertAll(table: ErrorTable, gs: seq<Groups>, side: Side): ErrorTable {
    if gs == [] then table else Insert(InsertAll(table, gs[..|gs| - 1], side), gs[|gs| - 1], side)
  }

  /** The index of the last tuple whose number is `key`. */
  function LastWithNumber(gs: seq<Groups>, key: string): (r: Option<nat>)
    ensures r.Some? ==> r.value < |gs| && gs[r.value].number == key
    ensures r.Some? ==> forall j :: r.value < j < |gs| ==> gs[j].number != key
    ensures r.None? ==> forall j :: 0 <= j < |gs| ==> gs[j].number != key
  {
    if gs == [] then None
    else if gs[|gs| - 1].number == key then Some(|gs| - 1)
    else LastWithNumber(gs[..|gs| - 1], key)
  }

  /**
    After the matches of one side are inserted, that side's entry under a
    number is the record of the LAST match with that number; the other side's
    entries and the numbers no match names are as before.
   */
  lemma {:induction false} LookupInsertAll(table: ErrorTable, gs: seq<Groups>, side: Side, key: string, s: Side)
    ensures LookupKey(InsertAll(table, gs, side), key, s) ==
      if s == side && LastWithNumber(gs, key).Some? then Some(RecordOf(gs[LastWithNumber(gs, key).value], side))
      else LookupKey(table, key, s)
    decreases |gs|
  {
    if gs != [] {
      var init := gs[..|gs| - 1];
      LookupInsertAll(table, init, side, key, s);
      if gs[|gs| - 1].number != key {
        assert LastWithNumber(gs, key) == LastWithNumber(init, key);
        if LastWithNumber(init, key).Some? {
          assert gs[LastWithNumber(init, key).value] == init[LastWithNumber(init, key).value];
        }
      }
    }
  }

  /** Inserting adds exactly the numbers the matches name, each with at least one side. */
  lemma {:induction false} KeysInsertAll(table: ErrorTable, gs: seq<Groups>, side: Side, key: string)
    requires key in table ==> table[key] != map[]
    ensures key in InsertAll(table, gs, side) <==> key in table || LastWithNumber(gs, key).Some?
    ensures key in InsertAll(table, gs, side) ==> InsertAll(table, gs, side)[key] != map[]
    decreases |gs|
  {
    if gs != [] {
      var init := gs[..|gs| - 1];
      KeysInsertAll(table, init, side, key);
      if gs[|gs| - 1].number != key {
        assert LastWithNumber(gs, key) == LastWithNumber(init, key);
      } else {
        var t := InsertAll(table, gs, side);
        assert side in t[key];
      }
    }
  }

  /** `errors_by_move` once both loops have run over the text of the PGN block. */
  function ErrorTableOf(text: string): ErrorTable {
    InsertAll(InsertAll(map[], FindAll(text, White), White), FindAll(text, Black), Black)
  }

  /**
    Last match wins, per side: the White entry under a number is the record
    of the last White match with that number and the Black entry that of the
    last Black match, so White and Black entries under one number coexist.
   */
  lemma {:induction false} ErrorTableLookup(text: string, key: string, side: Side)
    ensures var gs := FindAll(text, side);
      LookupKey(ErrorTableOf(text), key, side) ==
        if LastWithNumber(gs, key).Some? then Some(RecordOf(gs[LastWithNumber(gs, key).value], side)) else None
  {
    var whites := InsertAll(map[], FindAll(text, White), White);
    LookupInsertAll(whites, FindAll(text, Black), Black, key, side);
    LookupInsertAll(map[], FindAll(text, White), White, key, side);
  }

  /**
    The table holds a number exactly when some match of either pattern
    captured it, and then holds an entry for at least one side.
   */
  lemma {:induction false} ErrorTableKeys(text: string, key: string)
    ensures key in ErrorTableOf(text) <==>
      LastWithNumber(FindAll(text, White), key).Some? || LastWithNumber(FindAll(text, Black), key).Some?
    ensures key in ErrorTableOf(text) ==> ErrorTableOf(text)[key] != map[]
  {
    var whites := InsertAll(map[], FindAll(text, White), White);
    KeysInsertAll(map[], FindAll(text, White), White, key);
    KeysInsertAll(whites, FindAll(text, Black), Black, key);
  }

  /**
    Every entry of the table is well formed: it sits under a non-empty digit
    string, its color is the side it is filed under, its move is non-empty
    without whitespace and its symbol is one of `?`, `??`, `?!`.
   */
  lemma {:induction false} ErrorTableWellFormed(text: string, key: string, side: Side)
    requires LookupKey(ErrorTableOf(text), key, side).Some?
    ensures |key| >= 1 && AllDigits(key)
    ensures WellFormedRecord(LookupKey(ErrorTableOf(text), key, side).value, side)
  {
    ErrorTableLookup(text, key, side);
    var gs := FindAll(text, side);
    var g := gs[LastWithNumber(gs, key).value];
    assert WellFormedGroups(g);
  }

  // ---------------------------------------------------------------------------
  // get_lichess_game_errors, after the fetch

  /**
    What the fetch and the HTML parse hand over: the HTTP status, and the text
    of the page's `div.pgn` if the page has one.
   */
  datatype PageOutcome = Response(status: nat, pgnDiv: Option<string>)

  /** The function's result: the `{"error": message}` dictionary, or the table. */
  datatype GameErrors = Failure(message: string) | Table(table: ErrorTable)

  function GameErrorsOf(page: PageOutcome): GameErrors {
    if page.status != 200 then Failure("Failed to fetch the URL. Status code: " + NatToString(page.status))
    else if page.pgnDiv.None? then Failure("Could not find PGN content in the page")
    else Table(ErrorTableOf(page.pgnDiv.value))
  }

  /**
    One of the two loops over the tuples of `re.findall`: for each, create
    `errors_by_move[number]` if it is missing, then set its entry for `side`.
   */
  method InsertMatches(table: ErrorTable, matches: seq<Groups>, side: Side) returns (errorsByMove: ErrorTable)
    ensures errorsByMove == InsertAll(table, matches, side)
  {
    errorsByMove := table;
    for i := 0 to |matches|
      invariant errorsByMove == InsertAll(table, matches[..i], side)
    {
      var g := matches[i];
      if g.number !in errorsByMove {
        errorsByMove := errorsByMove[g.number := map[]];
      }
      errorsByMove := errorsByMove[g.number := errorsByMove[g.number][side := RecordOf(g, side)]];
      assert matches[..i + 1][..i] == matches[..i];
    }
    assert matches[..|matches|] == matches;
  }

  /**
    `get_lichess_game_errors` from the response on: a failure for a status
    other than 200 or a page without a PGN block, otherwise the table the two
    loops build from the matches of the White pattern and then of the Black one.
   */
  method GetGameErrors(page: PageOutcome) returns (errors: GameErrors)
    ensures errors == GameErrorsOf(page)
  {
    if page.status != 200 {
      return Failure("Failed to fetch the URL. Status code: " + NatToString(page.status));
    }
    if page.pgnDiv.None? {
      return Failure("Could not find PGN content in the page");
    }
    var pgnText := page.pgnDiv.value;
    var errorsByMove: ErrorTable := map[];
    var whiteMatches := FindAll(pgnText, White);
    errorsByMove := InsertMatches(errorsByMove, whiteMatches, White);
    var blackMatches := FindAll(pgnText, Black);
    errorsByMove := InsertMatches(errorsByMove, blackMatches, Black);
    errors := Table(errorsByMove);
  }
}
