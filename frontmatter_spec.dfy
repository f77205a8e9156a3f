/**
 * The front-matter lexer of libgenerator (src/libgenerator/frontmatter.rs)
 * as functions on an immutable lexer state.  Each function takes the state
 * before a call and returns the outcome together with the state after it;
 * the class in module FrontmatterLexer runs the same steps in place and is
 * proved to agree with these functions.
 *
 * The source can fail in two ways that never produce a value: `unwrap` on an
 * exhausted character iterator panics (`InputExhausted`), and a peek that
 * meets a double quote, or a text character while collecting a string or a
 * key, re-reads the same character forever (`NoReturn`).  Both are outcomes
 * here, and they propagate through every caller.
 */
module FrontmatterSpec {
  import opened Wrappers

  /** `State`: what the lexer is in the middle of. */
  datatype State = SDoubleQuote | SSingleQuote | SKey | SValue | SIdle | STag

  /** `Token`: what the lexer yields. */
  datatype Token =
    | TIdentifier(ident: string)
    | TColon
    | TDoubleQuote
    | TSingleQuote
    | TStr(str: string)
    | TDash
    | TInteger(n: int)
    | TBlank
    | TLineBreak
    | TBegin
    | TEnd
    | TTag

  /** `Types`: the values a front-matter key may hold. */
  datatype Types = Integer(i: int) | Str(s: string)

  /** The two ways a lexer call fails to return a value. */
  datatype Fault = InputExhausted | NoReturn

  datatype Outcome<+T> = Value(value: T) | Abort(fault: Fault)

  /** The lexer's state: the input, how much of it the character iterator has consumed, the state and the current token. */
  datatype Lexer = Lexer(input: string, pos: nat, state: State, current: Token) {
    predicate Valid() { pos <= |input| }
  }

  /** An outcome and the lexer state it leaves behind. */
  datatype Lexed<+T> = Lexed(out: Outcome<T>, lx: Lexer)

  /** The two messages `parse_dashes` reports, each with the token it found instead. */
  datatype ParseError = ExpectedDash(found: Token) | ExpectedLineBreak(found: Token)

  /** `Frontmatter::new`: nothing consumed, idle, and a blank current token. */
  function New(input: string): (lx: Lexer)
    ensures lx.Valid() && lx.input == input && lx.pos == 0
    ensures lx.state == SIdle && lx.current == TBlank
  {
    Lexer(input, 0, SIdle, TBlank)
  }

  /** The states any lexing step can reach from `new`: `SKey`, `SValue` and `SSingleQuote` are never entered. */
  predicate Reachable(s: State) {
    s == SIdle || s == STag || s == SDoubleQuote
  }

  /** No double quote is left to read. */
  predicate NoQuoteAhead(lx: Lexer) {
    forall k :: lx.pos <= k < |lx.input| ==> lx.input[k] != '"'
  }

  /** A double quote among the characters from `from` up to, not including, `to`. */
  predicate QuoteBetween(s: string, from: int, to: int) {
    exists k :: from <= k < to && 0 <= k < |s| && s[k] == '"'
  }

  /**
   * What every lexing step keeps: the same input, a position that only moves
   * forward, reachable states stay reachable, and the state changes to
   * anything but `STag` only if the step consumed a double quote.
   */
  predicate Keeps(lx: Lexer, after: Lexer) {
    && after.input == lx.input
    && lx.pos <= after.pos <= |after.input|
    && (Reachable(lx.state) ==> Reachable(after.state))
    && (after.state == lx.state || after.state == STag || QuoteBetween(lx.input, lx.pos, after.pos))
  }

  /** A token the lexer can yield: never `TBegin` or `TEnd`, and never `TIdentifier` from a reachable state. */
  predicate Yieldable(t: Token, fromReachable: bool) {
    !t.TBegin? && !t.TEnd? && (fromReachable ==> !t.TIdentifier?)
  }

  /** `next_char`: the next character, consumed unless peeking; at end of input the `unwrap` panics. */
  function NextChar(lx: Lexer, peek: bool): (r: Lexed<char>)
    requires lx.Valid()
    ensures r.out.Value? <==> lx.pos < |lx.input|
    ensures r.out.Value? ==> r.out.value == lx.input[lx.pos]
    ensures r.lx == if peek || r.out.Abort? then lx else lx.(pos := lx.pos + 1)
  {
    if lx.pos == |lx.input| then Lexed(Abort(InputExhausted), lx)
    else Lexed(Value(lx.input[lx.pos]), if peek then lx else lx.(pos := lx.pos + 1))
  }

  /**
   * The string-collecting loop of `next_token` when not peeking: characters
   * are appended to `buf` until `stop`, which is consumed and not kept.
   */
  function Collect(lx: Lexer, stop: char, buf: string): (r: Lexed<string>)
    requires lx.Valid()
    ensures r.lx.input == lx.input && r.lx.state == lx.state && r.lx.current == lx.current
    ensures lx.pos <= r.lx.pos <= |lx.input|
    ensures r.out.Value? ==> lx.pos < r.lx.pos
    decreases |lx.input| - lx.pos
  {
    var c := NextChar(lx, false);
    match c.out
    case Abort(f) => Lexed(Abort(f), c.lx)
    case Value(ch) => if ch == stop then Lexed(Value(buf), c.lx) else Collect(c.lx, stop, buf + [ch])
  }

  /** The first index at or after `from` holding `stop`. */
  predicate FirstStop(s: string, from: int, stop: char, at: int) {
    0 <= from <= at < |s| && s[at] == stop && forall k :: from <= k < at ==> s[k] != stop
  }

  /** `Collect` returns the text up to the next `stop`, and panics exactly when no `stop` is left. */
  lemma {:induction false} CollectReadsToStop(lx: Lexer, stop: char, buf: string)
    requires lx.Valid()
    ensures Collect(lx, stop, buf).out.Value? <==> exists at :: lx.pos <= at < |lx.input| && lx.input[at] == stop
    ensures forall at :: FirstStop(lx.input, lx.pos, stop, at) ==>
      Collect(lx, stop, buf) == Lexed(Value(buf + lx.input[lx.pos..at]), lx.(pos := at + 1))
    ensures Collect(lx, stop, buf).out.Abort? ==> Collect(lx, stop, buf).out.fault == InputExhausted
    decreases |lx.input| - lx.pos
  {
    if lx.pos < |lx.input| {
      var ch := lx.input[lx.pos];
      var next := lx.(pos := lx.pos + 1);
      if ch != stop {
        CollectReadsToStop(next, stop, buf + [ch]);
        if exists at :: lx.pos <= at < |lx.input| && lx.input[at] == stop {
          var at :| lx.pos <= at < |lx.input| && lx.input[at] == stop;
          assert at != lx.pos;
        }
        forall at | FirstStop(lx.input, lx.pos, stop, at)
          ensures Collect(lx, stop, buf) == Lexed(Value(buf + lx.input[lx.pos..at]), lx.(pos := at + 1))
        {
          assert FirstStop(lx.input, next.pos, stop, at);
          assert buf + [ch] + lx.input[next.pos..at] == buf + lx.input[lx.pos..at];
        }
      } else {
        forall at | FirstStop(lx.input, lx.pos, stop, at)
          ensures Collect(lx, stop, buf) == Lexed(Value(buf + lx.input[lx.pos..at]), lx.(pos := at + 1))
        {
          assert at == lx.pos;
          assert buf + lx.input[lx.pos..at] == buf;
        }
      }
    }
  }

  /**
   * `next_token`.  Rank 3 of the termination measure is for peeking, 0 for
   * consuming; every call it makes either consumes a character first or
   * has a lower rank.
   */
  function NextToken(lx: Lexer, peek: bool): (r: Lexed<Token>)
    requires lx.Valid()
    ensures Keeps(lx, r.lx)
    ensures r.out.Value? ==> Yieldable(r.out.value, Reachable(lx.state))
    ensures !peek && r.out.Value? ==> lx.pos < r.lx.pos
    decreases |lx.input| - lx.pos, if peek then 3 else 0, 0
  {
    var c := NextChar(lx, peek);
    match c.out
    case Abort(f) => Lexed(Abort(f), c.lx)
    case Value(ch) =>
      var lx1 := c.lx;
      if ch == ':' then Lexed(Value(TColon), lx1)
      else if ch == '-' then
        if lx1.state != STag then DashLookahead(lx1.(state := STag), 0) else Lexed(Value(TDash), lx1)
      else if ch == '"' then
        if peek then Lexed(Abort(NoReturn), lx1)
        else
          var p := Peek(lx1.(state := if lx1.state != SDoubleQuote then SDoubleQuote else SIdle));
          match p.out
          case Abort(f) => Lexed(Abort(f), p.lx)
          case Value(t) => Lexed(Value(if t.TStr? then t else TDoubleQuote), p.lx)
      else if ch == ' ' then Bump(lx1)
      else if ch == '\'' then Lexed(Value(TSingleQuote), lx1)
      else if '0' <= ch <= '9' then Lexed(Value(TInteger(ch as int - '0' as int)), lx1)
      else if ch == '\n' then Lexed(Value(TLineBreak), lx1)
      else if lx1.state == SDoubleQuote then
        if peek then Lexed(Abort(NoReturn), lx1)
        else
          var s := Collect(lx1, '"', [ch]);
          Lexed(if s.out.Value? then Value(TStr(s.out.value)) else Abort(s.out.fault), s.lx)
      else if lx1.state == SKey then
        if peek then Lexed(Abort(NoReturn), lx1)
        else
          var s := Collect(lx1, ':', [ch]);
          Lexed(if s.out.Value? then Value(TIdentifier(s.out.value)) else Abort(s.out.fault), s.lx)
      else Lexed(Value(TBlank), lx1)
  }

  /** `bump`: the next token, consumed and stored as the current token. */
  function Bump(lx: Lexer): (r: Lexed<Token>)
    requires lx.Valid()
    ensures Keeps(lx, r.lx)
    ensures r.out.Value? ==> Yieldable(r.out.value, Reachable(lx.state))
    ensures r.out.Value? ==> lx.pos < r.lx.pos && r.lx.current == r.out.value
    decreases |lx.input| - lx.pos, 1, 0
  {
    var t := NextToken(lx, false);
    match t.out
    case Value(tok) => Lexed(t.out, t.lx.(current := tok))
    case Abort(_) => t
  }

  /** `peek`: `next_token` in peeking mode. */
  function Peek(lx: Lexer): (r: Lexed<Token>)
    requires lx.Valid()
    ensures Keeps(lx, r.lx)
    ensures r.out.Value? ==> Yieldable(r.out.value, Reachable(lx.state))
    decreases |lx.input| - lx.pos, 4, 0
  {
    NextToken(lx, true)
  }

  /**
   * The loop after a `-` outside `STag`: up to three more tokens are bumped;
   * `TTag` when all three are dashes, `TDash` as soon as one is not.
   */
  function DashLookahead(lx: Lexer, i: nat): (r: Lexed<Token>)
    requires lx.Valid() && i <= 3
    ensures Keeps(lx, r.lx)
    ensures r.out.Value? ==> r.out.value == TTag || r.out.value == TDash
    decreases |lx.input| - lx.pos, 2, 3 - i
  {
    if i == 3 then Lexed(Value(TTag), lx)
    else
      var t := Bump(lx);
      match t.out
      case Abort(_) => t
      case Value(tok) => if tok != TDash then Lexed(Value(TDash), t.lx) else DashLookahead(t.lx, i + 1)
  }

  // ---------------------------------------------------------------------
  // Tokens of one character

  /** The tokens a single character stands for on its own, whatever the state. */
  function SingleCharToken(c: char): Option<Token> {
    if c == ':' then Some(TColon)
    else if c == '\'' then Some(TSingleQuote)
    else if c == '\n' then Some(TLineBreak)
    else if '0' <= c <= '9' then Some(TInteger(c as int - '0' as int))
    else None
  }

  /** `next_token` at a single-character token: the token, with that character consumed unless peeking. */
  lemma NextTokenSingle(lx: Lexer, peek: bool)
    requires lx.Valid() && lx.pos < |lx.input| && SingleCharToken(lx.input[lx.pos]).Some?
    ensures NextToken(lx, peek) ==
      Lexed(Value(SingleCharToken(lx.input[lx.pos]).value), if peek then lx else lx.(pos := lx.pos + 1))
  {
    var c := lx.input[lx.pos];
    assert NextChar(lx, peek).out == Value(c);
    assert c != '-' && c != '"' && c != ' ';
  }

  /**
   * A colon, a single quote, a line break or a digit yields its own token
   * and consumes exactly that character; peeking yields the same token,
   * consumes nothing and keeps the current token.
   */
  lemma SingleCharacterTokens(lx: Lexer)
    requires lx.Valid() && lx.pos < |lx.input| && SingleCharToken(lx.input[lx.pos]).Some?
    ensures var t := SingleCharToken(lx.input[lx.pos]).value;
      && Bump(lx) == Lexed(Value(t), lx.(pos := lx.pos + 1, current := t))
      && Peek(lx) == Lexed(Value(t), lx)
  {
    NextTokenSingle(lx, false);
    NextTokenSingle(lx, true);
  }

  /** A digit yields the integer it denotes. */
  lemma DigitValue(c: char)
    requires '0' <= c <= '9'
    ensures SingleCharToken(c).Some? && SingleCharToken(c).value.TInteger?
    ensures 0 <= SingleCharToken(c).value.n <= 9
    ensures c == ('0' as int + SingleCharToken(c).value.n) as char
  {
  }

  /** A space is skipped: the token after it is returned instead, and nothing stands for the space itself. */
  lemma SpaceSkipped(lx: Lexer, peek: bool)
    requires lx.Valid() && lx.pos < |lx.input| && lx.input[lx.pos] == ' '
    ensures NextToken(lx, peek) == Bump(if peek then lx else lx.(pos := lx.pos + 1))
  {
  }

  /** Peeking at a double quote never returns. */
  lemma PeekAtQuoteDiverges(lx: Lexer)
    requires lx.Valid() && lx.pos < |lx.input| && lx.input[lx.pos] == '"'
    ensures Peek(lx).out == Abort(NoReturn)
  {
  }

  /** A character that stands for no token and does not start one. */
  predicate Plain(c: char) {
    SingleCharToken(c).None? && c != '-' && c != '"' && c != ' '
  }

  /** A consumed double quote toggles `SDoubleQuote` and peeks; a string found there is returned, anything else becomes `TDoubleQuote`. */
  lemma QuoteOpensPeek(lx: Lexer)
    requires lx.Valid() && lx.pos < |lx.input| && lx.input[lx.pos] == '"'
    ensures var p := Peek(lx.(pos := lx.pos + 1, state := if lx.state != SDoubleQuote then SDoubleQuote else SIdle));
      NextToken(lx, false) ==
        if p.out.Abort? then p else Lexed(Value(if p.out.value.TStr? then p.out.value else TDoubleQuote), p.lx)
  {
    assert NextChar(lx, false) == Lexed(Value('"'), lx.(pos := lx.pos + 1));
  }

  /** Peeking at text: `NoReturn` inside a string, `TBlank` outside one (and outside `SKey`). */
  lemma PeekAtPlain(lx: Lexer)
    requires lx.Valid() && lx.pos < |lx.input| && Plain(lx.input[lx.pos]) && lx.state != SKey
    ensures Peek(lx) == if lx.state == SDoubleQuote then Lexed(Abort(NoReturn), lx) else Lexed(Value(TBlank), lx)
  {
    var c := lx.input[lx.pos];
    assert c != '-' && c != '"' && c != ' ' && c != ':' && c != '\'' && c != '\n' && !('0' <= c <= '9');
    assert NextChar(lx, true) == Lexed(Value(c), lx);
  }

  /**
   * An opening double quote directly followed by text never returns: the
   * peek that should find the string re-reads the text forever.  A closing
   * quote before text yields `TDoubleQuote` and returns to `SIdle`.
   */
  lemma QuoteBeforeText(lx: Lexer)
    requires lx.Valid() && lx.pos + 1 < |lx.input|
    requires lx.input[lx.pos] == '"' && Plain(lx.input[lx.pos + 1])
    requires lx.state != SKey
    ensures lx.state != SDoubleQuote ==> Bump(lx).out == Abort(NoReturn)
    ensures lx.state == SDoubleQuote ==>
      Bump(lx) == Lexed(Value(TDoubleQuote), lx.(pos := lx.pos + 1, state := SIdle, current := TDoubleQuote))
  {
    QuoteOpensPeek(lx);
    PeekAtPlain(lx.(pos := lx.pos + 1, state := if lx.state != SDoubleQuote then SDoubleQuote else SIdle));
  }

  /** Text inside a string starts collecting up to the next double quote. */
  lemma NextTokenCollects(lx: Lexer)
    requires lx.Valid() && lx.state == SDoubleQuote && lx.pos < |lx.input| && Plain(lx.input[lx.pos])
    ensures var s := Collect(lx.(pos := lx.pos + 1), '"', [lx.input[lx.pos]]);
      NextToken(lx, false) == Lexed(if s.out.Value? then Value(TStr(s.out.value)) else Abort(s.out.fault), s.lx)
  {
    var c := lx.input[lx.pos];
    assert c != ':' && c != '-' && c != '"' && c != ' ' && c != '\'' && c != '\n' && !('0' <= c <= '9');
    assert NextChar(lx, false) == Lexed(Value(c), lx.(pos := lx.pos + 1));
  }

  /** Collecting that starts after a first character which is not `stop` returns everything from that character up to `stop`. */
  lemma CollectAfterFirst(lx: Lexer, stop: char, at: int)
    requires lx.Valid() && lx.pos < |lx.input| && lx.input[lx.pos] != stop
    requires FirstStop(lx.input, lx.pos, stop, at)
    ensures Collect(lx.(pos := lx.pos + 1), stop, [lx.input[lx.pos]]) == Lexed(Value(lx.input[lx.pos..at]), lx.(pos := at + 1))
  {
    var next := lx.(pos := lx.pos + 1);
    CollectReadsToStop(next, stop, [lx.input[lx.pos]]);
    assert FirstStop(lx.input, next.pos, stop, at);
    assert [lx.input[lx.pos]] + lx.input[next.pos..at] == lx.input[lx.pos..at];
  }

  /** Inside a string, text is collected up to the closing quote, which is consumed too. */
  lemma StringCollected(lx: Lexer, at: int)
    requires lx.Valid() && lx.state == SDoubleQuote && lx.pos < |lx.input| && Plain(lx.input[lx.pos])
    requires FirstStop(lx.input, lx.pos, '"', at)
    ensures Bump(lx) == Lexed(Value(TStr(lx.input[lx.pos..at])), lx.(pos := at + 1, current := TStr(lx.input[lx.pos..at])))
  {
    NextTokenCollects(lx);
    CollectAfterFirst(lx, '"', at);
  }

  // ---------------------------------------------------------------------
  // Dashes

  /** In `STag` a dash is a plain `TDash`, consumed unless peeking. */
  lemma DashInTag(lx: Lexer, peek: bool)
    requires lx.Valid() && lx.pos < |lx.input| && lx.input[lx.pos] == '-' && lx.state == STag
    ensures NextToken(lx, peek) == Lexed(Value(TDash), if peek then lx else lx.(pos := lx.pos + 1))
  {
  }

  /** `DashInTag` for `bump`: the dash is consumed and becomes the current token. */
  lemma BumpDashInTag(lx: Lexer)
    requires lx.Valid() && lx.pos < |lx.input| && lx.input[lx.pos] == '-' && lx.state == STag
    ensures Bump(lx) == Lexed(Value(TDash), lx.(pos := lx.pos + 1, current := TDash))
  {
    DashInTag(lx, false);
  }

  /** A dash outside `STag` switches to `STag` and starts the look-ahead. */
  lemma DashStartsLookahead(lx: Lexer)
    requires lx.Valid() && lx.pos < |lx.input| && lx.input[lx.pos] == '-' && lx.state != STag
    ensures NextToken(lx, false) == DashLookahead(lx.(pos := lx.pos + 1, state := STag), 0)
  {
    var c := NextChar(lx, false);
    assert c.out == Value('-');
    assert c.lx.state != STag && c.lx.(state := STag) == lx.(pos := lx.pos + 1, state := STag);
  }

  /** A dash inside the look-ahead is bumped and the look-ahead goes on. */
  lemma DashLookaheadOnDash(lx: Lexer, i: nat)
    requires lx.Valid() && i < 3 && lx.pos < |lx.input| && lx.input[lx.pos] == '-' && lx.state == STag
    ensures DashLookahead(lx, i) == DashLookahead(lx.(pos := lx.pos + 1, current := TDash), i + 1)
  {
    BumpDashInTag(lx);
  }

  /** A line break inside the look-ahead is bumped and ends it with a `TDash`. */
  lemma DashLookaheadOnBreak(lx: Lexer, i: nat)
    requires lx.Valid() && i < 3 && lx.pos < |lx.input| && lx.input[lx.pos] == '\n'
    ensures DashLookahead(lx, i) == Lexed(Value(TDash), lx.(pos := lx.pos + 1, current := TLineBreak))
  {
    NextTokenSingle(lx, false);
    assert Bump(lx) == Lexed(Value(TLineBreak), lx.(pos := lx.pos + 1, current := TLineBreak));
  }

  /** The four characters of a four-character slice, one by one. */
  lemma FourChars(s: string, p: nat, line: string)
    requires p + 4 <= |s| && |line| == 4 && s[p..p + 4] == line
    ensures s[p] == line[0] && s[p + 1] == line[1] && s[p + 2] == line[2] && s[p + 3] == line[3]
  {
    assert s[p..p + 4][0] == s[p];
    assert s[p..p + 4][1] == s[p + 1];
    assert s[p..p + 4][2] == s[p + 2];
    assert s[p..p + 4][3] == s[p + 3];
  }

  /** From round `i` of the look-ahead, the remaining `3 - i` dashes end it with a `TTag`. */
  lemma {:induction false} DashRunMakesTag(lx: Lexer, i: nat)
    requires lx.Valid() && i <= 3 && lx.state == STag && lx.pos + (3 - i) <= |lx.input|
    requires forall k :: lx.pos <= k < lx.pos + (3 - i) ==> lx.input[k] == '-'
    ensures DashLookahead(lx, i) ==
      Lexed(Value(TTag), if i == 3 then lx else lx.(pos := lx.pos + (3 - i), current := TDash))
    decreases 3 - i
  {
    if i < 3 {
      DashLookaheadOnDash(lx, i);
      DashRunMakesTag(lx.(pos := lx.pos + 1, current := TDash), i + 1);
    }
  }

  /** From round `i` of the look-ahead, the remaining `2 - i` dashes and a line break end it with a `TDash`. */
  lemma {:induction false} DashRunThenBreak(lx: Lexer, i: nat)
    requires lx.Valid() && i < 3 && lx.state == STag && lx.pos + (3 - i) <= |lx.input|
    requires forall k :: lx.pos <= k < lx.pos + (2 - i) ==> lx.input[k] == '-'
    requires lx.input[lx.pos + (2 - i)] == '\n'
    ensures DashLookahead(lx, i) == Lexed(Value(TDash), lx.(pos := lx.pos + (3 - i), current := TLineBreak))
    decreases 3 - i
  {
    if i < 2 {
      DashLookaheadOnDash(lx, i);
      DashRunThenBreak(lx.(pos := lx.pos + 1, current := TDash), i + 1);
    } else {
      DashLookaheadOnBreak(lx, i);
    }
  }

  /** A peek at a dash outside `STag` switches to `STag` and starts the look-ahead at that same, unconsumed dash. */
  lemma PeekAtDashStartsLookahead(lx: Lexer)
    requires lx.Valid() && lx.pos < |lx.input| && lx.input[lx.pos] == '-' && lx.state != STag
    ensures NextToken(lx, true) == DashLookahead(lx.(state := STag), 0)
  {
    var c := NextChar(lx, true);
    assert c.out == Value('-');
    assert c.lx.state != STag && c.lx.(state := STag) == lx.(state := STag);
  }

  /**
   * A peek is not side-effect free: at `---` outside `STag` it re-reads the
   * first dash as the first round of the look-ahead, yields `TTag` and
   * consumes three characters.
   */
  lemma PeekAtDashesConsumes(lx: Lexer)
    requires lx.Valid() && lx.pos + 3 <= |lx.input| && lx.input[lx.pos..lx.pos + 3] == "---"
    requires lx.state != STag
    ensures Peek(lx) == Lexed(Value(TTag), lx.(pos := lx.pos + 3, state := STag, current := TDash))
  {
    forall k | lx.pos <= k < lx.pos + 3
      ensures lx.input[k] == '-'
    {
      assert lx.input[lx.pos..lx.pos + 3][k - lx.pos] == lx.input[k];
    }
    PeekAtDashStartsLookahead(lx);
    DashRunMakesTag(lx.(state := STag), 0);
  }

  /** `n` dashes at the position, read as a run starting one character later. */
  lemma DashesAhead(lx: Lexer, n: nat)
    requires 1 <= n <= 4 && lx.pos + n <= |lx.input|
    requires lx.input[lx.pos] == '-' && (n >= 2 ==> lx.input[lx.pos + 1] == '-')
    requires (n >= 3 ==> lx.input[lx.pos + 2] == '-') && (n >= 4 ==> lx.input[lx.pos + 3] == '-')
    ensures forall k :: lx.pos + 1 <= k < lx.pos + n ==> lx.input[k] == '-'
  {
  }

  /** Four dashes outside `STag` make one `TTag`, and the lexer is left in `STag`. */
  lemma FourDashesMakeTag(lx: Lexer)
    requires lx.Valid() && lx.pos + 4 <= |lx.input| && lx.input[lx.pos..lx.pos + 4] == "----"
    requires lx.state != STag
    ensures NextToken(lx, false) == Lexed(Value(TTag), lx.(pos := lx.pos + 4, state := STag, current := TDash))
  {
    FourChars(lx.input, lx.pos, "----");
    DashesAhead(lx, 4);
    DashStartsLookahead(lx);
    DashRunMakesTag(lx.(pos := lx.pos + 1, state := STag), 0);
  }

  /**
   * The first dash of a `---` line outside `STag` reads the rest of the line
   * ahead and swallows its line break: the call yields a single `TDash` and
   * consumes four characters.
   */
  lemma DashLineSwallowsBreak(lx: Lexer)
    requires lx.Valid() && lx.pos + 4 <= |lx.input| && lx.input[lx.pos..lx.pos + 4] == "---\n"
    requires lx.state != STag
    ensures NextToken(lx, false) == Lexed(Value(TDash), lx.(pos := lx.pos + 4, state := STag, current := TLineBreak))
  {
    FourChars(lx.input, lx.pos, "---\n");
    DashesAhead(lx, 3);
    DashStartsLookahead(lx);
    DashRunThenBreak(lx.(pos := lx.pos + 1, state := STag), 0);
  }

  /**
   * Once in `STag`, a step leaves it only by consuming a double quote; in
   * particular, with no double quote ahead, the lexer stays in `STag`.
   */
  lemma TagIsSticky(lx: Lexer, peek: bool)
    requires lx.Valid() && lx.state == STag
    ensures var r := NextToken(lx, peek); r.lx.state == STag || QuoteBetween(lx.input, lx.pos, r.lx.pos)
    ensures var r := Bump(lx); r.lx.state == STag || QuoteBetween(lx.input, lx.pos, r.lx.pos)
    ensures NoQuoteAhead(lx) ==> NextToken(lx, peek).lx.state == STag && Bump(lx).lx.state == STag
  {
  }

  // ---------------------------------------------------------------------
  // The parser

  /** The first token of `parse_dashes`: bumped again as long as it is a line break. */
  function BumpPastBreaks(lx: Lexer): (r: Lexed<Token>)
    requires lx.Valid()
    ensures Keeps(lx, r.lx)
    ensures r.out.Value? ==> r.out.value != TLineBreak && r.lx.current == r.out.value
    decreases |lx.input| - lx.pos
  {
    var t := Bump(lx);
    if t.out == Value(TLineBreak) then BumpPastBreaks(t.lx) else t
  }

  /** The dash loop of `parse_dashes`, from its `i`th round on. */
  function ExpectDashes(lx: Lexer, i: nat): (r: Lexed<Result<(), ParseError>>)
    requires lx.Valid() && i <= 3
    ensures Keeps(lx, r.lx)
    ensures r.out.Value? && r.out.value.Err? ==>
      r.out.value.error.ExpectedDash? && r.out.value.error.found != TDash && r.out.value.error.found == r.lx.current
    ensures r.out == Value(Ok(())) && i < 3 ==> r.lx.current == TDash
    decreases 3 - i
  {
    if i == 3 then Lexed(Value(Ok(())), lx)
    else
      var t := if i == 0 then BumpPastBreaks(lx) else Bump(lx);
      match t.out
      case Abort(f) => Lexed(Abort(f), t.lx)
      case Value(tok) => if tok != TDash then Lexed(Value(Err(ExpectedDash(tok))), t.lx) else ExpectDashes(t.lx, i + 1)
  }

  /**
   * `parse_dashes`: three dashes, line breaks allowed only before the first;
   * with `lineBreak` a line break must follow.  An error names the token
   * found instead, which is the current token when it is reported.
   */
  function ParseDashes(lx: Lexer, lineBreak: bool): (r: Lexed<Result<(), ParseError>>)
    requires lx.Valid()
    ensures Keeps(lx, r.lx)
    ensures r.out.Value? && r.out.value.Err? ==> r.out.value.error.found == r.lx.current
    ensures r.out.Value? && r.out.value.Err? && r.out.value.error.ExpectedDash? ==> r.out.value.error.found != TDash
    ensures r.out.Value? && r.out.value.Err? && r.out.value.error.ExpectedLineBreak? ==>
      lineBreak && r.out.value.error.found != TLineBreak
    ensures r.out == Value(Ok(())) ==> r.lx.current == (if lineBreak then TLineBreak else TDash)
  {
    var d := ExpectDashes(lx, 0);
    if d.out != Value(Ok(())) || !lineBreak then d
    else
      var t := Bump(d.lx);
      match t.out
      case Abort(f) => Lexed(Abort(f), t.lx)
      case Value(tok) =>
        if tok != TLineBreak then Lexed(Value(Err(ExpectedLineBreak(t.lx.current))), t.lx)
        else Lexed(Value(Ok(())), t.lx)
  }

  /** `parse`: an opening `---` line, then a closing `---`; the first failure is the result. */
  function Parse(lx: Lexer): (r: Lexed<Result<(), ParseError>>)
    requires lx.Valid()
    ensures Keeps(lx, r.lx)
    ensures r.out == Value(Ok(())) <==>
      ParseDashes(lx, true).out == Value(Ok(())) && ParseDashes(ParseDashes(lx, true).lx, false).out == Value(Ok(()))
    ensures ParseDashes(lx, true).out != Value(Ok(())) ==> r == ParseDashes(lx, true)
  {
    var first := ParseDashes(lx, true);
    if first.out != Value(Ok(())) then first else ParseDashes(first.lx, false)
  }

  /** Line breaks before the first dash are skipped. */
  lemma LeadingBreaksSkipped(lx: Lexer, lineBreak: bool)
    requires lx.Valid() && Bump(lx).out == Value(TLineBreak)
    ensures ParseDashes(lx, lineBreak) == ParseDashes(Bump(lx).lx, lineBreak)
  {
    assert BumpPastBreaks(lx) == BumpPastBreaks(Bump(lx).lx);
    assert ExpectDashes(lx, 0) == ExpectDashes(Bump(lx).lx, 0);
  }

  /** After the first dash, a line break is an error like any other token that is not a dash. */
  lemma LaterBreakRejected(lx: Lexer, i: nat)
    requires lx.Valid() && 1 <= i < 3 && Bump(lx).out == Value(TLineBreak)
    ensures ExpectDashes(lx, i) == Lexed(Value(Err(ExpectedDash(TLineBreak))), Bump(lx).lx)
  {
  }

  /**
   * Without `lineBreak`, nothing is read after the dashes; with it, exactly
   * one more token is read, and it decides.
   */
  lemma LineBreakReadsOneMore(lx: Lexer)
    requires lx.Valid()
    ensures ParseDashes(lx, false) == ExpectDashes(lx, 0)
    ensures ExpectDashes(lx, 0).out != Value(Ok(())) ==> ParseDashes(lx, true) == ParseDashes(lx, false)
    ensures ParseDashes(lx, true).out == Value(Ok(())) <==>
      ParseDashes(lx, false).out == Value(Ok(())) && Bump(ParseDashes(lx, false).lx).out == Value(TLineBreak)
    ensures ParseDashes(lx, true).out == Value(Ok(())) ==> ParseDashes(lx, true).lx == Bump(ParseDashes(lx, false).lx).lx
  {
  }

  /** From `new`, no step of the parser reaches a state outside `SIdle`, `STag` and `SDoubleQuote`. */
  lemma ParseStaysReachable(input: string)
    ensures Reachable(Parse(New(input)).lx.state)
  {
  }
}
