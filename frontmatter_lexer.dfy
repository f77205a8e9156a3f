/**
 * The front-matter lexer as the source has it: a `Frontmatter` object whose
 * methods consume its input and update its `state` and `current` fields in
 * place.  The character iterator is the position `pos` in `input`.  Every
 * method except `CollectUntil` is proved to leave the object exactly as the
 * function of the same name in FrontmatterSpec describes and to return the
 * same outcome.  `CollectUntil` agrees with `Collect` when not peeking; when
 * peeking it never returns.
 */
module FrontmatterLexer {
  import opened Wrappers
  import opened FrontmatterSpec

  class Frontmatter {
    const input: string
    /** The parsed key-value pairs; nothing shown here fills them yet. */
    var pairs: map<string, Types>
    var pos: nat
    var state: State
    var current: Token

    /** The lexing state as a value. */
    function Snapshot(): Lexer
      reads this`pos, this`state, this`current
    {
      Lexer(input, pos, state, current)
    }

    predicate Valid()
      reads this`pos
    {
      pos <= |input|
    }

    /** `Frontmatter::new`: nothing parsed and nothing consumed yet. */
    constructor (input: string)
      ensures Valid() && Snapshot() == New(input)
      ensures pairs == map[]
    {
      this.input := input;
      pairs := map[];
      pos := 0;
      state := SIdle;
      current := TBlank;
    }

    /** `next_char`. */
    method NextChar(peek: bool) returns (r: Outcome<char>)
      requires Valid()
      modifies this`pos
      ensures Valid() && Lexed(r, Snapshot()) == FrontmatterSpec.NextChar(old(Snapshot()), peek)
    {
      if pos == |input| {
        r := Abort(InputExhausted);
      } else {
        r := Value(input[pos]);
        if !peek {
          pos := pos + 1;
        }
      }
    }

    /**
     * The string-collecting loop of `next_token`, from the character `first`
     * already read.  While peeking, the same character is read again and
     * again and the loop never ends.
     */
    method CollectUntil(first: char, stop: char, peek: bool) returns (r: Outcome<string>)
      requires Valid() && first != stop
      modifies this`pos
      ensures Valid()
      ensures peek ==> r == Abort(NoReturn) && Snapshot() == old(Snapshot())
      ensures !peek ==> Lexed(r, Snapshot()) == Collect(old(Snapshot()), stop, [first])
    {
      if peek {
        return Abort(NoReturn);
      }
      var buf := [first];
      while true
        invariant Valid() && Collect(old(Snapshot()), stop, [first]) == Collect(Snapshot(), stop, buf)
        decreases |input| - pos
      {
        var c := NextChar(false);
        if c.Abort? {
          return Abort(c.fault);
        }
        if c.value == stop {
          return Value(buf);
        }
        buf := buf + [c.value];
      }
    }

    /** `next_token`. */
    method NextToken(peek: bool) returns (r: Outcome<Token>)
      requires Valid()
      modifies this`pos, this`state, this`current
      ensures Valid() && Lexed(r, Snapshot()) == FrontmatterSpec.NextToken(old(Snapshot()), peek)
      decreases |input| - pos, if peek then 3 else 0, 0
    {
      var c := NextChar(peek);
      if c.Abort? {
        return Abort(c.fault);
      }
      var ch := c.value;
      if ch == ':' {
        r := Value(TColon);
      } else if ch == '-' {
        if state != STag {
          state := STag;
          r := DashLookahead();
        } else {
          r := Value(TDash);
        }
      } else if ch == '"' {
        if peek {
          r := Abort(NoReturn);
        } else {
          state := if state != SDoubleQuote then SDoubleQuote else SIdle;
          var p := Peek();
          match p {
            case Abort(f) => r := p;
            case Value(t) => r := if t.TStr? then p else Value(TDoubleQuote);
          }
        }
      } else if ch == ' ' {
        r := Bump();
      } else if ch == '\'' {
        r := Value(TSingleQuote);
      } else if '0' <= ch <= '9' {
        r := Value(TInteger(ch as int - '0' as int));
      } else if ch == '\n' {
        r := Value(TLineBreak);
      } else if state == SDoubleQuote {
        var s := CollectUntil(ch, '"', peek);
        r := if s.Value? then Value(TStr(s.value)) else Abort(s.fault);
      } else if state == SKey {
        var s := CollectUntil(ch, ':', peek);
        r := if s.Value? then Value(TIdentifier(s.value)) else Abort(s.fault);
      } else {
        r := Value(TBlank);
      }
    }

    /**
     * The loop of `next_token` after a `-` outside `STag`: up to three more
     * tokens, `TTag` if all are dashes and `TDash` otherwise.
     */
    method DashLookahead() returns (r: Outcome<Token>)
      requires Valid()
      modifies this`pos, this`state, this`current
      ensures Valid() && Lexed(r, Snapshot()) == FrontmatterSpec.DashLookahead(old(Snapshot()), 0)
      decreases |input| - pos, 2, 3
    {
      ghost var start := Snapshot();
      var found := true;
      for i := 0 to 3
        invariant Valid() && input == start.input && pos >= start.pos
        invariant FrontmatterSpec.DashLookahead(start, 0) == FrontmatterSpec.DashLookahead(Snapshot(), i)
      {
        var token := Bump();
        if token.Abort? {
          return token;
        }
        if token.value != TDash {
          found := false;
          break;
        }
      }
      r := if found then Value(TTag) else Value(TDash);
    }

    /** `bump`. */
    method Bump() returns (r: Outcome<Token>)
      requires Valid()
      modifies this`pos, this`state, this`current
      ensures Valid() && Lexed(r, Snapshot()) == FrontmatterSpec.Bump(old(Snapshot()))
      decreases |input| - pos, 1, 0
    {
      r := NextToken(false);
      if r.Value? {
        current := r.value;
      }
    }

    /** `peek`. */
    method Peek() returns (r: Outcome<Token>)
      requires Valid()
      modifies this`pos, this`state, this`current
      ensures Valid() && Lexed(r, Snapshot()) == FrontmatterSpec.Peek(old(Snapshot()))
      decreases |input| - pos, 4, 0
    {
      r := NextToken(true);
    }

    /** `parse_dashes`. */
    method ParseDashes(lineBreak: bool) returns (r: Outcome<Result<(), ParseError>>)
      requires Valid()
      modifies this`pos, this`state, this`current
      ensures Valid() && Lexed(r, Snapshot()) == FrontmatterSpec.ParseDashes(old(Snapshot()), lineBreak)
    {
      ghost var start := Snapshot();
      for i := 0 to 3
        invariant Valid() && input == start.input
        invariant ExpectDashes(start, 0) == ExpectDashes(Snapshot(), i)
      {
        ghost var round := Snapshot();
        var token := Bump();
        while i == 0 && token == Value(TLineBreak)
          invariant Valid() && input == start.input
          invariant i == 0 ==>
            BumpPastBreaks(round) == if token == Value(TLineBreak) then BumpPastBreaks(Snapshot()) else Lexed(token, Snapshot())
          invariant i != 0 ==> Lexed(token, Snapshot()) == FrontmatterSpec.Bump(round)
          decreases |input| - pos
        {
          token := Bump();
          if token.Abort? {
            return Abort(token.fault);
          }
        }
        if token.Abort? {
          return Abort(token.fault);
        }
        if token.value != TDash {
          return Value(Err(ExpectedDash(token.value)));
        }
      }
      if lineBreak {
        var token := Bump();
        if token.Abort? {
          return Abort(token.fault);
        }
        if token.value != TLineBreak {
          return Value(Err(ExpectedLineBreak(current)));
        }
      }
      r := Value(Ok(()));
    }

    /** `parse`. */
    method Parse() returns (r: Outcome<Result<(), ParseError>>)
      requires Valid()
      modifies this`pos, this`state, this`current
      ensures Valid() && Lexed(r, Snapshot()) == FrontmatterSpec.Parse(old(Snapshot()))
    {
      r := ParseDashes(true);
      if r != Value(Ok(())) {
        return;
      }
      r := ParseDashes(false);
    }
  }
}
