/** The streaming reader of JSON. */
module JsonReaders {
  import opened Wrappers
  import opened Utf8
  import opened JsonLexer
  import opened JsonText

  /** Once the end of the stream has been read it is read again. */
  lemma {:induction false} EofStays(lexer: Lexer, m: Machine)
    requires Run(lexer, m).Read? && Run(lexer, m).token == Eof
    ensures var m' := Run(lexer, m).machine; m'.rest == [] && Run(Default, m') == Read(Eof, m')
    decreases |m.rest|
  {
    var c := if m.rest == [] then None else Some(m.rest[0]);
    OnlyDefaultEnds(lexer, c, m.scopes, m.buffer);
    match StepOn(lexer, c, m.scopes, m.buffer)
    case Continue(lexer', scopes, buffer) => EofStays(lexer', Machine(m.rest[1..], scopes, buffer));
    case Done(_, _, _, _) =>
  }

  lemma OnlyDefaultEnds(lexer: Lexer, c: Option<char>, scopes: seq<Scope>, buffer: seq<nat>)
    ensures var step := StepOn(lexer, c, scopes, buffer); step.Done? && step.token == Eof ==> lexer.Default? && c.None?
  {
  }

  lemma {:induction false} RunShrinks(lexer: Lexer, m: Machine)
    requires Run(lexer, m).Read?
    ensures |Run(lexer, m).machine.rest| <= |m.rest|
    decreases |m.rest|
  {
    var c := if m.rest == [] then None else Some(m.rest[0]);
    match StepOn(lexer, c, m.scopes, m.buffer)
    case Continue(lexer', scopes, buffer) => RunShrinks(lexer', Machine(m.rest[1..], scopes, buffer));
    case Done(_, _, _, _) =>
  }

  /** Every token but the end of the stream takes at least one character. */
  lemma TokenTakesCharacter(m: Machine)
    requires Run(Default, m).Read? && Run(Default, m).token != Eof
    ensures |Run(Default, m).machine.rest| < |m.rest|
  {
    var c := if m.rest == [] then None else Some(m.rest[0]);
    match StepOn(Default, c, m.scopes, m.buffer)
    case Continue(lexer', scopes, buffer) => RunShrinks(lexer', Machine(m.rest[1..], scopes, buffer));
    case Done(_, _, _, _) =>
  }

  class JsonReader {
    var stream: string       // the bytes that are still in the stream
    var scopes: seq<Scope>
    var buffer: seq<nat>
    var token: Token
    var cPrev: Option<char>

    ghost function Ahead(): Machine
      reads this
    {
      Machine((if cPrev.Some? then [cPrev.value] else []) + stream, scopes, buffer)
    }

    /** What the next read comes to. */
    ghost function Next(): Outcome
      reads this
    {
      if token != Eof then Outcome.Read(token, Ahead()) else Run(Default, Ahead())
    }

    constructor (stream: string)
      ensures Ahead() == Machine(stream, [], []) && token == Eof
    {
      this.stream, scopes, buffer, token, cPrev := stream, [], [], Eof, None;
    }

    method Read() returns (r: Result<Token, Error>)
      modifies this
      ensures match old(Next())
              case Read(t, m) => r == Ok(t) && token == Eof && Ahead() == m
              case Bad(e) => r == Err(e)
    {
      if token == Eof {
        r := ReadToken();
      } else {
        r := Ok(token);
        token := Eof;
      }
    }

    /** Looking at the next token changes nothing about what is read. */
    method Peek() returns (r: Result<Token, Error>)
      modifies this
      ensures match old(Next())
              case Read(t, _) => r == Ok(t) && Next() == old(Next())
              case Bad(e) => r == Err(e)
    {
      if token == Eof {
        ghost var before := Ahead();
        r := ReadToken();
        if r.Ok? {
          token := r.value;
          if token == Eof {
            EofStays(Default, before);
          }
        }
      } else {
        r := Ok(token);
      }
    }

    method ReadToken() returns (r: Result<Token, Error>)
      requires token == Eof
      modifies this
      ensures match Run(Default, old(Ahead()))
              case Read(t, m) => r == Ok(t) && token == Eof && Ahead() == m
              case Bad(e) => r == Err(e)
    {
      hide Run, StepOn;
      var st := Default;
      while true
        invariant token == Eof && Run(st, Ahead()) == Run(Default, old(Ahead()))
        decreases |Ahead().rest|
      {
        var c: Option<char> := None;
        ghost var before := Ahead();
        if cPrev.Some? {
          c := cPrev;
          cPrev := None;
        } else if stream != [] {
          c := Some(stream[0]);
          stream := stream[1..];
        }
        assert before.rest == (if c.Some? then [c.value] else []) + stream;
        NoStepPastEnd(st, scopes, buffer);
        RunOnce(st, before);
        match StepOn(st, c, scopes, buffer) {
          case Continue(lexer, newScopes, newBuffer) =>
            st, scopes, buffer := lexer, newScopes, newBuffer;
            assert Ahead().rest == before.rest[1..];
          case Done(t, newScopes, newBuffer, pushBack) =>
            scopes, buffer := newScopes, newBuffer;
            if pushBack {
              cPrev := c;
            }
            return Ok(t);
          case Fail(error) =>
            return Err(error);
        }
      }
    }
  }
}
