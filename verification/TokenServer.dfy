/**
 The token server of src/eoplus/parse.cpp: it hands the lexer's tokens to the parser without the new-lines,
 takes tokens back, and keeps the line number for error messages.
 */
module TokenServer {
  import opened Common
  import opened Lexer
  import opened Spelling

  /** The token types of the bit mask that GetToken is given. */
  datatype Kind =
    | IdentifierKind | StringKind | IntegerKind | BooleanKind | OperatorKind | SymbolKind | NewLineKind | EndKind

  function KindOf(t: Token): Kind {
    match t
    case Identifier(_) => IdentifierKind
    case Str(_) => StringKind
    case Integer(_) => IntegerKind
    case Boolean(_) => BooleanKind
    case Operator(_) => OperatorKind
    case Symbol(_) => SymbolKind
    case NewLine => NewLineKind
    case EndOfFile => EndKind
  }

  lemma {:induction false} CountAppends(a: seq<Token>, b: seq<Token>)
    ensures CountNewLines(a + b) == CountNewLines(a) + CountNewLines(b)
  {
    if a == [] {
      assert a + b == b;
    } else {
      CountAppends(a[1..], b);
      assert (a + b)[1..] == a[1..] + b;
    }
  }

  /** Pushing one token on the stream. */
  lemma PushKeeps(t: Token, s: seq<Token>)
    ensures ([t] + s)[1..] == s
    ensures CountNewLines([t] + s) == IsNewLine(t) + CountNewLines(s)
    ensures Strip([t] + s) == if t.NewLine? then Strip(s) else [t] + Strip(s)
  {
    assert ([t] + s)[1..] == s;
  }

  lemma LastMoves(a: seq<Token>, b: seq<Token>)
    requires a != []
    ensures a[..|a| - 1] + ([a[|a| - 1]] + b) == a + b
  {
  }

  class Server {
    const source: seq<Token>
    var it: nat
    var tokenBuffer: seq<Token>  // a stack, the top first
    var line: int
    var rejectToken: Option<Token>
    var rejectLine: int
    ghost var delivered: seq<Token>  // handed out and not put back, new-lines aside

    /** What is still to come, in the order in which it will be seen. */
    function Stream(): seq<Token>
      requires it <= |source|
      reads this
    {
      tokenBuffer + source[it..]
    }

    ghost predicate Valid()
      reads this
    {
      && it <= |source|
      && line + CountNewLines(Stream()) == 1 + CountNewLines(source)
      && delivered + Strip(Stream()) == Strip(source)
    }

    function Rest(): seq<Token>
      requires Valid()
      reads this
    {
      Strip(Stream())
    }

    constructor (source: seq<Token>)
      ensures Valid() && Rest() == Strip(source) && delivered == [] && line == 1
    {
      this.source, it, tokenBuffer, line, rejectToken, rejectLine, delivered := source, 0, [], 1, None, 1, [];
      new;
      assert Stream() == source;
    }

    method Next() returns (t: Option<Token>)
      requires it <= |source|
      modifies this`it, this`tokenBuffer
      ensures it <= |source|
      ensures if old(Stream()) == [] then t == None && Stream() == []
        else t == Some(old(Stream())[0]) && Stream() == old(Stream())[1..]
    {
      t := None;
      if tokenBuffer != [] {
        t := Some(tokenBuffer[0]);
        tokenBuffer := tokenBuffer[1..];
      } else if it < |source| {
        t := Some(source[it]);
        it := it + 1;
      }
    }

    /** The invalid token is None, both for a token that is not allowed and when there is none left. */
    method GetToken(allow: set<Kind>) returns (t: Option<Token>, newlines: nat)
      requires Valid()
      modifies this
      ensures Valid()
      ensures NewLineKind in allow && t == Some(NewLine) ==> Rest() == old(Rest()) && delivered == old(delivered)
      ensures NewLineKind !in allow ==> t != Some(NewLine)
      ensures t != Some(NewLine) ==>
        if old(Rest()) != [] && KindOf(old(Rest())[0]) in allow
        then t == Some(old(Rest())[0]) && Rest() == old(Rest())[1..] && delivered == old(delivered) + [t.value]
        else t == None && Rest() == old(Rest()) && delivered == old(delivered)
      ensures t == None && old(Rest()) != [] ==> rejectToken == Some(old(Rest())[0]) && rejectLine == line + newlines
    {
      ghost var start := Strip(Stream());
      newlines := 0;
      while true
        invariant it <= |source| && delivered == old(delivered) && Strip(Stream()) == start
        invariant line + CountNewLines(Stream()) == 1 + CountNewLines(source)
        decreases |Stream()|
      {
        t := Next();
        if t == Some(NewLine) {
          line := line + 1;
          if NewLineKind in allow {
            return;
          }
          newlines := newlines + 1;
        } else {
          break;
        }
      }
      if t == None {
        return;
      }
      assert start == [t.value] + Strip(Stream());
      delivered := delivered + [t.value];
      Regroup(old(delivered), [t.value], Strip(Stream()));
      if KindOf(t.value) !in allow {
        PutBack(t.value, newlines);
        t := None;
      }
    }

    method Push(t: Token)
      requires it <= |source|
      modifies this`tokenBuffer
      ensures Stream() == [t] + old(Stream())
      ensures CountNewLines(Stream()) == IsNewLine(t) + CountNewLines(old(Stream()))
      ensures Strip(Stream()) == if t.NewLine? then Strip(old(Stream())) else [t] + Strip(old(Stream()))
    {
      PushKeeps(t, Stream());
      assert [t] + tokenBuffer + source[it..] == [t] + Stream();
      tokenBuffer := [t] + tokenBuffer;
    }

    method PushNewLines(n: nat)
      requires it <= |source|
      modifies this`tokenBuffer
      ensures CountNewLines(Stream()) == old(CountNewLines(Stream())) + n && Strip(Stream()) == old(Strip(Stream()))
    {
      for i := 0 to n
        invariant CountNewLines(Stream()) == old(CountNewLines(Stream())) + i
        invariant Strip(Stream()) == old(Strip(Stream()))
      {
        Push(NewLine);
      }
    }

    /** t is the token handed out last, or a new-line; its new-lines go back below it. */
    method PutBack(t: Token, newlines: nat)
      requires Valid() && (t.NewLine? || (delivered != [] && delivered[|delivered| - 1] == t))
      modifies this
      ensures Valid()
      ensures Rest() == if t.NewLine? then old(Rest()) else [t] + old(Rest())
      ensures delivered == if t.NewLine? then old(delivered) else old(delivered)[..|old(delivered)| - 1]
      ensures rejectToken == Some(t) && rejectLine == old(line) && line == old(line) - newlines - IsNewLine(t)
    {
      rejectToken := Some(t);
      rejectLine := line;
      line := line - newlines - IsNewLine(t);
      PushNewLines(newlines);
      Push(t);
      if !t.NewLine? {
        LastMoves(delivered, old(Rest()));
        delivered := delivered[..|delivered| - 1];
      }
    }

    /**
     Under every run of calls the tokens handed out are a prefix of the source, and the line number and the
     new-lines in the stack account for every new-line pulled from the source.
     */
    lemma Accounts()
      requires Valid()
      ensures delivered <= Strip(source)
      ensures line + CountNewLines(tokenBuffer) == 1 + CountNewLines(source[..it])
    {
      CountAppends(tokenBuffer, source[it..]);
      CountAppends(source[..it], source[it..]);
      assert source[..it] + source[it..] == source;
    }

    function RejectLine(): int
      reads this
    {
      if line < rejectLine then rejectLine else line
    }
  }
}
