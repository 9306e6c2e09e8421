/** The EDN reader as it runs: a lexer over a cursor with a line and a column, and a
    parser with one token of lookahead. */
module EdnParser {
  import opened Prelude
  import opened Edn

  class Lexer {
    const input: string
    var pos: nat
    var line: nat
    var col: nat

    constructor (input: string)
      ensures this.input == input && pos == 0 && Valid()
    {
      this.input := input;
      pos, line, col := 0, 1, 1;
    }

    /** The line and column are those of the cursor. */
    ghost predicate Valid()
      reads this
    {
      pos <= |input| && line == LineAt(input, pos) && col == ColAt(input, pos)
    }

    method Advance() returns (c: char)
      requires Valid() && pos < |input|
      modifies this
      ensures Valid() && pos == old(pos) + 1 && c == input[old(pos)]
    {
      c := input[pos];
      pos := pos + 1;
      if c == '\n' {
        line, col := line + 1, 1;
      } else {
        col := col + 1;
      }
    }

    /** skipWhitespaceAndComments. */
    method SkipBlanks()
      requires Valid()
      modifies this
      ensures Valid() && pos == Skip(input, old(pos))
    {
      while pos < |input| && (IsBlank(input[pos]) || input[pos] == ';')
        invariant Valid() && old(pos) <= pos && Skip(input, pos) == Skip(input, old(pos))
        decreases |input| - pos
      {
        if IsBlank(input[pos]) {
          var _ := Advance();
        } else {
          ghost var start := pos;
          while pos < |input| && input[pos] != '\n'
            invariant Valid() && start <= pos && LineEnd(input, pos) == LineEnd(input, start)
            decreases |input| - pos
          {
            var _ := Advance();
          }
        }
      }
    }

    method ReadString(line: nat, col: nat) returns (r: Result<Token, EdnError>)
      requires Valid() && pos < |input| && line == LineAt(input, pos) && col == ColAt(input, pos)
      modifies this
      ensures Valid()
      ensures match ScanString(input, old(pos), old(pos) + 1)
              case Ok((v, j)) => r == Ok(Token(Str, v, line, col)) && pos == j
              case Err(err) => r == Err(err)
    {
      hide LineAt, ColAt;
      ghost var q := pos;
      var _ := Advance();
      var buf := "";
      PrependNothing(ScanString(input, q, pos));
      while true
        invariant Valid() && q < pos
        invariant ScanString(input, q, q + 1) == Prepended(buf, ScanString(input, q, pos))
        decreases |input| - pos
      {
        if pos == |input| {
          return Err(UnterminatedString(line, col));
        }
        if input[pos] == '"' {
          var _ := Advance();
          assert buf + "" == buf;
          return Ok(Token(Str, buf, line, col));
        }
        ghost var rest := ScanString(input, q, pos);
        if input[pos] == '\\' {
          var _ := Advance();
          if pos == |input| {
            return Err(UnterminatedEscape(line, col));
          }
          var esc := Advance();
          PrependTwice(buf, Unescaped(esc), ScanString(input, q, pos));
          buf := buf + Unescaped(esc);
        } else {
          var c := Advance();
          PrependTwice(buf, [c], ScanString(input, q, pos));
          buf := buf + [c];
        }
      }
    }

    /** readAtom; called where no atom starts, it fails. */
    method ReadAtom(line: nat, col: nat) returns (r: Result<Token, EdnError>)
      requires Valid()
      modifies this
      ensures Valid() && pos == ScanAtom(input, old(pos))
      ensures r == if pos == old(pos) then Err(UnexpectedCharacter(line, col))
              else Ok(Token(Atom, input[old(pos)..pos], line, col))
    {
      var start := pos;
      while pos < |input| && !EndsAtom(input[pos])
        invariant Valid() && start <= pos && ScanAtom(input, pos) == ScanAtom(input, start)
        decreases |input| - pos
      {
        var _ := Advance();
      }
      if pos == start {
        return Err(UnexpectedCharacter(line, col));
      }
      return Ok(Token(Atom, input[start..pos], line, col));
    }

    method NextToken() returns (r: Result<Token, EdnError>)
      requires Valid()
      modifies this
      ensures Valid()
      ensures match Lex(input, old(pos))
              case Ok(l) => r == Ok(l.tok) && pos == l.next
              case Err(err) => r == Err(err)
    {
      hide LineAt, ColAt, ScanString;
      SkipBlanks();
      if pos == |input| {
        return Ok(Token(EOF, "", line, col));
      }
      var l, k, c := line, col, input[pos];
      var kind := Punctuation(c);
      if kind.Some? {
        var _ := Advance();
        return Ok(Token(kind.value, [c], l, k));
      }
      if c == '"' {
        r := ReadString(l, k);
        return;
      }
      AtomsAreNotEmpty(input, old(pos));
      r := ReadAtom(l, k);
    }
  }

  function Prepended(buf: string, r: Result<(string, nat), EdnError>): Result<(string, nat), EdnError> {
    match r
    case Ok((v, j)) => Ok((buf + v, j))
    case Err(err) => Err(err)
  }

  lemma {:induction false} PrependNothing(r: Result<(string, nat), EdnError>)
    ensures Prepended("", r) == r
  {
    assert r.Ok? ==> "" + r.value.0 == r.value.0;
  }

  lemma {:induction false} PrependTwice(a: string, b: string, r: Result<(string, nat), EdnError>)
    ensures Prepended(a, Prepended(b, r)) == Prepended(a + b, r)
  {
    if r.Ok? {
      assert a + (b + r.value.0) == a + b + r.value.0;
    }
  }

  function After(nodes: seq<Node>, r: Result<(seq<Node>, nat), EdnError>): Result<(seq<Node>, nat), EdnError> {
    match r
    case Ok((rest, j)) => Ok((nodes + rest, j))
    case Err(err) => Err(err)
  }

  lemma {:induction false} AfterNothing(r: Result<(seq<Node>, nat), EdnError>)
    ensures After([], r) == r
  {
    assert r.Ok? ==> [] + r.value.0 == r.value.0;
  }

  lemma {:induction false} AfterTwice(a: seq<Node>, b: seq<Node>, r: Result<(seq<Node>, nat), EdnError>)
    ensures After(a, After(b, r)) == After(a + b, r)
  {
    if r.Ok? {
      assert a + (b + r.value.0) == a + b + r.value.0;
    }
  }

  class Parser {
    const lexer: Lexer
    const pf: FloatParser
    var current: Token
    var peeked: bool
    ghost var at: nat       // where the next token is read from, whether or not it has been

    constructor (input: string, pf: FloatParser)
      ensures this.pf == pf && fresh(lexer) && lexer.input == input && Valid() && at == 0
    {
      lexer := new Lexer(input);
      this.pf := pf;
      current, peeked, at := Token(EOF, "", 0, 0), false, 0;
    }

    ghost predicate Valid()
      reads this, lexer
    {
      && lexer.Valid() && at <= |lexer.input|
      && (if peeked then Lex(lexer.input, at) == Ok(Lexed(current, lexer.pos)) else at == lexer.pos)
    }

    method NextToken() returns (r: Result<Token, EdnError>)
      requires Valid()
      modifies this, lexer
      ensures match Lex(lexer.input, old(at))
              case Ok(l) => r == Ok(l.tok) && Valid() && at == l.next
              case Err(err) => r == Err(err)
    {
      hide Lex, LineAt, ColAt;
      if peeked {
        peeked := false;
        at := lexer.pos;
        return Ok(current);
      }
      r := lexer.NextToken();
      if r.Ok? {
        current := r.value;
        at := lexer.pos;
      }
    }

    method PeekToken() returns (r: Result<Token, EdnError>)
      requires Valid()
      modifies this, lexer
      ensures at == old(at)
      ensures match Lex(lexer.input, at)
              case Ok(l) => r == Ok(l.tok) && Valid()
              case Err(err) => r == Err(err)
    {
      hide Lex, LineAt, ColAt;
      if peeked {
        return Ok(current);
      }
      r := lexer.NextToken();
      if r.Ok? {
        current := r.value;
        peeked := true;
      }
    }

    /** readNode. */
    method ReadNode() returns (r: Result<Node, EdnError>)
      requires Valid()
      modifies this, lexer
      ensures match Edn.ReadNode(lexer.input, old(at), pf)
              case Ok((n, j)) => r == Ok(n) && Valid() && at == j
              case Err(err) => r == Err(err)
      decreases |lexer.input| - at, 0
    {
      hide Lex, LineAt, ColAt, ClassifyAtom, Edn.ReadUntil;
      var t := NextToken();
      if t.Err? {
        return Err(t.error);
      }
      var tok := t.value;
      match tok.kind
      case EOF => return Err(UnexpectedEnd);
      case LParen => r := ReadCollection(NodeList, tok, RParen);
      case LBracket => r := ReadCollection(NodeVector, tok, RBracket);
      case LBrace => r := ReadCollection(NodeMap, tok, RBrace);
      case Hash =>
        var next := NextToken();
        if next.Err? {
          return Err(next.error);
        }
        if next.value.kind != LBrace {
          return Err(ExpectedBrace(next.value.line, next.value.col));
        }
        r := ReadCollection(NodeSet, tok, RBrace);
      case Str => return Ok(Node(NodeString, tok.value, 0, 0, [], tok.line, tok.col));
      case Atom => return Ok(ClassifyAtom(tok, pf));
      case RParen | RBracket | RBrace => return Err(UnexpectedClosing(tok.line, tok.col));
    }

    /** readList, readVector, readMap and readSet; a map needs an even number of elements. */
    method ReadCollection(kind: NodeKind, tok: Token, closing: Kind) returns (r: Result<Node, EdnError>)
      requires Valid()
      modifies this, lexer
      ensures match Closed(kind, tok, Edn.ReadUntil(lexer.input, old(at), closing, pf))
              case Ok((n, j)) => r == Ok(n) && Valid() && at == j
              case Err(err) => r == Err(err)
      decreases |lexer.input| - at, 2
    {
      hide Lex, LineAt, ColAt, Edn.ReadUntil;
      var children := ReadUntil(closing);
      if children.Err? {
        return Err(children.error);
      }
      if kind == NodeMap && |children.value| % 2 != 0 {
        return Err(OddMap(tok.line, tok.col));
      }
      return Ok(Collection(kind, tok, children.value));
    }

    /** readUntil. */
    method ReadUntil(closing: Kind) returns (r: Result<seq<Node>, EdnError>)
      requires Valid()
      modifies this, lexer
      ensures match Edn.ReadUntil(lexer.input, old(at), closing, pf)
              case Ok((ns, j)) => r == Ok(ns) && Valid() && at == j
              case Err(err) => r == Err(err)
      decreases |lexer.input| - at, 1
    {
      hide Lex, LineAt, ColAt, Edn.ReadNode;
      var children := [];
      AfterNothing(Edn.ReadUntil(lexer.input, at, closing, pf));
      while true
        invariant Valid() && old(at) <= at
        invariant Edn.ReadUntil(lexer.input, old(at), closing, pf)
                  == After(children, Edn.ReadUntil(lexer.input, at, closing, pf))
        decreases |lexer.input| - at
      {
        var t := PeekToken();
        if t.Err? {
          return Err(t.error);
        }
        if t.value.kind == EOF {
          return Err(UnexpectedEnd);
        }
        if t.value.kind == closing {
          var _ := NextToken();
          assert children + [] == children;
          return Ok(children);
        }
        var child := ReadNode();
        if child.Err? {
          return Err(child.error);
        }
        AfterTwice(children, [child.value], Edn.ReadUntil(lexer.input, at, closing, pf));
        children := children + [child.value];
      }
    }
  }

  /** Parse: the first value of a text. */
  method Parse(input: string, pf: FloatParser) returns (r: Result<Node, EdnError>)
    ensures match Edn.ReadNode(input, 0, pf)
            case Ok((n, _)) => r == Ok(n)
            case Err(err) => r == Err(err)
  {
    var p := new Parser(input, pf);
    r := p.ReadNode();
  }

  /** ParseAll: every value of a text. */
  method ParseAll(input: string, pf: FloatParser) returns (r: Result<seq<Node>, EdnError>)
    ensures r == ReadAll(input, 0, pf)
  {
    hide Lex, Edn.ReadNode;
    var p := new Parser(input, pf);
    var nodes := [];
    assert ReadAll(input, 0, pf).Ok? ==> nodes + ReadAll(input, 0, pf).value == ReadAll(input, 0, pf).value;
    while true
      invariant p.Valid() && p.lexer.input == input && p.pf == pf && fresh(p) && fresh(p.lexer)
      invariant ReadAll(input, 0, pf)
                == match ReadAll(input, p.at, pf) case Ok(rest) => Ok(nodes + rest) case Err(err) => Err(err)
      decreases |input| - p.at
    {
      var t := p.PeekToken();
      if t.Err? {
        return Err(t.error);
      }
      if t.value.kind == EOF {
        assert nodes + [] == nodes;
        return Ok(nodes);
      }
      var n := p.ReadNode();
      if n.Err? {
        return Err(n.error);
      }
      ghost var rest := ReadAll(input, p.at, pf);
      assert rest.Ok? ==> nodes + ([n.value] + rest.value) == nodes + [n.value] + rest.value;
      nodes := nodes + [n.value];
    }
  }
}
