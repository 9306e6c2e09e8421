/** The EDN lexer and parser (edn/lexer.go, edn/parser.go): what a text reads as, as
    functions of the text and a position, and the classes that compute it with a cursor
    and a one-token buffer. Text is a sequence of valid characters. */
module Edn {
  import opened Prelude

  // ---------------------------------------------------------------------
  // Positions
  // ---------------------------------------------------------------------

  /** The line and column of a position, counted from 1. */
  function LineAt(s: string, i: nat): nat
    requires i <= |s|
  {
    if i == 0 then 1 else LineAt(s, i - 1) + if s[i - 1] == '\n' then 1 else 0
  }

  function ColAt(s: string, i: nat): nat
    requires i <= |s|
  {
    if i == 0 || s[i - 1] == '\n' then 1 else ColAt(s, i - 1) + 1
  }

  // ---------------------------------------------------------------------
  // Tokens
  // ---------------------------------------------------------------------

  datatype Kind = EOF | LParen | RParen | LBracket | RBracket | LBrace | RBrace | Hash | Str | Atom

  datatype Token = Token(kind: Kind, value: string, line: nat, col: nat)

  datatype EdnError =
    | UnterminatedString(line: nat, col: nat)
    | UnterminatedEscape(line: nat, col: nat)
    | UnexpectedCharacter(line: nat, col: nat)
    | UnexpectedEnd
    | UnexpectedClosing(line: nat, col: nat)
    | ExpectedBrace(line: nat, col: nat)
    | OddMap(line: nat, col: nat)

  /** unicode.IsSpace: the code points with the White_Space property. */
  predicate IsSpace(c: char) {
    var n := c as int;
    9 <= n <= 13 || n == 32 || n == 0x85 || n == 0xA0 || n == 0x1680 || 0x2000 <= n <= 0x200A || n == 0x2028
      || n == 0x2029
    || n == 0x202F || n == 0x205F || n == 0x3000
  }

  predicate IsBlank(c: char) { IsSpace(c) || c == ',' }

  predicate IsDelimiter(c: char) {
    c == '(' || c == ')' || c == '[' || c == ']' || c == '{' || c == '}' || c == '"' || c == ';' || IsBlank(c)
  }

  predicate EndsAtom(c: char) { IsDelimiter(c) || c == '#' }

  /** The first newline at or after a position, or the end. */
  function LineEnd(s: string, i: nat): (j: nat)
    requires i <= |s|
    ensures i <= j <= |s| && (j < |s| ==> s[j] == '\n') && forall k :: i <= k < j ==> s[k] != '\n'
    decreases |s| - i
  {
    if i == |s| || s[i] == '\n' then i else LineEnd(s, i + 1)
  }

  /** Past white space, commas and comments. */
  function Skip(s: string, i: nat): (j: nat)
    requires i <= |s|
    ensures i <= j <= |s| && (j < |s| ==> !IsBlank(s[j]) && s[j] != ';')
    decreases |s| - i
  {
    if i == |s| then i
    else if IsBlank(s[i]) then Skip(s, i + 1)
    else if s[i] == ';' then Skip(s, LineEnd(s, i))
    else i
  }

  /** What an escaped character stands for; an unknown escape stands for itself. */
  function Unescaped(c: char): string {
    if c == '"' then "\"" else if c == '\\' then "\\" else if c == 'n' then "\n" else if c == 't' then "\t"
      else if c == 'r' then "\r"
    else ['\\', c]
  }

  /** The rest of a string whose opening quote is at q: its text and the end. */
  function ScanString(s: string, q: nat, i: nat): (r: Result<(string, nat), EdnError>)
    requires q < i <= |s|
    ensures r.Ok? ==> i < r.value.1 <= |s|
    decreases |s| - i
  {
    if i == |s| then Err(UnterminatedString(LineAt(s, q), ColAt(s, q)))
    else if s[i] == '"' then Ok(("", i + 1))
    else if s[i] == '\\' then
      if i + 1 == |s| then Err(UnterminatedEscape(LineAt(s, q), ColAt(s, q)))
      else match ScanString(s, q, i + 2)
        case Ok((rest, j)) => Ok((Unescaped(s[i + 1]) + rest, j))
        case Err(err) => Err(err)
    else match ScanString(s, q, i + 1)
      case Ok((rest, j)) => Ok(([s[i]] + rest, j))
      case Err(err) => Err(err)
  }

  function ScanAtom(s: string, i: nat): (j: nat)
    requires i <= |s|
    ensures i <= j <= |s| && (j < |s| ==> EndsAtom(s[j])) && forall k :: i <= k < j ==> !EndsAtom(s[k])
    decreases |s| - i
  {
    if i == |s| || EndsAtom(s[i]) then i else ScanAtom(s, i + 1)
  }

  function Punctuation(c: char): Option<Kind> {
    if c == '(' then Some(LParen) else if c == ')' then Some(RParen)
    else if c == '[' then Some(LBracket) else if c == ']' then Some(RBracket)
    else if c == '{' then Some(LBrace) else if c == '}' then Some(RBrace)
    else if c == '#' then Some(Hash) else None
  }

  datatype Lexed = Lexed(tok: Token, next: nat)

  /** The token that starts at a position. */
  function TokenAt(s: string, j: nat): (r: Result<Lexed, EdnError>)
    requires j < |s| && !IsBlank(s[j]) && s[j] != ';'
    ensures r.Ok? ==> j < r.value.next <= |s| && r.value.tok.kind != EOF
  {
    var line, col := LineAt(s, j), ColAt(s, j);
    if Punctuation(s[j]).Some? then Ok(Lexed(Token(Punctuation(s[j]).value, [s[j]], line, col), j + 1))
    else if s[j] == '"' then
      match ScanString(s, j, j + 1)
      case Ok((v, k)) => Ok(Lexed(Token(Str, v, line, col), k))
      case Err(err) => Err(err)
    else Ok(Lexed(Token(Atom, s[j..ScanAtom(s, j)], line, col), ScanAtom(s, j)))
  }

  /** The token at or after a position, and the position after it. */
  function Lex(s: string, i: nat): (r: Result<Lexed, EdnError>)
    requires i <= |s|
    ensures r.Ok? ==> i <= r.value.next <= |s| && (r.value.tok.kind != EOF ==> i < r.value.next)
  {
    var j := Skip(s, i);
    if j == |s| then Ok(Lexed(Token(EOF, "", LineAt(s, j), ColAt(s, j)), j)) else TokenAt(s, j)
  }

  // ---------------------------------------------------------------------
  // Nodes
  // ---------------------------------------------------------------------

  datatype NodeKind =
    | NodeNil | NodeBool | NodeInt | NodeFloat | NodeString | NodeSymbol | NodeKeyword
    | NodeList | NodeVector | NodeMap | NodeSet

  datatype Node = Node(kind: NodeKind, value: string, intVal: int, floatVal: nat, children: seq<Node>, line: nat,
                       col: nat)

  predicate IsDigit(c: char) { '0' <= c <= '9' }

  function Digits(v: string): int
    requires forall c :: c in v ==> IsDigit(c)
  {
    if v == "" then 0 else 10 * Digits(v[..|v| - 1]) + (v[|v| - 1] as int - '0' as int)
  }

  /** strconv.ParseInt(v, 10, 64). */
  function ParseInt(v: string): Option<int> {
    var signed := v != "" && (v[0] == '-' || v[0] == '+');
    var ds := if signed then v[1..] else v;
    if ds == "" || exists k :: 0 <= k < |ds| && !IsDigit(ds[k]) then None
    else
      assert forall c :: c in ds ==> IsDigit(c);
      var n := if signed && v[0] == '-' then -Digits(ds) else Digits(ds);
      if -0x8000_0000_0000_0000 <= n < 0x8000_0000_0000_0000 then Some(n) else None
  }

  /** strconv.ParseFloat, whose grammar is not part of this model. */
  type FloatParser = string -> Option<nat>

  function ClassifyAtom(tok: Token, pf: FloatParser): Node {
    var v := tok.value;
    if v == "nil" then Node(NodeNil, v, 0, 0, [], tok.line, tok.col)
    else if v == "true" || v == "false" then Node(NodeBool, v, 0, 0, [], tok.line, tok.col)
    else if v != "" && v[0] == ':' then Node(NodeKeyword, v, 0, 0, [], tok.line, tok.col)
    else if ParseInt(v).Some? then Node(NodeInt, v, ParseInt(v).value, 0, [], tok.line, tok.col)
    else if pf(v).Some? then Node(NodeFloat, v, 0, pf(v).value, [], tok.line, tok.col)
    else Node(NodeSymbol, v, 0, 0, [], tok.line, tok.col)
  }

  // ---------------------------------------------------------------------
  // Parsing
  // ---------------------------------------------------------------------

  function Collection(kind: NodeKind, tok: Token, children: seq<Node>): Node {
    Node(kind, "", 0, 0, children, tok.line, tok.col)
  }

  /** A collection and its closing delimiter. */
  function Opened(k: Kind): Option<(NodeKind, Kind)> {
    match k
    case LParen => Some((NodeList, RParen))
    case LBracket => Some((NodeVector, RBracket))
    case LBrace => Some((NodeMap, RBrace))
    case _ => None
  }

  function Closed(kind: NodeKind, tok: Token, r: Result<(seq<Node>, nat), EdnError>): Result<(Node, nat), EdnError> {
    match r
    case Err(err) => Err(err)
    case Ok((children, j)) =>
      if kind == NodeMap && |children| % 2 != 0 then Err(OddMap(tok.line, tok.col))
        else Ok((Collection(kind, tok, children), j))
  }

  /** The node that starts at or after a position, and the position after it. */
  function ReadNode(s: string, i: nat, pf: FloatParser): (r: Result<(Node, nat), EdnError>)
    requires i <= |s|
    ensures r.Ok? ==> i < r.value.1 <= |s|
    decreases |s| - i, 0
  {
    match Lex(s, i)
    case Err(err) => Err(err)
    case Ok(Lexed(tok, next)) =>
      if tok.kind == EOF then Err(UnexpectedEnd)
      else if Opened(tok.kind).Some? then
        var (kind, closing) := Opened(tok.kind).value;
        Closed(kind, tok, ReadUntil(s, next, closing, pf))
      else match tok.kind
        case Hash =>
          (match Lex(s, next)
           case Err(err) => Err(err)
           case Ok(Lexed(brace, after)) =>
             if brace.kind != LBrace then Err(ExpectedBrace(brace.line, brace.col))
             else Closed(NodeSet, tok, ReadUntil(s, after, RBrace, pf)))
        case Str => Ok((Node(NodeString, tok.value, 0, 0, [], tok.line, tok.col), next))
        case Atom => Ok((ClassifyAtom(tok, pf), next))
        case _ => Err(UnexpectedClosing(tok.line, tok.col))
  }

  /** The nodes up to a closing delimiter, and the position after it. */
  function ReadUntil(s: string, i: nat, closing: Kind, pf: FloatParser): (r: Result<(seq<Node>, nat), EdnError>)
    requires i <= |s|
    ensures r.Ok? ==> i <= r.value.1 <= |s|
    decreases |s| - i, 1
  {
    match Lex(s, i)
    case Err(err) => Err(err)
    case Ok(Lexed(tok, next)) =>
      if tok.kind == EOF then Err(UnexpectedEnd)
      else if tok.kind == closing then Ok(([], next))
      else match ReadNode(s, i, pf)
        case Err(err) => Err(err)
        case Ok((n, j)) =>
          match ReadUntil(s, j, closing, pf)
          case Err(err) => Err(err)
          case Ok((rest, k)) => Ok(([n] + rest, k))
  }

  /** All nodes from a position to the end. */
  function ReadAll(s: string, i: nat, pf: FloatParser): Result<seq<Node>, EdnError>
    requires i <= |s|
    decreases |s| - i
  {
    match Lex(s, i)
    case Err(err) => Err(err)
    case Ok(Lexed(tok, _)) =>
      if tok.kind == EOF then Ok([])
      else match ReadNode(s, i, pf)
        case Err(err) => Err(err)
        case Ok((n, j)) =>
          match ReadAll(s, j, pf)
          case Err(err) => Err(err)
          case Ok(rest) => Ok([n] + rest)
  }

  /** The error of an empty atom is never reported: what starts an atom does not end it. */
  lemma {:induction false} AtomsAreNotEmpty(s: string, i: nat)
    requires i <= |s|
    ensures Lex(s, i).Ok? ==> Lex(s, i).value.tok.kind == Atom ==> Lex(s, i).value.tok.value != ""
    ensures Lex(s, i).Err? ==> !Lex(s, i).error.UnexpectedCharacter?
  {
    var j := Skip(s, i);
    if j < |s| && Punctuation(s[j]).None? {
      if s[j] == '"' {
        StringErrors(s, j, j + 1);
      } else {
        assert !EndsAtom(s[j]);
      }
    }
  }

  lemma {:induction false} StringErrors(s: string, q: nat, i: nat)
    requires q < i <= |s|
    ensures ScanString(s, q, i).Err? ==> !ScanString(s, q, i).error.UnexpectedCharacter?
    decreases |s| - i
  {
    if i < |s| && s[i] != '"' {
      if s[i] != '\\' {
        StringErrors(s, q, i + 1);
      } else if i + 1 < |s| {
        StringErrors(s, q, i + 2);
      }
    }
  }
}
