/** Printing trees, with any white space and comments between their elements, and reading
    them back. */
module EdnPrint {
  import opened Prelude
  import opened Edn
  import opened EdnCompose

  // ---------------------------------------------------------------------
  // Trees and their text
  // ---------------------------------------------------------------------

  /** What may stand between elements. */
  datatype Piece = Space | Tab | Newline | Return | Comma | Comment(text: string)

  type Gap = seq<Piece>

  /** An element, and what stands before it. */
  datatype Item = Item(gap: Gap, tree: Tree)

  datatype Tree =
    | TNil
    | TBool(b: bool)
    | TInt(n: int)
    | TStr(v: string)
    | TFloat(v: string, x: nat) // a text that the float parser reads as x
    | TKeyword(v: string)
    | TSymbol(v: string)
    | TColl(kind: NodeKind, elements: seq<Item>, last: Gap)

  function PieceText(p: Piece): string {
    match p
    case Space => " "
    case Tab => "\t"
    case Newline => "\n"
    case Return => "\r"
    case Comma => ","
    case Comment(c) => ";" + c + "\n"
  }

  function GapText(g: Gap): string {
    if g == [] then "" else PieceText(g[0]) + GapText(g[1..])
  }

  /** A comment ends with its line. */
  predicate GapOK(g: Gap) {
    forall p :: p in g && p.Comment? ==> '\n' !in p.text
  }

  function NatText(n: nat): string {
    if n < 10 then [('0' as int + n) as char] else NatText(n / 10) + [('0' as int + n % 10) as char]
  }

  function IntText(n: int): string {
    if n < 0 then "-" + NatText(-n) else NatText(n)
  }

  function Escaped(c: char): string {
    if c == '"' then "\\\"" else if c == '\\' then "\\\\" else if c == '\n' then "\\n" else if c == '\t' then "\\t"
      else if c == '\r' then "\\r"
    else [c]
  }

  function EscapedAll(v: string): string {
    if v == "" then "" else Escaped(v[0]) + EscapedAll(v[1..])
  }

  predicate AtomText(v: string) {
    v != "" && forall k :: 0 <= k < |v| ==> !EndsAtom(v[k])
  }

  predicate IsCollection(kind: NodeKind) {
    kind == NodeList || kind == NodeVector || kind == NodeMap || kind == NodeSet
  }

  /** An atom that reads as none of nil, the booleans, keywords and integers. */
  predicate PlainAtom(v: string) {
    AtomText(v) && v[0] != ':' && v != "nil" && v != "true" && v != "false" && ParseInt(v).None?
  }

  /** Trees whose text means what it says: a symbol is not the text of something else. */
  predicate ValidTree(t: Tree, pf: FloatParser)
    decreases t
  {
    match t
    case TNil | TBool(_) | TStr(_) => true
    case TInt(n) => -0x8000_0000_0000_0000 <= n < 0x8000_0000_0000_0000
    case TKeyword(v) => AtomText(v) && v[0] == ':'
    case TFloat(v, x) => PlainAtom(v) && pf(v) == Some(x)
    case TSymbol(v) => PlainAtom(v) && pf(v).None?
    case TColl(kind, ts, last) =>
      IsCollection(kind) && (kind == NodeMap ==> |ts| % 2 == 0) && ValidItems(ts, pf) && GapOK(last)
  }

  predicate IsAtom(t: Tree) { !t.TStr? && !t.TColl? }

  /** Two atoms need something between them. */
  predicate ValidItems(ts: seq<Item>, pf: FloatParser)
    decreases ts
  {
    ts == [] || (GapOK(ts[0].gap) && ValidTree(ts[0].tree, pf) && ValidItems(ts[1..], pf)
                 && (|ts| > 1 && IsAtom(ts[0].tree) && IsAtom(ts[1].tree) ==> ts[1].gap != []))
  }

  function Opening(kind: NodeKind): string {
    if kind == NodeList then "(" else if kind == NodeVector then "[" else if kind == NodeMap then "{" else "#{"
  }

  function ClosingKind(kind: NodeKind): Kind {
    if kind == NodeList then RParen else if kind == NodeVector then RBracket else RBrace
  }

  function ClosingChar(k: Kind): char {
    if k == RParen then ')' else if k == RBracket then ']' else '}'
  }

  function Print(t: Tree): string
    decreases t
  {
    match t
    case TNil => "nil"
    case TBool(b) => if b then "true" else "false"
    case TInt(n) => IntText(n)
    case TStr(v) => "\"" + EscapedAll(v) + "\""
    case TFloat(v, _) => v
    case TKeyword(v) => v
    case TSymbol(v) => v
    case TColl(kind, ts, last) => Opening(kind) + PrintAll(ts) + GapText(last) + [ClosingChar(ClosingKind(kind))]
  }

  function PrintAll(ts: seq<Item>): string
    decreases ts
  {
    if ts == [] then "" else GapText(ts[0].gap) + Print(ts[0].tree) + PrintAll(ts[1..])
  }

  /** The node of a tree, without positions. */
  function NodeOf(t: Tree): Node
    decreases t
  {
    match t
    case TNil => Node(NodeNil, "nil", 0, 0, [], 0, 0)
    case TBool(b) => Node(NodeBool, if b then "true" else "false", 0, 0, [], 0, 0)
    case TInt(n) => Node(NodeInt, IntText(n), n, 0, [], 0, 0)
    case TStr(v) => Node(NodeString, v, 0, 0, [], 0, 0)
    case TFloat(v, x) => Node(NodeFloat, v, 0, x, [], 0, 0)
    case TKeyword(v) => Node(NodeKeyword, v, 0, 0, [], 0, 0)
    case TSymbol(v) => Node(NodeSymbol, v, 0, 0, [], 0, 0)
    case TColl(kind, ts, _) => Node(kind, "", 0, 0, NodesOf(ts), 0, 0)
  }

  function NodesOf(ts: seq<Item>): (r: seq<Node>)
    ensures |r| == |ts|
    decreases ts
  {
    if ts == [] then [] else [NodeOf(ts[0].tree)] + NodesOf(ts[1..])
  }

  // ---------------------------------------------------------------------
  // Integers
  // ---------------------------------------------------------------------

  lemma {:induction false} NatTextReads(n: nat)
    ensures NatText(n) != "" && (forall k :: 0 <= k < |NatText(n)| ==> IsDigit(NatText(n)[k]))
    ensures (forall c :: c in NatText(n) ==> IsDigit(c)) && Digits(NatText(n)) == n
  {
    var v := NatText(n);
    if n >= 10 {
      NatTextReads(n / 10);
      assert v[..|v| - 1] == NatText(n / 10);
    } else {
      assert v[..0] == "";
    }
  }

  lemma {:induction false} SignedReads(ds: string, negative: bool)
    requires ds != "" && (forall k :: 0 <= k < |ds| ==> IsDigit(ds[k])) && (forall c :: c in ds ==> IsDigit(c))
    requires var n := if negative then -Digits(ds) else Digits(ds); -0x8000_0000_0000_0000 <= n < 0x8000_0000_0000_0000
    ensures ParseInt((if negative then "-" else "") + ds) == Some(if negative then -Digits(ds) else Digits(ds))
  {
    hide Digits;
    var v := (if negative then "-" else "") + ds;
    assert negative ==> v[1..] == ds;
    assert !negative ==> v == ds;
  }

  lemma {:induction false} SignedIsAtom(ds: string, negative: bool)
    requires ds != "" && (forall k :: 0 <= k < |ds| ==> IsDigit(ds[k]))
    ensures var v := (if negative then "-" else "") + ds;
            AtomText(v) && v[0] != ':' && v != "nil" && v != "true" && v != "false"
  {
    var v := (if negative then "-" else "") + ds;
    forall k | 0 <= k < |v| ensures v[k] == '-' || IsDigit(v[k]) {
      assert !negative ==> v == ds;
      assert negative && k > 0 ==> v[k] == ds[k - 1];
    }
  }

  lemma {:induction false} IntTextReads(n: int)
    requires -0x8000_0000_0000_0000 <= n < 0x8000_0000_0000_0000
    ensures ParseInt(IntText(n)) == Some(n) && AtomText(IntText(n)) && IntText(n)[0] != ':'
    ensures IntText(n) != "nil" && IntText(n) != "true" && IntText(n) != "false"
  {
    var m := if n < 0 then -n else n;
    NatTextReads(m);
    var ds := NatText(m);
    assert IntText(n) == (if n < 0 then "-" else "") + ds;
    hide NatText, Digits, IntText, ParseInt, AtomText, IsDigit;
    SignedReads(ds, n < 0);
    SignedIsAtom(ds, n < 0);
  }

  /** A plus sign changes nothing, and a number that int64 cannot hold is no integer. */
  lemma {:induction false} DecimalReads(n: nat)
    ensures ReadsWithin(NatText(n), n, n < 0x8000_0000_0000_0000)
    ensures ReadsWithin("+" + NatText(n), n, n < 0x8000_0000_0000_0000)
    ensures ReadsWithin("-" + NatText(n), 0 - n, n <= 0x8000_0000_0000_0000)
  {
    hide ParseInt;
    NatTextReads(n);
    var ds := NatText(n);
    hide NatText;
    SignRead(ds, "");
    SignRead(ds, "+");
    SignRead(ds, "-");
    assert "" + ds == ds;
  }

  predicate ReadsWithin(v: string, n: int, fits: bool) {
    ParseInt(v) == if fits then Some(n) else None
  }

  lemma {:induction false} SignRead(ds: string, sign: string)
    requires ds != "" && (forall k :: 0 <= k < |ds| ==> IsDigit(ds[k])) && (forall c :: c in ds ==> IsDigit(c))
    requires sign == "" || sign == "+" || sign == "-"
    ensures var n := if sign == "-" then -Digits(ds) else Digits(ds);
            ParseInt(sign + ds) == if -0x8000_0000_0000_0000 <= n < 0x8000_0000_0000_0000 then Some(n) else None
  {
    hide Digits;
    var v := sign + ds;
    if sign == "" {
      assert v == ds && IsDigit(ds[0]);
    } else {
      assert v[0] == sign[0] && v[1..] == ds;
    }
  }

  /** The printable characters that end an atom. */
  lemma {:induction false} PrintableEnds(c: char)
    ensures '!' <= c <= '~' ==> (EndsAtom(c) <==> c in "()[]{}\";,#")
    ensures c <= ' ' ==> (EndsAtom(c) <==> c in "\t\n\r " || c as int == 11 || c as int == 12)
  {
  }

  // ---------------------------------------------------------------------
  // Reading printed text
  // ---------------------------------------------------------------------

  /** The text of s from i on is v and then rest. */
  predicate TextAt(s: string, i: nat, v: string, rest: string) {
    i <= |s| && s[i..] == v + rest
  }

  lemma {:induction false} TextAfter(s: string, i: nat, a: string, b: string, rest: string)
    requires TextAt(s, i, a + b, rest)
    ensures TextAt(s, i, a, b + rest) && i + |a| <= |s| && TextAt(s, i + |a|, b, rest)
  {
    assert a + b + rest == a + (b + rest);
    assert s[i + |a|..] == s[i..][|a|..];
  }

  lemma {:induction false} CharAt(s: string, i: nat, v: string, rest: string, k: nat)
    requires TextAt(s, i, v, rest) && k < |v|
    ensures i + k < |s| && s[i + k] == v[k]
  {
    assert s[i + k] == s[i..][k] == (v + rest)[k];
  }

  predicate Ended(rest: string) { rest == "" || EndsAtom(rest[0]) }

  lemma {:induction false} EscapeReads(c: char)
    ensures Escaped(c) == [c] ==> c != '"' && c != '\\'
    ensures Escaped(c) != [c] ==> |Escaped(c)| == 2 && Escaped(c)[0] == '\\' && Unescaped(Escaped(c)[1]) == [c]
  {
  }

  lemma {:induction false} StringReads(s: string, q: nat, i: nat, v: string, rest: string)
    requires q < i && TextAt(s, i, EscapedAll(v) + "\"", rest)
    ensures ScanString(s, q, i) == Ok((v, i + |EscapedAll(v)| + 1))
    decreases |v|
  {
    hide LineAt, ColAt, Unescaped, Escaped;
    if v == "" {
      CharAt(s, i, "\"", rest, 0);
    } else {
      var e, more := Escaped(v[0]), EscapedAll(v[1..]) + "\"";
      EscapeReads(v[0]);
      assert EscapedAll(v) + "\"" == e + more;
      CharAt(s, i, e + more, rest, 0);
      if e != [v[0]] {
        CharAt(s, i, e + more, rest, 1);
      }
      TextAfter(s, i, e, more, rest);
      hide TextAt;
      StringReads(s, q, i + |e|, v[1..], rest);
      assert [v[0]] + v[1..] == v;
    }
  }

  /** An escape that is none stands for itself, backslash and all. */
  lemma {:induction false} UnknownEscape(s: string, q: nat, i: nat, c: char, v: string, rest: string)
    requires q < i && TextAt(s, i, ['\\', c] + (EscapedAll(v) + "\""), rest)
    requires c != '"' && c != '\\' && c != 'n' && c != 't' && c != 'r'
    ensures ScanString(s, q, i) == Ok((['\\', c] + v, i + 2 + |EscapedAll(v)| + 1))
  {
    var e, more := ['\\', c], EscapedAll(v) + "\"";
    hide TextAt, EscapedAll, LineAt, ColAt;
    CharAt(s, i, e + more, rest, 0);
    CharAt(s, i, e + more, rest, 1);
    TextAfter(s, i, e, more, rest);
    StringReads(s, q, i + 2, v, rest);
  }

  lemma {:induction false} AtomEnd(s: string, i: nat, v: string, rest: string, k: nat)
    requires TextAt(s, i, v, rest) && AtomText(v) && Ended(rest) && k <= |v|
    ensures ScanAtom(s, i + k) == i + |v|
    decreases |v| - k
  {
    if k < |v| {
      CharAt(s, i, v, rest, k);
      AtomEnd(s, i, v, rest, k + 1);
    } else {
      assert i + |v| <= |s| && s[i + |v|..] == rest by { assert s[i + |v|..] == s[i..][|v|..]; }
      assert rest != "" ==> s[i + |v|] == rest[0] by { assert rest != "" ==> s[i + |v|] == s[i + |v|..][0]; }
    }
  }

  lemma {:induction false} AtomReads(s: string, i: nat, v: string, rest: string)
    requires TextAt(s, i, v, rest) && AtomText(v) && Ended(rest)
    ensures Lex(s, i) == Ok(Lexed(Token(Atom, v, LineAt(s, i), ColAt(s, i)), i + |v|))
  {
    CharAt(s, i, v, rest, 0);
    AtomEnd(s, i, v, rest, 0);
    assert s[i..i + |v|] == s[i..][..|v|] == v;
    hide LineAt, ColAt, ScanString, ScanAtom;
    assert !EndsAtom(v[0]);
    assert Skip(s, i) == i;
  }

  lemma {:induction false} PunctuationReads(s: string, i: nat, k: Kind)
    requires i < |s| && Punctuation(s[i]) == Some(k)
    ensures Lex(s, i) == Ok(Lexed(Token(k, [s[i]], LineAt(s, i), ColAt(s, i)), i + 1))
  {
    hide LineAt, ColAt, ScanString, ScanAtom;
    assert Skip(s, i) == i;
  }

  lemma {:induction false} AtomClassified(t: Tree, pf: FloatParser, line: nat, col: nat)
    requires ValidTree(t, pf) && IsAtom(t)
    ensures AtomText(Print(t))
            && ClassifyAtom(Token(Atom, Print(t), line, col), pf) == NodeOf(t).(line := line, col := col)
  {
    match t
    case TInt(n) =>
      IntTextReads(n);
      hide IntText, ParseInt;
    case _ =>
  }

  /** Closing delimiters and the end are never read as a node. */
  lemma {:induction false} NodesStart(s: string, i: nat, pf: FloatParser)
    requires i <= |s| && ReadNode(s, i, pf).Ok?
    ensures Lex(s, i).Ok? && var k := Lex(s, i).value.tok.kind; k != EOF && k != RParen && k != RBracket && k != RBrace
  {
    hide Lex, ReadUntil;
  }

  predicate ReadsAs(r: Result<(Node, nat), EdnError>, t: Tree, end: nat) {
    r.Ok? && Shape(r.value.0) == NodeOf(t) && r.value.1 == end
  }

  predicate ReadsAllAs(r: Result<(seq<Node>, nat), EdnError>, ts: seq<Item>, end: nat) {
    r.Ok? && Shapes(r.value.0) == NodesOf(ts) && r.value.1 == end
  }

  lemma {:induction false} StringTree(s: string, i: nat, v: string, rest: string, pf: FloatParser)
    requires TextAt(s, i, Print(TStr(v)), rest)
    ensures ReadsAs(ReadNode(s, i, pf), TStr(v), i + |Print(TStr(v))|)
  {
    var body := EscapedAll(v) + "\"";
    hide *;
    PrintString(v, body);
    QuotedReads(s, i, v, body, rest);
    StringToken(s, i, v, i + |body| + 1);
    StringNode(s, i, v, i + |body| + 1, pf);
  }

  lemma {:induction false} PrintString(v: string, body: string)
    requires body == EscapedAll(v) + "\""
    ensures Print(TStr(v)) == "\"" + body && |Print(TStr(v))| == |body| + 1
  {
    hide EscapedAll;
  }

  lemma {:induction false} QuotedReads(s: string, i: nat, v: string, body: string, rest: string)
    requires body == EscapedAll(v) + "\"" && TextAt(s, i, "\"" + body, rest)
    ensures i < |s| && s[i] == '"' && ScanString(s, i, i + 1) == Ok((v, i + |body| + 1))
  {
    hide EscapedAll, ScanString;
    CharAt(s, i, "\"" + body, rest, 0);
    TextAfter(s, i, "\"", body, rest);
    StringReads(s, i, i + 1, v, rest);
  }

  lemma {:induction false} StringNode(s: string, i: nat, v: string, end: nat, pf: FloatParser)
    requires i < |s| && Lex(s, i) == Ok(Lexed(Token(Str, v, LineAt(s, i), ColAt(s, i)), end))
    ensures ReadsAs(ReadNode(s, i, pf), TStr(v), end)
  {
    hide Lex, LineAt, ColAt;
  }

  lemma {:induction false} StringToken(s: string, i: nat, v: string, end: nat)
    requires i < |s| && s[i] == '"' && ScanString(s, i, i + 1) == Ok((v, end))
    ensures Lex(s, i) == Ok(Lexed(Token(Str, v, LineAt(s, i), ColAt(s, i)), end))
  {
    hide LineAt, ColAt, ScanString, ScanAtom;
    assert Skip(s, i) == i;
  }

  lemma {:induction false} AtomTree(s: string, i: nat, t: Tree, rest: string, pf: FloatParser)
    requires TextAt(s, i, Print(t), rest) && Ended(rest) && ValidTree(t, pf) && IsAtom(t)
    ensures ReadsAs(ReadNode(s, i, pf), t, i + |Print(t)|)
  {
    AtomClassified(t, pf, LineAt(s, i), ColAt(s, i));
    AtomReads(s, i, Print(t), rest);
    hide Lex, LineAt, ColAt, ClassifyAtom, Print, AtomText, TextAt, ValidTree, Ended;
    ShapeOfLeaf(NodeOf(t), LineAt(s, i), ColAt(s, i));
  }

  lemma {:induction false} ShapeOfLeaf(n: Node, line: nat, col: nat)
    requires n.children == [] && n.line == 0 && n.col == 0
    ensures Shape(n.(line := line, col := col)) == n
  {
  }

  function Size(t: Tree): nat
    decreases t
  {
    if t.TColl? then 1 + Sizes(t.elements) else 1
  }

  function Sizes(ts: seq<Item>): nat
    decreases ts
  {
    if ts == [] then 0 else Size(ts[0].tree) + Sizes(ts[1..])
  }

  /** A tree's text reads as the tree, wherever it stands; an atom's before something that
      ends an atom. */
  lemma {:induction false} TreeReads(s: string, i: nat, t: Tree, rest: string, pf: FloatParser)
    requires TextAt(s, i, Print(t), rest) && (IsAtom(t) ==> Ended(rest)) && ValidTree(t, pf)
    ensures ReadsAs(ReadNode(s, i, pf), t, i + |Print(t)|)
    decreases Size(t), 0
  {
    hide *;
    TreeCases(t);
    if t.TColl? {
      SizeColl(t);
      ValidColl(t, pf);
      PrintColl(t.kind, t.elements, t.last);
      CollTree(s, i, t.kind, t.elements, t.last, rest, pf);
    } else if t.TStr? {
      StringTree(s, i, t.v, rest, pf);
    } else {
      AtomTree(s, i, t, rest, pf);
    }
  }

  lemma {:induction false} SizeColl(t: Tree)
    requires t.TColl?
    ensures Sizes(t.elements) < Size(t) && t == TColl(t.kind, t.elements, t.last)
  {
  }

  lemma {:induction false} TreeCases(t: Tree)
    ensures IsAtom(t) <==> !t.TColl? && !t.TStr?
  {
  }

  lemma {:induction false} CollTree(s: string, i: nat, kind: NodeKind, ts: seq<Item>, last: Gap, rest: string,
                                    pf: FloatParser)
    requires TextAt(s, i, Opening(kind) + (PrintAll(ts) + Tail(last, ClosingKind(kind))), rest)
    requires IsCollection(kind) && (kind == NodeMap ==> |ts| % 2 == 0) && ValidItems(ts, pf) && GapOK(last)
    ensures ReadsAs(ReadNode(s, i, pf), TColl(kind, ts, last),
                    i + |Opening(kind)| + |PrintAll(ts)| + |Tail(last, ClosingKind(kind))|)
    decreases Sizes(ts), 4
  {
    var tail := PrintAll(ts) + Tail(last, ClosingKind(kind));
    hide *;
    TextAfter(s, i, Opening(kind), tail, rest);
    ClosingKinds(kind);
    TreesRead(s, i + |Opening(kind)|, ts, last, ClosingKind(kind), rest, pf);
    CollectionReads(s, i, kind, ts, last, tail, rest, pf,
                    i + |Opening(kind)| + |PrintAll(ts)| + |Tail(last, ClosingKind(kind))|);
  }

  lemma {:induction false} ClosingKinds(kind: NodeKind)
    ensures ClosingKind(kind) == RParen || ClosingKind(kind) == RBracket || ClosingKind(kind) == RBrace
  {
  }

  lemma {:induction false} ValidColl(t: Tree, pf: FloatParser)
    requires t.TColl? && ValidTree(t, pf)
    ensures IsCollection(t.kind) && (t.kind == NodeMap ==> |t.elements| % 2 == 0) && ValidItems(t.elements, pf)
            && GapOK(t.last)
  {
  }

  /** What stands behind the last element. */
  function Tail(last: Gap, close: Kind): string { GapText(last) + [ClosingChar(close)] }

  lemma {:induction false} PrintColl(kind: NodeKind, ts: seq<Item>, last: Gap)
    ensures Print(TColl(kind, ts, last)) == Opening(kind) + (PrintAll(ts) + Tail(last, ClosingKind(kind)))
    ensures |Print(TColl(kind, ts, last))| == |Opening(kind)| + |PrintAll(ts)| + |Tail(last, ClosingKind(kind))|
  {
    hide PrintAll, Opening, GapText;
  }

  lemma {:induction false} SetChars(s: string, i: nat, rest: string)
    requires TextAt(s, i, "#{", rest)
    ensures i + 2 <= |s| && s[i] == '#' && s[i + 1] == '{'
  {
    CharAt(s, i, "#{", rest, 0);
    CharAt(s, i, "#{", rest, 1);
  }

  lemma {:induction false} TwoTokens(s: string, i: nat, hash: Token, brace: Token, pf: FloatParser)
    requires i + 2 <= |s| && hash.kind == Hash && brace.kind == LBrace
    requires Lex(s, i) == Ok(Lexed(hash, i + 1)) && Lex(s, i + 1) == Ok(Lexed(brace, i + 2))
    ensures ReadNode(s, i, pf) == Closed(NodeSet, hash, ReadUntil(s, i + 2, RBrace, pf))
  {
    hide Lex, ReadUntil, Closed;
  }

  lemma {:induction false} OpensSet(s: string, i: nat, rest: string, pf: FloatParser) returns (tok: Token)
    requires TextAt(s, i, "#{", rest)
    ensures i + 2 <= |s| && ReadNode(s, i, pf) == Closed(NodeSet, tok, ReadUntil(s, i + 2, RBrace, pf))
  {
    hide Lex, ReadUntil, ReadNode, TextAt, LineAt, ColAt, Closed;
    SetChars(s, i, rest);
    PunctuationReads(s, i, Hash);
    PunctuationReads(s, i + 1, LBrace);
    tok := Token(Hash, [s[i]], LineAt(s, i), ColAt(s, i));
    TwoTokens(s, i, tok, Token(LBrace, [s[i + 1]], LineAt(s, i + 1), ColAt(s, i + 1)), pf);
  }

  lemma {:induction false} OpensOther(s: string, i: nat, kind: NodeKind, open: Kind, close: Kind, pf: FloatParser)
                                      returns (tok: Token)
    requires i < |s| && Punctuation(s[i]) == Some(open) && Opened(open) == Some((kind, close))
    ensures tok.line == LineAt(s, i) && tok.col == ColAt(s, i)
    ensures ReadNode(s, i, pf) == Closed(kind, tok, ReadUntil(s, i + 1, close, pf))
  {
    PunctuationReads(s, i, open);
    hide Lex, ReadUntil, LineAt, ColAt, Closed, Punctuation;
    tok := Token(open, [s[i]], LineAt(s, i), ColAt(s, i));
  }

  /** An opening delimiter starts its collection; a set's is two tokens. */
  lemma {:induction false} Opens(s: string, i: nat, kind: NodeKind, rest: string, pf: FloatParser) returns (tok: Token)
    requires IsCollection(kind) && TextAt(s, i, Opening(kind), rest)
    ensures i + |Opening(kind)| <= |s|
    ensures ReadNode(s, i, pf) == Closed(kind, tok, ReadUntil(s, i + |Opening(kind)|, ClosingKind(kind), pf))
  {
    hide Lex, ReadUntil, ReadNode, TextAt, Closed;
    CharAt(s, i, Opening(kind), rest, 0);
    if kind == NodeSet {
      tok := OpensSet(s, i, rest, pf);
    } else {
      tok := OpensOther(s, i, kind, if kind == NodeList then LParen else if kind == NodeVector then LBracket
                        else LBrace, ClosingKind(kind), pf);
    }
  }

  lemma {:induction false} ClosedReads(kind: NodeKind, tok: Token, r: Result<(seq<Node>, nat), EdnError>,
                                       ts: seq<Item>, last: Gap, end: nat)
    requires (kind == NodeMap ==> |ts| % 2 == 0) && ReadsAllAs(r, ts, end)
    ensures ReadsAs(Closed(kind, tok, r), TColl(kind, ts, last), end)
  {
    assert |Shapes(r.value.0)| == |r.value.0|;
    hide Shapes, NodesOf;
  }

  lemma {:induction false} CollectionReads(s: string, i: nat, kind: NodeKind, ts: seq<Item>, last: Gap,
                                           tail: string, rest: string, pf: FloatParser, end: nat)
    requires IsCollection(kind) && (kind == NodeMap ==> |ts| % 2 == 0) && TextAt(s, i, Opening(kind), tail + rest)
    requires i + |Opening(kind)| <= |s| && ReadsAllAs(ReadUntil(s, i + |Opening(kind)|, ClosingKind(kind), pf), ts, end)
    ensures ReadsAs(ReadNode(s, i, pf), TColl(kind, ts, last), end)
  {
    hide *;
    var tok := Opens(s, i, kind, tail + rest, pf);
    ClosedReads(kind, tok, ReadUntil(s, i + |Opening(kind)|, ClosingKind(kind), pf), ts, last, end);
  }

  lemma {:induction false} UntilStep(s: string, i: nat, closing: Kind, pf: FloatParser, t: Item, j: nat)
    requires i <= |s| && (closing == RParen || closing == RBracket || closing == RBrace)
    requires ReadsAs(ReadNode(s, i, pf), t.tree, j)
    ensures j <= |s|
    ensures forall ts, end ::
              ReadsAllAs(ReadUntil(s, j, closing, pf), ts, end)
              ==> ReadsAllAs(ReadUntil(s, i, closing, pf), [t] + ts, end)
  {
    NodesStart(s, i, pf);
    hide Lex, ReadNode, Shape, NodeOf;
    forall ts, end | ReadsAllAs(ReadUntil(s, j, closing, pf), ts, end)
      ensures ReadsAllAs(ReadUntil(s, i, closing, pf), [t] + ts, end) {
      assert ([t] + ts)[1..] == ts;
    }
  }

  lemma {:induction false} NothingReads(s: string, i: nat, close: Kind, rest: string, pf: FloatParser)
    requires TextAt(s, i, [ClosingChar(close)], rest) && (close == RParen || close == RBracket || close == RBrace)
    ensures ReadsAllAs(ReadUntil(s, i, close, pf), [], i + 1)
  {
    CharAt(s, i, [ClosingChar(close)], rest, 0);
    PunctuationReads(s, i, close);
    hide Lex, TextAt, LineAt, ColAt;
  }

  // ---------------------------------------------------------------------
  // Gaps
  // ---------------------------------------------------------------------

  lemma {:induction false} BlankSkipped(s: string, i: nat)
    requires i < |s| && (s[i] == ' ' || s[i] == '\t' || s[i] == '\n' || s[i] == '\r' || s[i] == ',')
    ensures Lex(s, i) == Lex(s, i + 1)
  {
    hide TokenAt, LineAt, ColAt;
  }

  lemma {:induction false} CommentToNewline(s: string, i: nat, j: nat)
    requires i < j < |s| && s[i] == ';' && s[j] == '\n' && forall k :: i < k < j ==> s[k] != '\n'
    ensures Lex(s, i) == Lex(s, j + 1)
  {
    LineEndIs(s, i, j);
    hide TokenAt, LineAt, ColAt, LineEnd;
    assert Skip(s, i) == Skip(s, j) == Skip(s, j + 1);
  }

  lemma {:induction false} CommentAt(s: string, i: nat, c: string, rest: string)
    requires TextAt(s, i, ";" + c + "\n", rest) && '\n' !in c
    ensures var j := i + 1 + |c|; j < |s| && s[i] == ';' && s[j] == '\n' && forall k :: i < k < j ==> s[k] != '\n'
  {
    var v, j := ";" + c + "\n", i + 1 + |c|;
    CharAt(s, i, v, rest, 0);
    CharAt(s, i, v, rest, |v| - 1);
    forall k | i < k < j ensures s[k] != '\n' {
      CharAt(s, i, v, rest, k - i);
      assert v[k - i] == c[k - i - 1];
    }
  }

  lemma {:induction false} PieceSkipped(s: string, i: nat, p: Piece, rest: string)
    requires TextAt(s, i, PieceText(p), rest) && GapOK([p])
    ensures i + |PieceText(p)| <= |s| && Lex(s, i) == Lex(s, i + |PieceText(p)|)
  {
    hide TextAt, Lex;
    if p.Comment? {
      assert p in [p];
      CommentAt(s, i, p.text, rest);
      CommentToNewline(s, i, i + 1 + |p.text|);
    } else {
      CharAt(s, i, PieceText(p), rest, 0);
      BlankSkipped(s, i);
    }
  }

  /** Whatever white space and comments stand before it, the same token comes next. */
  lemma {:induction false} GapSkipped(s: string, i: nat, g: Gap, rest: string)
    requires TextAt(s, i, GapText(g), rest) && GapOK(g)
    ensures i + |GapText(g)| <= |s| && Lex(s, i) == Lex(s, i + |GapText(g)|)
    decreases |g|
  {
    hide Lex, TextAt, PieceText;
    if g == [] {
      assert GapText(g) == "" + "";
      TextAfter(s, i, "", "", rest);
    } else {
      assert g[0] in g && forall p :: p in g[1..] ==> p in g;
      TextAfter(s, i, PieceText(g[0]), GapText(g[1..]), rest);
      PieceSkipped(s, i, g[0], GapText(g[1..]) + rest);
      GapSkipped(s, i + |PieceText(g[0])|, g[1..], rest);
    }
  }

  lemma {:induction false} GapStarts(g: Gap, rest: string)
    requires g != []
    ensures Ended(GapText(g) + rest)
  {
    assert (GapText(g) + rest)[0] == PieceText(g[0])[0];
  }

  lemma {:induction false} TreeStarts(t: Tree, rest: string)
    requires !IsAtom(t) && (t.TColl? ==> IsCollection(t.kind))
    ensures Ended(Print(t) + rest)
  {
    hide PrintAll, EscapedAll, GapText;
    assert Print(t) != "" && (Print(t) + rest)[0] == Print(t)[0];
  }

  /** Behind an element stands something that ends an atom, or no atom was read. */
  lemma {:induction false} NextEnds(ts: seq<Item>, tail: string, pf: FloatParser)
    requires ts != [] && ValidItems(ts, pf) && Ended(tail) && IsAtom(ts[0].tree)
    ensures Ended(PrintAll(ts[1..]) + tail)
  {
    var more := ts[1..];
    hide Ended, Print, GapText;
    if more == [] {
      assert PrintAll(more) + tail == tail;
    } else {
      assert more[0] == ts[1];
      var n := more[0];
      NextIs(more, pf);
      hide PrintAll, ValidItems;
      PrintCons(more, tail);
      StartsItem(n, PrintAll(more[1..]) + tail);
    }
  }

  lemma {:induction false} NextIs(ts: seq<Item>, pf: FloatParser)
    requires ts != [] && ValidItems(ts, pf)
    ensures ts[0].tree.TColl? ==> IsCollection(ts[0].tree.kind)
  {
    assert ValidTree(ts[0].tree, pf);
    hide ValidItems;
  }

  lemma {:induction false} StartsItem(n: Item, rest: string)
    requires (IsAtom(n.tree) ==> n.gap != []) && (n.tree.TColl? ==> IsCollection(n.tree.kind))
    ensures Ended(GapText(n.gap) + (Print(n.tree) + rest))
  {
    hide Ended, Print, IsCollection;
    if n.gap != [] {
      GapStarts(n.gap, Print(n.tree) + rest);
    } else {
      assert GapText(n.gap) + (Print(n.tree) + rest) == Print(n.tree) + rest;
      TreeStarts(n.tree, rest);
    }
  }

  lemma {:induction false} TailEnds(last: Gap, close: Kind, rest: string)
    ensures Ended(Tail(last, close) + rest) && Ended(GapText(last))
  {
    if last == [] {
      assert (Tail(last, close) + rest)[0] == ClosingChar(close);
    } else {
      assert GapText(last) + "" == GapText(last);
      assert Tail(last, close) + rest == GapText(last) + ([ClosingChar(close)] + rest);
      GapStarts(last, [ClosingChar(close)] + rest);
      GapStarts(last, "");
    }
  }

  // ---------------------------------------------------------------------
  // Several trees
  // ---------------------------------------------------------------------

  lemma {:induction false} PrintCons(ts: seq<Item>, tail: string)
    requires ts != []
    ensures PrintAll(ts) + tail == GapText(ts[0].gap) + (Print(ts[0].tree) + (PrintAll(ts[1..]) + tail))
    ensures |PrintAll(ts)| == |GapText(ts[0].gap)| + |Print(ts[0].tree)| + |PrintAll(ts[1..])|
  {
    hide Print, GapText;
  }

  lemma {:induction false} ConsItems(ts: seq<Item>, pf: FloatParser)
    requires ts != [] && ValidItems(ts, pf)
    ensures ts == [ts[0]] + ts[1..] && GapOK(ts[0].gap) && ValidTree(ts[0].tree, pf) && ValidItems(ts[1..], pf)
    ensures Size(ts[0].tree) <= Sizes(ts) && Sizes(ts[1..]) < Sizes(ts)
  {
    assert Size(ts[0].tree) >= 1;
  }

  /** The first of several trees. */
  lemma {:induction false} FirstReads(s: string, i: nat, ts: seq<Item>, tail: string, rest: string, pf: FloatParser)
    requires ts != [] && ValidItems(ts, pf) && Ended(tail + rest) && TextAt(s, i, PrintAll(ts) + tail, rest)
    ensures var j := i + |GapText(ts[0].gap)| + |Print(ts[0].tree)|;
            && i <= |s| && ReadsAs(ReadNode(s, i, pf), ts[0].tree, j) && TextAt(s, j, PrintAll(ts[1..]) + tail, rest)
    decreases Sizes(ts), 2
  {
    hide *;
    ConsItems(ts, pf);
    PrintCons(ts, tail);
    AfterFirst(ts, tail, rest, pf);
    ItemReads(s, i, ts[0], PrintAll(ts[1..]) + tail, rest, pf);
  }

  lemma {:induction false} ItemReads(s: string, i: nat, n: Item, more: string, rest: string, pf: FloatParser)
    requires TextAt(s, i, GapText(n.gap) + (Print(n.tree) + more), rest) && GapOK(n.gap) && ValidTree(n.tree, pf)
    requires IsAtom(n.tree) ==> Ended(more + rest)
    ensures var j := i + |GapText(n.gap)| + |Print(n.tree)|;
            i <= |s| && ReadsAs(ReadNode(s, i, pf), n.tree, j) && TextAt(s, j, more, rest)
    decreases Size(n.tree), 1
  {
    hide *;
    FirstText(s, i, n.gap, Print(n.tree), more, rest, pf);
    TreeReads(s, i + |GapText(n.gap)|, n.tree, more + rest, pf);
  }

  lemma {:induction false} AfterFirst(ts: seq<Item>, tail: string, rest: string, pf: FloatParser)
    requires ts != [] && ValidItems(ts, pf) && Ended(tail + rest)
    ensures IsAtom(ts[0].tree) ==> Ended(PrintAll(ts[1..]) + tail + rest)
  {
    assert PrintAll(ts[1..]) + tail + rest == PrintAll(ts[1..]) + (tail + rest);
    hide *;
    if IsAtom(ts[0].tree) {
      NextEnds(ts, tail + rest, pf);
    }
  }

  lemma {:induction false} FirstText(s: string, i: nat, g: Gap, v: string, more: string, rest: string, pf: FloatParser)
    requires TextAt(s, i, GapText(g) + (v + more), rest) && GapOK(g)
    ensures var k := i + |GapText(g)|;
            && i <= k <= |s| && ReadNode(s, i, pf) == ReadNode(s, k, pf)
            && TextAt(s, k, v, more + rest) && TextAt(s, k + |v|, more, rest)
  {
    hide *;
    TextAfter(s, i, GapText(g), v + more, rest);
    GapSkipped(s, i, g, v + more + rest);
    SameTokenSameAll(s, i, i + |GapText(g)|, pf);
    TextAfter(s, i + |GapText(g)|, v, more, rest);
  }

  /** The texts of trees, up to the closing delimiter. */
  lemma {:induction false} TreesRead(s: string, i: nat, ts: seq<Item>, last: Gap, close: Kind, rest: string,
                                     pf: FloatParser)
    requires TextAt(s, i, PrintAll(ts) + Tail(last, close), rest) && ValidItems(ts, pf) && GapOK(last)
    requires close == RParen || close == RBracket || close == RBrace
    ensures ReadsAllAs(ReadUntil(s, i, close, pf), ts, i + |PrintAll(ts)| + |Tail(last, close)|)
    decreases Sizes(ts), 3
  {
    hide *;
    if ts == [] {
      NoTrees(s, i, last, close, rest, pf);
    } else {
      ConsItems(ts, pf);
      TailEnds(last, close, rest);
      PrintCons(ts, "");
      FirstReads(s, i, ts, Tail(last, close), rest, pf);
      var j := i + |GapText(ts[0].gap)| + |Print(ts[0].tree)|;
      TreesRead(s, j, ts[1..], last, close, rest, pf);
      UntilStep(s, i, close, pf, ts[0], j);
    }
  }

  lemma {:induction false} NoTrees(s: string, i: nat, last: Gap, close: Kind, rest: string, pf: FloatParser)
    requires TextAt(s, i, PrintAll([]) + Tail(last, close), rest) && GapOK(last)
             && (close == RParen || close == RBracket || close == RBrace)
    ensures ReadsAllAs(ReadUntil(s, i, close, pf), [], i + |PrintAll([])| + |Tail(last, close)|)
  {
    hide *;
    OnlyTail(last, close);
    CloserReads(s, i, last, close, rest, pf);
  }

  lemma {:induction false} OnlyTail(last: Gap, close: Kind)
    ensures PrintAll([]) + Tail(last, close) == GapText(last) + [ClosingChar(close)]
    ensures |PrintAll([])| + |Tail(last, close)| == |GapText(last)| + 1
  {
    hide GapText;
  }

  lemma {:induction false} CloserReads(s: string, i: nat, last: Gap, close: Kind, rest: string, pf: FloatParser)
    requires TextAt(s, i, GapText(last) + [ClosingChar(close)], rest) && GapOK(last)
             && (close == RParen || close == RBracket || close == RBrace)
    ensures ReadsAllAs(ReadUntil(s, i, close, pf), [], i + |GapText(last)| + 1)
  {
    hide *;
    TextAfter(s, i, GapText(last), [ClosingChar(close)], rest);
    GapSkipped(s, i, last, [ClosingChar(close)] + rest);
    SameTokenSameAll(s, i, i + |GapText(last)|, pf);
    NothingReads(s, i + |GapText(last)|, close, rest, pf);
  }

  // ---------------------------------------------------------------------
  // Whole texts
  // ---------------------------------------------------------------------

  predicate ReadsTexts(r: Result<seq<Node>, EdnError>, ts: seq<Item>) {
    r.Ok? && Shapes(r.value) == NodesOf(ts)
  }

  lemma {:induction false} AllStep(s: string, i: nat, pf: FloatParser, t: Item, j: nat, more: seq<Item>)
    requires i <= |s| && ReadsAs(ReadNode(s, i, pf), t.tree, j)
    ensures j <= |s| && (ReadsTexts(ReadAll(s, j, pf), more) ==> ReadsTexts(ReadAll(s, i, pf), [t] + more))
  {
    NodesStart(s, i, pf);
    hide Lex, ReadNode, Shape, NodeOf;
    assert ([t] + more)[1..] == more;
  }

  lemma {:induction false} OnlyGap(s: string, i: nat, last: Gap)
    requires TextAt(s, i, PrintAll([]) + GapText(last), "")
    ensures TextAt(s, i, GapText(last), "") && i + |GapText(last)| == |s|
  {
    hide GapText;
    assert PrintAll([]) + GapText(last) == GapText(last);
    assert |s[i..]| == |GapText(last)|;
  }

  lemma {:induction false} NoText(s: string, i: nat, last: Gap, pf: FloatParser)
    requires TextAt(s, i, PrintAll([]) + GapText(last), "") && GapOK(last)
    ensures i <= |s| && ReadsTexts(ReadAll(s, i, pf), [])
  {
    hide *;
    OnlyGap(s, i, last);
    EndReads(s, pf);
    GapSkipped(s, i, last, "");
    SameTokenSameAll(s, i, |s|, pf);
  }

  lemma {:induction false} EndReads(s: string, pf: FloatParser)
    ensures ReadsTexts(ReadAll(s, |s|, pf), [])
  {
  }

  lemma {:induction false} TextsRead(s: string, i: nat, ts: seq<Item>, last: Gap, pf: FloatParser)
    requires i <= |s| && TextAt(s, i, PrintAll(ts) + GapText(last), "") && ValidItems(ts, pf) && GapOK(last)
    ensures ReadsTexts(ReadAll(s, i, pf), ts)
    decreases |ts|
  {
    hide *;
    if ts == [] {
      NoText(s, i, last, pf);
    } else {
      ConsItems(ts, pf);
      TailEnds(last, RParen, "");
      assert GapText(last) + "" == GapText(last);
      FirstReads(s, i, ts, GapText(last), "", pf);
      var j := i + |GapText(ts[0].gap)| + |Print(ts[0].tree)|;
      EndWithin(s, i, ts[0].tree, j, pf);
      TextsRead(s, j, ts[1..], last, pf);
      AllStep(s, i, pf, ts[0], j, ts[1..]);
    }
  }

  lemma {:induction false} EndWithin(s: string, i: nat, t: Tree, j: nat, pf: FloatParser)
    requires i <= |s| && ReadsAs(ReadNode(s, i, pf), t, j)
    ensures j <= |s|
  {
    hide ReadNode;
  }

  /** Parsing the text of any trees, with any white space, commas and comments around
      their elements, gives the trees back, up to positions. */
  lemma {:induction false} RoundTrip(ts: seq<Item>, last: Gap, pf: FloatParser)
    requires ValidItems(ts, pf) && GapOK(last)
    ensures var r := ReadAll(PrintAll(ts) + GapText(last), 0, pf); r.Ok? && Shapes(r.value) == NodesOf(ts)
  {
    var s := PrintAll(ts) + GapText(last);
    assert s[0..] == s + "";
    hide PrintAll, ValidItems, ReadAll, GapText;
    TextsRead(s, 0, ts, last, pf);
  }
}
