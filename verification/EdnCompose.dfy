/** EDN texts one after another: reading a, a newline and b is reading a and then b. */
module EdnCompose {
  import opened Prelude
  import opened Edn

  /** A node without its positions. */
  function Shape(n: Node): Node
    decreases n
  {
    n.(children := Shapes(n.children), line := 0, col := 0)
  }

  function Shapes(ns: seq<Node>): (r: seq<Node>)
    ensures |r| == |ns|
    decreases ns
  {
    if ns == [] then [] else [Shape(ns[0])] + Shapes(ns[1..])
  }

  lemma {:induction false} ShapesConcat(a: seq<Node>, b: seq<Node>)
    ensures Shapes(a + b) == Shapes(a) + Shapes(b)
  {
    hide Shape;
    if a == [] {
      assert a + b == b;
    } else {
      assert (a + b)[1..] == a[1..] + b;
      ShapesConcat(a[1..], b);
    }
  }

  // ---------------------------------------------------------------------
  // The first text is read as if alone
  // ---------------------------------------------------------------------

  /** What may follow a text without changing how it is read: a new line or a comment. */
  predicate Apart(u: string) { u != "" && (u[0] == '\n' || u[0] == ';') }

  function Joined(a: string, u: string): (t: string)
    requires Apart(u)
    ensures |t| == |a| + |u| && t[|a|] == u[0] && (forall i :: 0 <= i < |a| ==> t[i] == a[i]) && t[|a|..] == u
  {
    a + u
  }

  lemma {:induction false} SamePosition(a: string, u: string, i: nat)
    requires Apart(u) && i <= |a|
    ensures LineAt(Joined(a, u), i) == LineAt(a, i) && ColAt(Joined(a, u), i) == ColAt(a, i)
  {
    if i > 0 {
      SamePosition(a, u, i - 1);
    }
  }

  lemma {:induction false} SameLineEnd(a: string, u: string, i: nat)
    requires Apart(u) && i <= |a|
    ensures LineEnd(Joined(a, u), i) == if LineEnd(a, i) < |a| then LineEnd(a, i) else LineEnd(Joined(a, u), |a|)
    decreases |a| - i
  {
    if i < |a| && a[i] != '\n' {
      SameLineEnd(a, u, i + 1);
    }
  }

  lemma {:induction false} SameSkip(a: string, u: string, i: nat)
    requires Apart(u) && i <= |a|
    ensures Skip(Joined(a, u), i) == if Skip(a, i) < |a| then Skip(a, i) else Skip(Joined(a, u), |a|)
    decreases |a| - i
  {
    var t := Joined(a, u);
    if i < |a| {
      if IsBlank(a[i]) {
        SameSkip(a, u, i + 1);
      } else if a[i] == ';' {
        SameLineEnd(a, u, i);
        SameSkip(a, u, LineEnd(a, i));
      }
    }
  }

  lemma {:induction false} SameScanAtom(a: string, u: string, i: nat)
    requires Apart(u) && i <= |a|
    ensures ScanAtom(Joined(a, u), i) == ScanAtom(a, i)
    decreases |a| - i
  {
    if i < |a| && !EndsAtom(a[i]) {
      SameScanAtom(a, u, i + 1);
    }
  }

  lemma {:induction false} SameScanString(a: string, u: string, q: nat, i: nat)
    requires Apart(u) && q < i <= |a| && ScanString(a, q, i).Ok?
    ensures ScanString(Joined(a, u), q, i) == ScanString(a, q, i)
    decreases |a| - i
  {
    hide LineAt, ColAt;
    if a[i] != '"' {
      SameScanString(a, u, q, if a[i] == '\\' then i + 2 else i + 1);
    }
  }

  lemma {:induction false} SameLex(a: string, u: string, i: nat)
    requires Apart(u) && i <= |a| && Lex(a, i).Ok?
    ensures Lex(Joined(a, u), i) == if Lex(a, i).value.tok.kind != EOF then Lex(a, i) else Lex(Joined(a, u), |a|)
  {
    var j, t := Skip(a, i), Joined(a, u);
    SameSkip(a, u, i);
    SamePosition(a, u, j);
    hide LineAt, ColAt, ScanString, Skip, Joined;
    if j < |a| {
      SameScanAtom(a, u, j);
      assert t[j..ScanAtom(a, j)] == a[j..ScanAtom(a, j)];
      if a[j] == '"' {
        SameScanString(a, u, j, j + 1);
      }
    }
  }

  lemma {:induction false} SameNode(a: string, u: string, i: nat, pf: FloatParser)
    requires Apart(u) && i <= |a| && ReadNode(a, i, pf).Ok?
    ensures ReadNode(Joined(a, u), i, pf) == ReadNode(a, i, pf)
    decreases |a| - i, 0
  {
    hide Joined, Lex, ClassifyAtom;
    var t := Joined(a, u);
    SameLex(a, u, i);
    var Lexed(tok, next) := Lex(a, i).value;
    if Opened(tok.kind).Some? {
      SameUntil(a, u, next, Opened(tok.kind).value.1, pf);
    } else if tok.kind == Hash {
      SameLex(a, u, next);
      SameUntil(a, u, Lex(a, next).value.next, RBrace, pf);
    }
  }

  lemma {:induction false} SameUntil(a: string, u: string, i: nat, closing: Kind, pf: FloatParser)
    requires Apart(u) && i <= |a| && ReadUntil(a, i, closing, pf).Ok?
    ensures ReadUntil(Joined(a, u), i, closing, pf) == ReadUntil(a, i, closing, pf)
    decreases |a| - i, 1
  {
    hide Joined, Lex, ReadNode;
    SameLex(a, u, i);
    if Lex(a, i).value.tok.kind != closing {
      SameNode(a, u, i, pf);
      SameUntil(a, u, ReadNode(a, i, pf).value.1, closing, pf);
    }
  }

  function Then(ns: seq<Node>, r: Result<seq<Node>, EdnError>): Result<seq<Node>, EdnError> {
    match r
    case Ok(rest) => Ok(ns + rest)
    case Err(err) => Err(err)
  }

  lemma {:induction false} ThenTwice(a: seq<Node>, b: seq<Node>, r: Result<seq<Node>, EdnError>)
    ensures Then(a, Then(b, r)) == Then(a + b, r) && Then([], r) == r
  {
    if r.Ok? {
      assert a + (b + r.value) == a + b + r.value && [] + r.value == r.value;
    }
  }

  /** One step of ReadAll. */
  lemma {:induction false} ReadAllStep(s: string, i: nat, pf: FloatParser)
    requires i <= |s| && Lex(s, i).Ok? && Lex(s, i).value.tok.kind != EOF && ReadNode(s, i, pf).Ok?
    ensures var (n, j) := ReadNode(s, i, pf).value; ReadAll(s, i, pf) == Then([n], ReadAll(s, j, pf))
  {
    hide Lex, ReadNode;
  }

  lemma {:induction false} SameAll(a: string, u: string, i: nat, pf: FloatParser)
    requires Apart(u) && i <= |a| && ReadAll(a, i, pf).Ok?
    ensures ReadAll(Joined(a, u), i, pf) == Then(ReadAll(a, i, pf).value, ReadAll(Joined(a, u), |a|, pf))
    decreases |a| - i
  {
    var t := Joined(a, u);
    var rest := ReadAll(t, |a|, pf);
    SameLex(a, u, i);
    if Lex(a, i).value.tok.kind == EOF {
      hide Joined, Lex, ReadNode;
      SameTokenSameAll(t, i, |a|, pf);
      ThenTwice([], [], rest);
    } else {
      AllStarts(a, i, pf);
      hide Joined, Lex, ReadNode, ReadAll, Then;
      SameNode(a, u, i, pf);
      var (n, j) := ReadNode(a, i, pf).value;
      ReadAllStep(a, i, pf);
      ReadAllStep(t, i, pf);
      ThenOk([n], ReadAll(a, j, pf));
      SameAll(a, u, j, pf);
      ThenTwice([n], ReadAll(a, j, pf).value, rest);
    }
  }

  lemma {:induction false} ThenOk(ns: seq<Node>, r: Result<seq<Node>, EdnError>)
    ensures Then(ns, r).Ok? <==> r.Ok?
    ensures r.Ok? ==> Then(ns, r).value == ns + r.value
  {
  }

  lemma {:induction false} AllStarts(s: string, i: nat, pf: FloatParser)
    requires i <= |s| && ReadAll(s, i, pf).Ok?
    ensures Lex(s, i).Ok? && (Lex(s, i).value.tok.kind != EOF ==> ReadNode(s, i, pf).Ok?)
  {
    hide Lex, ReadNode;
  }

  /** Only the next token matters. */
  lemma {:induction false} SameTokenSameAll(s: string, i: nat, j: nat, pf: FloatParser)
    requires i <= |s| && j <= |s| && Lex(s, i) == Lex(s, j)
    ensures ReadNode(s, i, pf) == ReadNode(s, j, pf) && ReadAll(s, i, pf) == ReadAll(s, j, pf)
    ensures forall closing :: ReadUntil(s, i, closing, pf) == ReadUntil(s, j, closing, pf)
  {
    hide Lex;
    assert ReadNode(s, i, pf) == ReadNode(s, j, pf);
    hide ReadNode;
  }

  // ---------------------------------------------------------------------
  // The second text is read as if at the start, but for its positions
  // ---------------------------------------------------------------------

  lemma {:induction false} ShiftLineEnd(p: string, b: string, k: nat)
    requires k <= |b|
    ensures LineEnd(p + b, |p| + k) == |p| + LineEnd(b, k)
    decreases |b| - k
  {
    if k < |b| {
      assert (p + b)[|p| + k] == b[k];
      if b[k] != '\n' {
        ShiftLineEnd(p, b, k + 1);
      }
    }
  }

  lemma {:induction false} ShiftSkip(p: string, b: string, k: nat)
    requires k <= |b|
    ensures Skip(p + b, |p| + k) == |p| + Skip(b, k)
    decreases |b| - k
  {
    if k < |b| {
      assert (p + b)[|p| + k] == b[k];
      if IsBlank(b[k]) {
        ShiftSkip(p, b, k + 1);
      } else if b[k] == ';' {
        ShiftLineEnd(p, b, k);
        ShiftSkip(p, b, LineEnd(b, k));
      }
    }
  }

  lemma {:induction false} ShiftScanAtom(p: string, b: string, k: nat)
    requires k <= |b|
    ensures ScanAtom(p + b, |p| + k) == |p| + ScanAtom(b, k)
    decreases |b| - k
  {
    if k < |b| {
      assert (p + b)[|p| + k] == b[k];
      if !EndsAtom(b[k]) {
        ShiftScanAtom(p, b, k + 1);
      }
    }
  }

  predicate ShiftedString(m: nat, r: Result<(string, nat), EdnError>, u: Result<(string, nat), EdnError>) {
    if u.Ok? then r == Ok((u.value.0, m + u.value.1)) else r.Err?
  }

  lemma {:induction false} ShiftScanString(p: string, b: string, q: nat, k: nat)
    requires q < k <= |b|
    ensures ShiftedString(|p|, ScanString(p + b, |p| + q, |p| + k), ScanString(b, q, k))
    decreases |b| - k
  {
    hide LineAt, ColAt, Unescaped;
    if k < |b| {
      assert (p + b)[|p| + k] == b[k];
      if b[k] == '\\' {
        if k + 1 < |b| {
          assert (p + b)[|p| + k + 1] == b[k + 1];
          ShiftScanString(p, b, q, k + 2);
        }
      } else if b[k] != '"' {
        ShiftScanString(p, b, q, k + 1);
      }
    }
  }

  predicate ShiftedLex(m: nat, r: Result<Lexed, EdnError>, u: Result<Lexed, EdnError>) {
    if u.Ok? then r.Ok? && r.value.tok.kind == u.value.tok.kind && r.value.tok.value == u.value.tok.value
      && r.value.next == m + u.value.next
    else r.Err?
  }

  lemma {:induction false} ShiftSlice(p: string, b: string, j: nat, k: nat)
    requires j <= k <= |b|
    ensures (p + b)[|p| + j..|p| + k] == b[j..k]
  {
  }

  lemma {:induction false} ShiftToken(p: string, b: string, j: nat)
    requires j < |b| && !IsBlank(b[j]) && b[j] != ';'
    ensures (p + b)[|p| + j] == b[j] && ShiftedLex(|p|, TokenAt(p + b, |p| + j), TokenAt(b, j))
  {
    hide LineAt, ColAt, ScanString, ScanAtom, IsBlank;
    assert (p + b)[|p| + j] == b[j];
    ShiftScanAtom(p, b, j);
    ShiftSlice(p, b, j, ScanAtom(b, j));
    ShiftScanString(p, b, j, j + 1);
  }

  lemma {:induction false} ShiftLex(p: string, b: string, k: nat)
    requires k <= |b|
    ensures ShiftedLex(|p|, Lex(p + b, |p| + k), Lex(b, k))
  {
    ShiftSkip(p, b, k);
    hide LineAt, ColAt, Skip, TokenAt;
    if Skip(b, k) < |b| {
      ShiftToken(p, b, Skip(b, k));
    }
  }

  predicate ShiftedNode(m: nat, r: Result<(Node, nat), EdnError>, u: Result<(Node, nat), EdnError>) {
    if u.Ok? then r.Ok? && Shape(r.value.0) == Shape(u.value.0) && r.value.1 == m + u.value.1 else r.Err?
  }

  predicate ShiftedNodes(m: nat, r: Result<(seq<Node>, nat), EdnError>, u: Result<(seq<Node>, nat), EdnError>) {
    if u.Ok? then r.Ok? && Shapes(r.value.0) == Shapes(u.value.0) && r.value.1 == m + u.value.1 else r.Err?
  }

  lemma {:induction false} ShiftClosed(kind: NodeKind, tok: Token, tok': Token, m: nat, r: Result<(seq<Node>, nat),
                                       EdnError>, u: Result<(seq<Node>, nat), EdnError>)
    requires ShiftedNodes(m, r, u)
    ensures ShiftedNode(m, Closed(kind, tok, r), Closed(kind, tok', u))
  {
  }

  lemma {:induction false} ShiftAtom(tok: Token, tok': Token, pf: FloatParser)
    requires tok.value == tok'.value
    ensures Shape(ClassifyAtom(tok, pf)) == Shape(ClassifyAtom(tok', pf))
  {
    hide ParseInt;
  }

  lemma {:induction false} ShiftNode(p: string, b: string, k: nat, pf: FloatParser)
    requires k <= |b|
    ensures ShiftedNode(|p|, ReadNode(p + b, |p| + k, pf), ReadNode(b, k, pf))
    decreases |b| - k, 0
  {
    var m, t := |p|, p + b;
    hide Lex, ClassifyAtom, ReadUntil, Shapes, Closed;
    ShiftLex(p, b, k);
    if Lex(b, k).Ok? {
      var Lexed(tok, next) := Lex(b, k).value;
      var tok' := Lex(t, m + k).value.tok;
      if Opened(tok.kind).Some? {
        var (kind, closing) := Opened(tok.kind).value;
        ShiftUntil(p, b, next, closing, pf);
        ShiftClosed(kind, tok', tok, m, ReadUntil(t, m + next, closing, pf), ReadUntil(b, next, closing, pf));
      } else if tok.kind == Hash {
        ShiftLex(p, b, next);
        if Lex(b, next).Ok? && Lex(b, next).value.tok.kind == LBrace {
          var after := Lex(b, next).value.next;
          ShiftUntil(p, b, after, RBrace, pf);
          ShiftClosed(NodeSet, tok', tok, m, ReadUntil(t, m + after, RBrace, pf), ReadUntil(b, after, RBrace, pf));
        }
      } else if tok.kind == Atom {
        ShiftAtom(tok', tok, pf);
      }
    }
  }

  lemma {:induction false} ShiftUntil(p: string, b: string, k: nat, closing: Kind, pf: FloatParser)
    requires k <= |b|
    ensures ShiftedNodes(|p|, ReadUntil(p + b, |p| + k, closing, pf), ReadUntil(b, k, closing, pf))
    decreases |b| - k, 1
  {
    hide Lex, ReadNode, Shape;
    ShiftLex(p, b, k);
    if Lex(b, k).Ok? && Lex(b, k).value.tok.kind != EOF && Lex(b, k).value.tok.kind != closing {
      ShiftNode(p, b, k, pf);
      if ReadNode(b, k, pf).Ok? {
        ShiftUntil(p, b, ReadNode(b, k, pf).value.1, closing, pf);
      }
    }
  }

  predicate SameShapes(r: Result<seq<Node>, EdnError>, u: Result<seq<Node>, EdnError>) {
    if u.Ok? then r.Ok? && Shapes(r.value) == Shapes(u.value) else r.Err?
  }

  lemma {:induction false} ShiftAll(p: string, b: string, k: nat, pf: FloatParser)
    requires k <= |b|
    ensures SameShapes(ReadAll(p + b, |p| + k, pf), ReadAll(b, k, pf))
    decreases |b| - k
  {
    hide Lex, ReadNode, Shape;
    ShiftLex(p, b, k);
    if Lex(b, k).Ok? && Lex(b, k).value.tok.kind != EOF {
      ShiftNode(p, b, k, pf);
      if ReadNode(b, k, pf).Ok? {
        ShiftAll(p, b, ReadNode(b, k, pf).value.1, pf);
      }
    }
  }

  /** If the first text can be read, both together read as the one followed by the other,
      up to positions; and they cannot be read exactly when the second cannot. */
  lemma {:induction false} ReadingComposes(a: string, b: string, pf: FloatParser)
    requires ReadAll(a, 0, pf).Ok?
    ensures SameShapes(ReadAll(a + "\n" + b, 0, pf), Then(ReadAll(a, 0, pf).value, ReadAll(b, 0, pf)))
  {
    assert a + "\n" + b == a + ("\n" + b);
    NewlineSkipped(a, b);
    Composed(a, "\n", b, pf);
  }

  /** Whatever stands between two texts, if reading gets past it to the second text. */
  lemma {:induction false} Composed(a: string, gap: string, b: string, pf: FloatParser)
    requires ReadAll(a, 0, pf).Ok? && Apart(gap) && Lex(a + gap + b, |a|) == Lex(a + gap + b, |a + gap|)
    ensures SameShapes(ReadAll(a + gap + b, 0, pf), Then(ReadAll(a, 0, pf).value, ReadAll(b, 0, pf)))
  {
    assert a + gap + b == a + (gap + b);
    hide *;
    assert Apart(gap + b) by { GapFirst(gap, b); }
    ComposedAt(a, gap + b, a + gap, b, pf);
  }

  lemma {:induction false} GapFirst(gap: string, b: string)
    requires Apart(gap)
    ensures Apart(gap + b)
  {
  }

  lemma {:induction false} ComposedAt(a: string, u: string, p: string, b: string, pf: FloatParser)
    requires ReadAll(a, 0, pf).Ok? && Apart(u) && p + b == a + u && Lex(p + b, |a|) == Lex(p + b, |p|)
    ensures SameShapes(ReadAll(p + b, 0, pf), Then(ReadAll(a, 0, pf).value, ReadAll(b, 0, pf)))
  {
    assert Joined(a, u) == p + b;
    SameAll(a, u, 0, pf);
    hide *;
    SameTokenSameAll(p + b, |a|, |p|, pf);
    assert |p| + 0 == |p|;
    ShiftAll(p, b, 0, pf);
    ThenSameShapes(ReadAll(a, 0, pf).value, ReadAll(p + b, |p|, pf), ReadAll(b, 0, pf));
  }

  lemma {:induction false} ThenSameShapes(ns: seq<Node>, r: Result<seq<Node>, EdnError>, r': Result<seq<Node>,
                                          EdnError>)
    requires SameShapes(r, r')
    ensures SameShapes(Then(ns, r), Then(ns, r'))
  {
    hide Shapes;
    if r'.Ok? {
      ShapesConcat(ns, r.value);
      ShapesConcat(ns, r'.value);
    }
  }

  lemma {:induction false} NewlineSkipped(a: string, b: string)
    ensures Lex(a + "\n" + b, |a|) == Lex(a + "\n" + b, |a + "\n"|)
  {
    hide TokenAt, LineAt, ColAt;
    assert (a + "\n" + b)[|a|] == '\n';
  }

  // ---------------------------------------------------------------------
  // Comments
  // ---------------------------------------------------------------------

  /** A line that starts with a semicolon. */
  function CommentLine(c: string): string { ";" + c + "\n" }

  lemma {:induction false} LineEndIs(s: string, i: nat, j: nat)
    requires i <= j <= |s| && (forall k :: i <= k < j ==> s[k] != '\n') && (j < |s| ==> s[j] == '\n')
    ensures LineEnd(s, i) == j
  {
    var k := LineEnd(s, i);
    assert !(j < k) && !(k < j);
  }

  lemma {:induction false} CommentSkipped(a: string, c: string, b: string)
    requires '\n' !in c
    ensures Lex(a + CommentLine(c) + b, |a|) == Lex(a + CommentLine(c) + b, |a + CommentLine(c)|)
  {
    var t, j := a + CommentLine(c) + b, |a| + 1 + |c|;
    assert t == a + ";" + c + "\n" + b;
    assert t[|a|] == ';' && t[j] == '\n' && forall k :: |a| < k < j ==> t[k] == c[k - |a| - 1];
    LineEndIs(t, |a|, j);
    hide TokenAt, LineAt, ColAt, LineEnd, CommentLine;
    assert Skip(t, j) == Skip(t, j + 1);
  }

  /** A comment up to the end of its line reads as nothing, wherever a text can be read up
      to it: only the positions behind it move. */
  lemma {:induction false} CommentsAreIgnored(a: string, c: string, b: string, pf: FloatParser)
    requires ReadAll(a, 0, pf).Ok? && '\n' !in c
    ensures SameShapes(ReadAll(a + ";" + c + "\n" + b, 0, pf), ReadAll(a + "\n" + b, 0, pf))
  {
    assert a + ";" + c + "\n" + b == a + CommentLine(c) + b;
    CommentSkipped(a, c, b);
    hide Lex, Skip, ReadAll, Shapes;
    Composed(a, CommentLine(c), b, pf);
    ReadingComposes(a, b, pf);
  }

  /** A comment needs no newline at the end of the text. */
  lemma {:induction false} LastComment(a: string, c: string, pf: FloatParser)
    requires ReadAll(a, 0, pf).Ok? && '\n' !in c
    ensures ReadAll(a + ";" + c, 0, pf) == ReadAll(a, 0, pf)
  {
    var u, t := ";" + c, a + ";" + c;
    assert t == Joined(a, u);
    SameAll(a, u, 0, pf);
    LineEndIs(t, |a|, |t|);
    assert t[|a|] == ';' && Skip(t, |a|) == |t|;
    hide LineEnd, Skip, LineAt, ColAt;
    assert ReadAll(t, |a|, pf) == Ok([]);
    assert ReadAll(a, 0, pf).value + [] == ReadAll(a, 0, pf).value;
  }

  /** A text that is one comment holds nothing. */
  lemma {:induction false} OnlyAComment(c: string, pf: FloatParser)
    requires '\n' !in c
    ensures ReadAll(";" + c, 0, pf) == Ok([])
  {
    assert "" + ";" + c == ";" + c && ReadAll("", 0, pf) == Ok([]);
    hide ReadAll;
    LastComment("", c, pf);
  }
}
