/** Texts that cannot be read: which error they get, and at which line and column. */
module EdnErrors {
  import opened Prelude
  import opened Edn
  import opened EdnCompose
  import opened EdnPrint

  // ---------------------------------------------------------------------
  // Lines and columns
  // ---------------------------------------------------------------------

  /** The newlines before a position. */
  function NewlinesBefore(s: string, i: nat): set<nat>
    requires i <= |s|
  {
    set k: nat | 0 <= k < i && s[k] == '\n'
  }

  /** A line is one more than the newlines before it, a column one more than the characters
      since the last of these. */
  lemma {:induction false} PositionIs(s: string, i: nat)
    requires i <= |s|
    ensures LineAt(s, i) == 1 + |NewlinesBefore(s, i)|
    ensures 1 <= ColAt(s, i) <= i + 1 && (ColAt(s, i) <= i ==> s[i - ColAt(s, i)] == '\n')
    ensures forall k :: i - ColAt(s, i) < k < i && 0 <= k ==> s[k] != '\n'
    decreases i
  {
    if i > 0 {
      PositionIs(s, i - 1);
      var before, now := NewlinesBefore(s, i - 1), NewlinesBefore(s, i);
      if s[i - 1] == '\n' {
        assert now == before + {i - 1} && (i - 1) !in before;
      } else {
        assert now == before;
      }
    }
  }

  // ---------------------------------------------------------------------
  // Flaws
  // ---------------------------------------------------------------------

  datatype Flaw =
    | OpenString(v: string)                               // no closing quote
    | OpenEscape(v: string)                               // the text ends in a backslash
    | Stray(close: Kind, rest: string)                    // a closing delimiter that nothing opened
    | NoBrace(gap: Gap, c: char, rest: string)            // # before anything but a brace
    | Odd(elements: seq<Item>, last: Gap, rest: string)   // a key without its value
    | Unclosed(kind: NodeKind, elements: seq<Item>, last: Gap)
    | Within(kind: NodeKind, elements: seq<Item>, gap: Gap, flaw: Flaw)

  function FlawText(f: Flaw): string {
    match f
    case OpenString(v) => "\"" + EscapedAll(v)
    case OpenEscape(v) => "\"" + (EscapedAll(v) + "\\")
    case Stray(close, rest) => [ClosingChar(close)] + rest
    case NoBrace(g, c, rest) => "#" + (GapText(g) + ([c] + rest))
    case Odd(ts, last, rest) => "{" + (PrintAll(ts) + (Tail(last, RBrace) + rest))
    case Unclosed(kind, ts, last) => Opening(kind) + (PrintAll(ts) + GapText(last))
    case Within(kind, ts, gap, flaw) => Opening(kind) + (PrintAll(ts) + (GapText(gap) + FlawText(flaw)))
  }

  predicate Closes(k: Kind) { k == RParen || k == RBracket || k == RBrace }

  /** A closing delimiter is stray unless it closes what it stands in. */
  predicate ValidFlaw(f: Flaw, inside: Option<Kind>, pf: FloatParser)
    decreases f
  {
    match f
    case OpenString(_) | OpenEscape(_) => true
    case Stray(close, _) => Closes(close) && inside != Some(close)
    case NoBrace(g, c, _) => GapOK(g) && !IsBlank(c) && c != ';' && c != '"' && c != '{'
    case Odd(ts, last, _) => |ts| % 2 == 1 && ValidItems(ts, pf) && GapOK(last)
    case Unclosed(kind, ts, last) => IsCollection(kind) && ValidItems(ts, pf) && GapOK(last)
    case Within(kind, ts, gap, flaw) =>
      IsCollection(kind) && ValidItems(ts, pf) && GapOK(gap) && ValidFlaw(flaw, Some(ClosingKind(kind)), pf)
  }

  /** Where the reader stops, for a flaw whose text starts at i. */
  function FlawAt(f: Flaw, i: nat): nat
    decreases f
  {
    match f
    case NoBrace(g, _, _) => i + 1 + |GapText(g)|
    case Within(kind, ts, gap, flaw) => FlawAt(flaw, i + |Opening(kind)| + |PrintAll(ts)| + |GapText(gap)|)
    case _ => i
  }

  function FlawError(f: Flaw, line: nat, col: nat): EdnError
    decreases f
  {
    match f
    case OpenString(_) => UnterminatedString(line, col)
    case OpenEscape(_) => UnterminatedEscape(line, col)
    case Stray(_, _) => UnexpectedClosing(line, col)
    case NoBrace(_, _, _) => ExpectedBrace(line, col)
    case Odd(_, _, _) => OddMap(line, col)
    case Unclosed(_, _, _) => UnexpectedEnd
    case Within(_, _, _, flaw) => FlawError(flaw, line, col)
  }

  /** No node can be read at i, and what stands there does not end what it stands in. */
  predicate FailsWith(s: string, i: nat, err: EdnError, inside: Option<Kind>, pf: FloatParser) {
    && i <= |s| && ReadNode(s, i, pf) == Err(err)
    && (Lex(s, i).Ok? ==> Lex(s, i).value.tok.kind != EOF && Some(Lex(s, i).value.tok.kind) != inside)
  }

  /** Reading at i fails with the flaw's error, at the flaw. */
  predicate FailsAt(s: string, i: nat, f: Flaw, inside: Option<Kind>, pf: FloatParser) {
    var j := FlawAt(f, i);
    j <= |s| && FailsWith(s, i, FlawError(f, LineAt(s, j), ColAt(s, j)), inside, pf)
  }

  // ---------------------------------------------------------------------
  // Single flaws
  // ---------------------------------------------------------------------

  lemma {:induction false} EndOfString(s: string, q: nat, i: nat, v: string)
    requires q < i && TextAt(s, i, EscapedAll(v), "")
    ensures ScanString(s, q, i) == Err(UnterminatedString(LineAt(s, q), ColAt(s, q)))
    decreases |v|
  {
    hide LineAt, ColAt, Unescaped, Escaped;
    if v == "" {
      assert |s[i..]| == 0;
    } else {
      var e, more := Escaped(v[0]), EscapedAll(v[1..]);
      EscapeReads(v[0]);
      CharAt(s, i, e + more, "", 0);
      if e != [v[0]] {
        CharAt(s, i, e + more, "", 1);
      }
      TextAfter(s, i, e, more, "");
      assert more + "" == more;
      hide TextAt;
      EndOfString(s, q, i + |e|, v[1..]);
    }
  }

  lemma {:induction false} EndOfEscape(s: string, q: nat, i: nat, v: string)
    requires q < i && TextAt(s, i, EscapedAll(v) + "\\", "")
    ensures ScanString(s, q, i) == Err(UnterminatedEscape(LineAt(s, q), ColAt(s, q)))
    decreases |v|
  {
    hide LineAt, ColAt, Unescaped, Escaped;
    if v == "" {
      CharAt(s, i, "\\", "", 0);
      assert |s[i..]| == 1;
    } else {
      var e, more := Escaped(v[0]), EscapedAll(v[1..]) + "\\";
      EscapeReads(v[0]);
      assert EscapedAll(v) + "\\" == e + more;
      CharAt(s, i, e + more, "", 0);
      if e != [v[0]] {
        CharAt(s, i, e + more, "", 1);
      }
      TextAfter(s, i, e, more, "");
      hide TextAt;
      EndOfEscape(s, q, i + |e|, v[1..]);
    }
  }

  lemma {:induction false} QuoteFails(s: string, i: nat, err: EdnError, pf: FloatParser)
    requires i < |s| && s[i] == '"' && ScanString(s, i, i + 1) == Err(err)
    ensures Lex(s, i) == Err(err) && ReadNode(s, i, pf) == Err(err)
  {
    hide LineAt, ColAt, ScanString, ScanAtom, ReadUntil;
    assert Skip(s, i) == i;
  }

  lemma {:induction false} StringFails(s: string, i: nat, f: Flaw, inside: Option<Kind>, pf: FloatParser)
    requires (f.OpenString? || f.OpenEscape?) && TextAt(s, i, FlawText(f), "")
    ensures FailsAt(s, i, f, inside, pf)
  {
    var body := EscapedAll(f.v) + if f.OpenString? then "" else "\\";
    assert FlawText(f) == "\"" + body;
    assert body + "" == body;
    assert f.OpenString? ==> body == EscapedAll(f.v);
    hide EscapedAll, ScanString, TextAt, Lex, ReadNode, LineAt, ColAt;
    CharAt(s, i, "\"" + body, "", 0);
    TextAfter(s, i, "\"", body, "");
    if f.OpenString? {
      EndOfString(s, i, i + 1, f.v);
      QuoteFails(s, i, UnterminatedString(LineAt(s, i), ColAt(s, i)), pf);
    } else {
      EndOfEscape(s, i, i + 1, f.v);
      QuoteFails(s, i, UnterminatedEscape(LineAt(s, i), ColAt(s, i)), pf);
    }
  }

  lemma {:induction false} StrayFails(s: string, i: nat, close: Kind, rest: string, inside: Option<Kind>,
                                      pf: FloatParser)
    requires Closes(close) && inside != Some(close) && TextAt(s, i, [ClosingChar(close)] + rest, "")
    ensures FailsAt(s, i, Stray(close, rest), inside, pf)
  {
    CharAt(s, i, [ClosingChar(close)] + rest, "", 0);
    hide LineAt, ColAt, Lex, TextAt;
    PunctuationReads(s, i, close);
  }

  lemma {:induction false} TokenStarts(s: string, i: nat)
    requires i < |s| && !IsBlank(s[i]) && s[i] != ';' && s[i] != '"' && s[i] != '{'
    ensures Lex(s, i).Ok?
    ensures var t := Lex(s, i).value.tok; t.kind != LBrace && t.line == LineAt(s, i) && t.col == ColAt(s, i)
  {
    hide LineAt, ColAt, ScanString, ScanAtom;
    assert Skip(s, i) == i;
  }

  lemma {:induction false} HashFails(s: string, i: nat, hash: Token, err: Token, pf: FloatParser)
    requires i < |s| && Lex(s, i) == Ok(Lexed(hash, i + 1)) && hash.kind == Hash
    requires Lex(s, i + 1).Ok? && Lex(s, i + 1).value.tok == err && err.kind != LBrace
    ensures ReadNode(s, i, pf) == Err(ExpectedBrace(err.line, err.col))
  {
    hide Lex, ReadUntil;
  }

  lemma {:induction false} NoBraceFails(s: string, i: nat, g: Gap, c: char, rest: string, inside: Option<Kind>,
                                        pf: FloatParser)
    requires ValidFlaw(NoBrace(g, c, rest), inside, pf) && TextAt(s, i, "#" + (GapText(g) + ([c] + rest)), "")
    requires inside != Some(Hash)
    ensures FailsAt(s, i, NoBrace(g, c, rest), inside, pf)
  {
    var k := i + 1 + |GapText(g)|;
    hide LineAt, ColAt, Lex, TextAt, GapText, ReadNode, IsBlank;
    CharAt(s, i, "#" + (GapText(g) + ([c] + rest)), "", 0);
    TextAfter(s, i, "#", GapText(g) + ([c] + rest), "");
    TextAfter(s, i + 1, GapText(g), [c] + rest, "");
    GapSkipped(s, i + 1, g, [c] + rest + "");
    CharAt(s, k, [c] + rest, "", 0);
    TokenStarts(s, k);
    PunctuationReads(s, i, Hash);
    HashFails(s, i, Token(Hash, [s[i]], LineAt(s, i), ColAt(s, i)), Lex(s, k).value.tok, pf);
  }

  // ---------------------------------------------------------------------
  // Collections
  // ---------------------------------------------------------------------

  lemma {:induction false} UntilStepFails(s: string, i: nat, close: Kind, t: Tree, j: nat, err: EdnError,
                                          pf: FloatParser)
    requires i <= |s| && Closes(close) && ReadsAs(ReadNode(s, i, pf), t, j)
    ensures j <= |s| && (ReadUntil(s, j, close, pf) == Err(err) ==> ReadUntil(s, i, close, pf) == Err(err))
  {
    NodesStart(s, i, pf);
    hide Lex, ReadNode, Shape, NodeOf;
  }

  /** Elements can be read, and what stands behind them cannot. */
  lemma {:induction false} UntilFails(s: string, i: nat, ts: seq<Item>, tail: string, close: Kind, err: EdnError,
                                      pf: FloatParser)
    requires TextAt(s, i, PrintAll(ts) + tail, "") && ValidItems(ts, pf) && Ended(tail) && Closes(close)
    requires var j := i + |PrintAll(ts)|; j <= |s| && ReadUntil(s, j, close, pf) == Err(err)
    ensures i <= |s| && ReadUntil(s, i, close, pf) == Err(err)
    decreases |ts|
  {
    hide *;
    if ts == [] {
      assert |PrintAll([])| == 0 by { NothingPrinted(); }
    } else {
      ConsItems(ts, pf);
      assert tail + "" == tail;
      PrintCons(ts, "");
      FirstReads(s, i, ts, tail, "", pf);
      var j := i + |GapText(ts[0].gap)| + |Print(ts[0].tree)|;
      UntilStepFails(s, i, close, ts[0].tree, j, err, pf);
      UntilFails(s, j, ts[1..], tail, close, err, pf);
    }
  }

  lemma {:induction false} NothingPrinted()
    ensures PrintAll([]) == ""
  {
  }

  lemma {:induction false} NoEnd(s: string, i: nat, last: Gap, close: Kind, pf: FloatParser)
    requires TextAt(s, i, GapText(last), "") && GapOK(last)
    ensures i <= |s| && ReadUntil(s, i, close, pf) == Err(UnexpectedEnd)
  {
    hide *;
    GapToEnd(s, i, last);
    EndFails(s, close, pf);
    GapSkipped(s, i, last, "");
    SameTokenSameAll(s, i, |s|, pf);
  }

  lemma {:induction false} GapToEnd(s: string, i: nat, last: Gap)
    requires TextAt(s, i, GapText(last), "")
    ensures i + |GapText(last)| == |s|
  {
    hide GapText;
    assert |s[i..]| == |GapText(last)|;
  }

  lemma {:induction false} EndFails(s: string, close: Kind, pf: FloatParser)
    ensures ReadUntil(s, |s|, close, pf) == Err(UnexpectedEnd)
  {
  }

  lemma {:induction false} UnclosedFails(s: string, i: nat, kind: NodeKind, ts: seq<Item>, last: Gap,
                                         inside: Option<Kind>, pf: FloatParser)
    requires ValidFlaw(Unclosed(kind, ts, last), inside, pf) && (inside.Some? ==> Closes(inside.value))
    requires TextAt(s, i, Opening(kind) + (PrintAll(ts) + GapText(last)), "")
    ensures FailsAt(s, i, Unclosed(kind, ts, last), inside, pf)
  {
    var k := i + |Opening(kind)|;
    hide ReadNode, ReadUntil, Lex, TextAt, GapText, PrintAll, Opening, ValidItems, LineAt, ColAt, Ended;
    TextAfter(s, i, Opening(kind), PrintAll(ts) + GapText(last), "");
    TextAfter(s, k, PrintAll(ts), GapText(last), "");
    ClosingKinds(kind);
    NoEnd(s, k + |PrintAll(ts)|, last, ClosingKind(kind), pf);
    TailEnds(last, RParen, "");
    UntilFails(s, k, ts, GapText(last), ClosingKind(kind), UnexpectedEnd, pf);
    CollectionFails(s, i, kind, PrintAll(ts) + GapText(last), UnexpectedEnd, inside, pf);
  }

  /** A collection whose elements fail fails likewise. */
  lemma {:induction false} CollectionFails(s: string, i: nat, kind: NodeKind, tail: string, err: EdnError,
                                           inside: Option<Kind>, pf: FloatParser)
    requires IsCollection(kind) && TextAt(s, i, Opening(kind) + tail, "") && (inside.Some? ==> Closes(inside.value))
    requires i + |Opening(kind)| <= |s| && ReadUntil(s, i + |Opening(kind)|, ClosingKind(kind), pf) == Err(err)
    ensures i <= |s| && ReadNode(s, i, pf) == Err(err)
    ensures Lex(s, i).Ok? && Lex(s, i).value.tok.kind != EOF && Some(Lex(s, i).value.tok.kind) != inside
  {
    hide ReadNode, ReadUntil, Lex, TextAt, Opening;
    TextAfter(s, i, Opening(kind), tail, "");
    var tok := Opens(s, i, kind, tail + "", pf);
    OpeningToken(s, i, kind, tail + "");
  }

  lemma {:induction false} OpeningToken(s: string, i: nat, kind: NodeKind, rest: string)
    requires IsCollection(kind) && TextAt(s, i, Opening(kind), rest)
    ensures i < |s| && Lex(s, i).Ok? && var k := Lex(s, i).value.tok.kind; k != EOF && !Closes(k)
  {
    CharAt(s, i, Opening(kind), rest, 0);
    hide Lex, TextAt, LineAt, ColAt;
    PunctuationReads(s, i, Punctuation(s[i]).value);
  }

  lemma {:induction false} OddFails(s: string, i: nat, ts: seq<Item>, last: Gap, rest: string, inside: Option<Kind>,
                                    pf: FloatParser)
    requires ValidFlaw(Odd(ts, last, rest), inside, pf) && (inside.Some? ==> Closes(inside.value))
    requires TextAt(s, i, "{" + (PrintAll(ts) + (Tail(last, RBrace) + rest)), "")
    ensures FailsAt(s, i, Odd(ts, last, rest), inside, pf)
  {
    var tail := PrintAll(ts) + (Tail(last, RBrace) + rest);
    var end := i + 1 + |PrintAll(ts)| + |Tail(last, RBrace)|;
    hide *;
    ValidOdd(ts, last, rest, inside, pf);
    OpeningBrace(s, i, tail);
    TextAfter(s, i, "{", tail, "");
    Regroup(s, i + 1, PrintAll(ts), Tail(last, RBrace), rest);
    TreesRead(s, i + 1, ts, last, RBrace, rest, pf);
    var tok := OpensOther(s, i, NodeMap, LBrace, RBrace, pf);
    OddClosed(tok, ReadUntil(s, i + 1, RBrace, pf), ts, end);
    PunctuationReads(s, i, LBrace);
    FailsOdd(s, i, ts, last, rest, inside, pf);
  }

  lemma {:induction false} ValidOdd(ts: seq<Item>, last: Gap, rest: string, inside: Option<Kind>, pf: FloatParser)
    requires ValidFlaw(Odd(ts, last, rest), inside, pf)
    ensures |ts| % 2 == 1 && ValidItems(ts, pf) && GapOK(last)
  {
  }

  lemma {:induction false} OpeningBrace(s: string, i: nat, tail: string)
    requires TextAt(s, i, "{" + tail, "")
    ensures i < |s| && Punctuation(s[i]) == Some(LBrace) && Opened(LBrace) == Some((NodeMap, RBrace))
  {
    CharAt(s, i, "{" + tail, "", 0);
  }

  lemma {:induction false} FailsOdd(s: string, i: nat, ts: seq<Item>, last: Gap, rest: string, inside: Option<Kind>,
                                    pf: FloatParser)
    requires i < |s| && ReadNode(s, i, pf) == Err(OddMap(LineAt(s, i), ColAt(s, i)))
    requires Lex(s, i).Ok? && Lex(s, i).value.tok.kind == LBrace && (inside.Some? ==> Closes(inside.value))
    ensures FailsAt(s, i, Odd(ts, last, rest), inside, pf)
  {
    hide ReadNode, Lex, LineAt, ColAt;
  }

  lemma {:induction false} Regroup(s: string, i: nat, a: string, b: string, rest: string)
    requires TextAt(s, i, a + (b + rest), "")
    ensures TextAt(s, i, a + b, rest)
  {
    assert a + (b + rest) + "" == a + b + rest;
  }

  lemma {:induction false} OddClosed(tok: Token, r: Result<(seq<Node>, nat), EdnError>, ts: seq<Item>, end: nat)
    requires |ts| % 2 == 1 && ReadsAllAs(r, ts, end)
    ensures Closed(NodeMap, tok, r) == Err(OddMap(tok.line, tok.col))
  {
    assert |Shapes(r.value.0)| == |r.value.0|;
    hide Shapes, NodesOf;
  }

  // ---------------------------------------------------------------------
  // All flaws
  // ---------------------------------------------------------------------

  lemma {:induction false} FlawStarts(f: Flaw, inside: Option<Kind>, pf: FloatParser, rest: string)
    requires ValidFlaw(f, inside, pf)
    ensures Ended(FlawText(f) + rest)
  {
    var c := FlawText(f)[0];
    assert (FlawText(f) + rest)[0] == c;
    hide PrintAll, GapText, EscapedAll, Tail, ValidItems;
  }

  /** A gap before what cannot be read. */
  lemma {:induction false} GapFails(s: string, i: nat, gap: Gap, more: string, err: EdnError, close: Kind,
                                    pf: FloatParser)
    requires TextAt(s, i, GapText(gap) + more, "") && GapOK(gap) && Closes(close)
    requires FailsWith(s, i + |GapText(gap)|, err, Some(close), pf)
    ensures i <= |s| && ReadUntil(s, i, close, pf) == Err(err)
  {
    hide *;
    TextAfter(s, i, GapText(gap), more, "");
    GapSkipped(s, i, gap, more + "");
    SameTokenSameAll(s, i, i + |GapText(gap)|, pf);
    UntilStops(s, i + |GapText(gap)|, err, close, pf);
  }

  lemma {:induction false} UntilStops(s: string, i: nat, err: EdnError, close: Kind, pf: FloatParser)
    requires FailsWith(s, i, err, Some(close), pf)
    ensures i <= |s| && ReadUntil(s, i, close, pf) == Err(err)
  {
    hide Lex;
  }

  lemma {:induction false} GapThenFlaw(gap: Gap, f: Flaw, inside: Option<Kind>, pf: FloatParser)
    requires ValidFlaw(f, inside, pf)
    ensures Ended(GapText(gap) + FlawText(f))
  {
    hide Ended, FlawText, ValidFlaw;
    if gap == [] {
      FlawStarts(f, inside, pf, "");
      assert GapText(gap) + FlawText(f) == FlawText(f) + "";
    } else {
      GapStarts(gap, FlawText(f));
    }
  }

  lemma {:induction false} WithinFails(s: string, i: nat, kind: NodeKind, ts: seq<Item>, gap: Gap, f: Flaw,
                                       inside: Option<Kind>, pf: FloatParser)
    requires ValidFlaw(Within(kind, ts, gap, f), inside, pf) && (inside.Some? ==> Closes(inside.value))
    requires TextAt(s, i, Opening(kind) + (PrintAll(ts) + (GapText(gap) + FlawText(f))), "")
    ensures FailsAt(s, i, Within(kind, ts, gap, f), inside, pf)
    decreases f, 2
  {
    var k, more, close := i + |Opening(kind)|, GapText(gap) + FlawText(f), ClosingKind(kind);
    var j := k + |PrintAll(ts)|;
    hide *;
    ValidWithin(kind, ts, gap, f, inside, pf);
    TextAfter(s, i, Opening(kind), PrintAll(ts) + more, "");
    TextAfter(s, k, PrintAll(ts), more, "");
    TextAfter(s, j, GapText(gap), FlawText(f), "");
    FlawFails(s, j + |GapText(gap)|, f, Some(close), pf);
    var err := FailsWhere(s, j + |GapText(gap)|, f, Some(close), pf);
    GapFails(s, j, gap, FlawText(f), err, close, pf);
    GapThenFlaw(gap, f, Some(close), pf);
    UntilFails(s, k, ts, more, close, err, pf);
    CollectionFails(s, i, kind, PrintAll(ts) + more, err, inside, pf);
    FailsLike(s, i, kind, ts, gap, f, err, inside, pf);
  }

  lemma {:induction false} ValidWithin(kind: NodeKind, ts: seq<Item>, gap: Gap, f: Flaw, inside: Option<Kind>,
                                       pf: FloatParser)
    requires ValidFlaw(Within(kind, ts, gap, f), inside, pf)
    ensures IsCollection(kind) && ValidItems(ts, pf) && GapOK(gap) && ValidFlaw(f, Some(ClosingKind(kind)), pf)
    ensures Closes(ClosingKind(kind))
  {
  }

  lemma {:induction false} FailsWhere(s: string, i: nat, f: Flaw, inside: Option<Kind>, pf: FloatParser)
                                      returns (err: EdnError)
    requires FailsAt(s, i, f, inside, pf)
    ensures FailsWith(s, i, err, inside, pf)
    ensures var j := FlawAt(f, i); j <= |s| && err == FlawError(f, LineAt(s, j), ColAt(s, j))
  {
    hide FailsWith, FlawAt, FlawError, LineAt, ColAt;
    err := FlawError(f, LineAt(s, FlawAt(f, i)), ColAt(s, FlawAt(f, i)));
  }

  lemma {:induction false} FailsLike(s: string, i: nat, kind: NodeKind, ts: seq<Item>, gap: Gap, f: Flaw, err: EdnError,
                                     inside: Option<Kind>, pf: FloatParser)
    requires var j := FlawAt(f, i + |Opening(kind)| + |PrintAll(ts)| + |GapText(gap)|);
             j <= |s| && err == FlawError(f, LineAt(s, j), ColAt(s, j))
    requires i <= |s| && ReadNode(s, i, pf) == Err(err)
    requires Lex(s, i).Ok? && Lex(s, i).value.tok.kind != EOF && Some(Lex(s, i).value.tok.kind) != inside
    ensures FailsAt(s, i, Within(kind, ts, gap, f), inside, pf)
  {
    hide ReadNode, Lex, LineAt, ColAt, Opening, PrintAll, GapText;
  }

  /** A flaw at the end of a text stops the reader where it is. */
  lemma {:induction false} FlawFails(s: string, i: nat, f: Flaw, inside: Option<Kind>, pf: FloatParser)
    requires ValidFlaw(f, inside, pf) && (inside.Some? ==> Closes(inside.value)) && TextAt(s, i, FlawText(f), "")
    ensures FailsAt(s, i, f, inside, pf)
    decreases f, 1
  {
    hide FailsAt, TextAt, PrintAll, GapText, EscapedAll, Opening, Tail, ValidItems;
    match f
    case OpenString(_) => StringFails(s, i, f, inside, pf);
    case OpenEscape(_) => StringFails(s, i, f, inside, pf);
    case Stray(close, rest) => StrayFails(s, i, close, rest, inside, pf);
    case NoBrace(g, c, rest) => NoBraceFails(s, i, g, c, rest, inside, pf);
    case Odd(ts, last, rest) => OddFails(s, i, ts, last, rest, inside, pf);
    case Unclosed(kind, ts, last) => UnclosedFails(s, i, kind, ts, last, inside, pf);
    case Within(kind, ts, gap, flaw) => WithinFails(s, i, kind, ts, gap, flaw, inside, pf);
  }

  // ---------------------------------------------------------------------
  // Whole texts
  // ---------------------------------------------------------------------

  lemma {:induction false} AllStepFails(s: string, i: nat, t: Tree, j: nat, err: EdnError, pf: FloatParser)
    requires i <= |s| && ReadsAs(ReadNode(s, i, pf), t, j)
    ensures j <= |s| && (ReadAll(s, j, pf) == Err(err) ==> ReadAll(s, i, pf) == Err(err))
  {
    NodesStart(s, i, pf);
    hide Lex, ReadNode, Shape, NodeOf;
  }

  lemma {:induction false} AllFails(s: string, i: nat, ts: seq<Item>, tail: string, err: EdnError, pf: FloatParser)
    requires TextAt(s, i, PrintAll(ts) + tail, "") && ValidItems(ts, pf) && Ended(tail)
    requires var j := i + |PrintAll(ts)|; j <= |s| && ReadAll(s, j, pf) == Err(err)
    ensures i <= |s| && ReadAll(s, i, pf) == Err(err)
    decreases |ts|
  {
    hide *;
    if ts == [] {
      assert |PrintAll([])| == 0 by { NothingPrinted(); }
    } else {
      ConsItems(ts, pf);
      assert tail + "" == tail;
      PrintCons(ts, "");
      FirstReads(s, i, ts, tail, "", pf);
      var j := i + |GapText(ts[0].gap)| + |Print(ts[0].tree)|;
      AllStepFails(s, i, ts[0].tree, j, err, pf);
      AllFails(s, j, ts[1..], tail, err, pf);
    }
  }

  lemma {:induction false} AllStops(s: string, i: nat, err: EdnError, pf: FloatParser)
    requires FailsWith(s, i, err, None, pf)
    ensures i <= |s| && ReadAll(s, i, pf) == Err(err)
  {
    hide Lex;
  }

  lemma {:induction false} GapFailsAll(s: string, i: nat, gap: Gap, more: string, err: EdnError, pf: FloatParser)
    requires TextAt(s, i, GapText(gap) + more, "") && GapOK(gap) && FailsWith(s, i + |GapText(gap)|, err, None, pf)
    ensures i <= |s| && ReadAll(s, i, pf) == Err(err)
  {
    hide *;
    TextAfter(s, i, GapText(gap), more, "");
    GapSkipped(s, i, gap, more + "");
    SameTokenSameAll(s, i, i + |GapText(gap)|, pf);
    AllStops(s, i + |GapText(gap)|, err, pf);
  }

  /** Whatever trees, white space and comments stand before it, and however deeply it is
      nested, a flaw is reported as what it is, at its own line and column. */
  lemma {:induction false} FlawsAreReported(ts: seq<Item>, gap: Gap, f: Flaw, pf: FloatParser)
    requires ValidItems(ts, pf) && GapOK(gap) && ValidFlaw(f, None, pf)
    ensures var s := PrintAll(ts) + (GapText(gap) + FlawText(f));
            var j := FlawAt(f, |PrintAll(ts)| + |GapText(gap)|);
            j <= |s| && ReadAll(s, 0, pf) == Err(FlawError(f, LineAt(s, j), ColAt(s, j)))
  {
    hide *;
    FlawReported(PrintAll(ts) + (GapText(gap) + FlawText(f)), ts, gap, f, pf);
  }

  lemma {:induction false} FlawReported(s: string, ts: seq<Item>, gap: Gap, f: Flaw, pf: FloatParser)
    requires s == PrintAll(ts) + (GapText(gap) + FlawText(f))
    requires ValidItems(ts, pf) && GapOK(gap) && ValidFlaw(f, None, pf)
    ensures var j := FlawAt(f, |PrintAll(ts)| + |GapText(gap)|);
            j <= |s| && ReadAll(s, 0, pf) == Err(FlawError(f, LineAt(s, j), ColAt(s, j)))
  {
    var i, more := |PrintAll(ts)|, GapText(gap) + FlawText(f);
    hide *;
    WholeText(s);
    TextAfter(s, 0, PrintAll(ts), more, "");
    TextAfter(s, i, GapText(gap), FlawText(f), "");
    FlawFails(s, i + |GapText(gap)|, f, None, pf);
    var err := FailsWhere(s, i + |GapText(gap)|, f, None, pf);
    GapFailsAll(s, i, gap, FlawText(f), err, pf);
    GapThenFlaw(gap, f, None, pf);
    AllFails(s, 0, ts, more, err, pf);
  }

  lemma {:induction false} WholeText(s: string)
    ensures TextAt(s, 0, s, "")
  {
    assert s[0..] == s + "";
  }}
