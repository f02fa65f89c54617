/** The trees typed and printed queries are read back as: any spelling of the connectives, quoted and bare tags, and the
    shorthands for types. */
module QuerySpelling {
  import opened Basics
  import opened QueryAst
  import opened QueryText
  import opened QueryTyping

  // ---------------------------------------------------------------- the parser reads bare and quoted tags alike

  function Unmarked(ts: List<Token>): List<Token> {
    match ts
    case Nil => Nil
    case Cons(t, rest) => Cons(if t.Word? then Quoted(t.text) else t, Unmarked(rest))
  }

  function RestUnmarked<X>(r: Option<(X, List<Token>)>): Option<(X, List<Token>)> {
    match r case None => None case Some(p) => Some((p.0, Unmarked(p.1)))
  }

  lemma {:induction false} FactorUnmarked(ts: List<Token>)
    ensures ParseFactor(Unmarked(ts)) == RestUnmarked(ParseFactor(ts))
    decreases Length(ts), 0
  {
    if ts.Cons? && ts.head.Op? { ExpressionUnmarked(ts.tail); }
  }

  lemma {:induction false} TermUnmarked(ts: List<Token>)
    ensures ParseTerm(Unmarked(ts)) == RestUnmarked(ParseTerm(ts))
    decreases Length(ts), 1
  {
    FactorUnmarked(if Literal(ts, '-') then ts.tail else ts);
  }

  lemma {:induction false} TermsUnmarked(ts: List<Token>)
    ensures ParseTerms(Unmarked(ts)) == RestUnmarked(ParseTerms(ts))
    decreases Length(ts), 2
  {
    TermUnmarked(ts);
    if ParseTerm(ts).Some? { TermsUnmarked(ParseTerm(ts).value.1); }
  }

  lemma {:induction false} AndsUnmarked(ts: List<Token>)
    ensures ParseAnds(Unmarked(ts)) == RestUnmarked(ParseAnds(ts))
    decreases Length(ts), 3
  {
    TermsUnmarked(ts);
    if ParseTerms(ts).Some? && ParseTerms(ts).value.1.Cons? { AndsUnmarked(ParseTerms(ts).value.1.tail); }
  }

  lemma {:induction false} ExpressionUnmarked(ts: List<Token>)
    ensures ParseExpression(Unmarked(ts)) == RestUnmarked(ParseExpression(ts))
    decreases Length(ts), 4
  {
    AndsUnmarked(ts);
  }

  /** Typed text is read as a tree exactly when its pieces stand for the tokens of that tree and the tree can be read
      back, whatever the spelling of each piece. */
  lemma TypedIsRead(ps: List<Piece>, e: Expression)
    requires Typed(ps, true) && Grammatical(e) && Unmarked(Meant(ps, Nil)) == Tokens(e, 0, Nil)
    ensures Parse(Text(ps, "")) == Some(e) <==> Readable(e)
  {
    var ts := Meant(ps, Nil);
    TypedTokens(ps, true);
    ExpressionUnmarked(ts);
    if Readable(e) { ParseExpressionTokens(e, Nil); }
    if Parse(Text(ps, "")) == Some(e) { ExpressionReadBack(e, Nil); }
  }

  // ---------------------------------------------------------------- a printer with any spelling

  /** How the connectives are spelled, and whether tags and types are typed without quotes where they can be. */
  datatype Style = Style(or: Piece, and: Piece, not: Piece, bare: bool)

  predicate GoodStyle(st: Style) {
    st.or.kind.Or? && Good(st.or) && st.and.kind.And? && Good(st.and) && st.not.kind.Not? && Good(st.not)
  }

  function TypeTree(extensions: List<string>): Expression { Expression(TypeAlternatives(extensions)) }

  function TypeAlternatives(extensions: List<string>): seq<AndTerm> {
    match extensions
    case Nil => []
    case Cons(ext, rest) => [AndTerm([Term(false, Tag("ext:" + ext))])] + TypeAlternatives(rest)
  }

  function Pieces(e: Expression, i: nat, rest: List<Piece>, st: Style): List<Piece>
    requires i <= |e.or|
    decreases e, |e.or| - i + 1
  {
    if i == |e.or| then rest
    else PiecesAnd(e.or[i], 0, if i + 1 < |e.or| then Cons(st.or, Pieces(e, i + 1, rest, st)) else rest, st)
  }

  function PiecesAnd(a: AndTerm, j: nat, rest: List<Piece>, st: Style): List<Piece>
    requires j <= |a.and|
    decreases a, |a.and| - j + 1
  {
    if j == |a.and| then rest
    else PiecesTerm(a.and[j], if j + 1 < |a.and| then Cons(st.and, PiecesAnd(a, j + 1, rest, st)) else rest, st)
  }

  function PiecesTerm(t: Term, rest: List<Piece>, st: Style): List<Piece>
    decreases t, 1
  {
    if t.not then Cons(st.not, PiecesFactor(t.factor, rest, st)) else PiecesFactor(t.factor, rest, st)
  }

  function PiecesFactor(f: Factor, rest: List<Piece>, st: Style): List<Piece>
    decreases f, 0
  {
    match f
    case Tag(tag) => Cons(TagPiece(tag, st), rest)
    case Sub(e) =>
      if Shorthand(e, st).Some? then Cons(Shorthand(e, st).value, rest)
      else Cons(OPENING, Pieces(e, 0, Cons(CLOSING, rest), st))
  }

  /** The type that stands for exactly this group. */
  function Shorthand(e: Expression, st: Style): Option<Piece> {
    if !st.bare then None
    else if e == TypeTree(IMAGE_EXTENSIONS) then Some(IMG)
    else if e == TypeTree(VIDEO_EXTENSIONS) then Some(VID)
    else None
  }

  const IMG := Piece(Images, "", "type:img", "")
  const VID := Piece(Films, "", "type:vid", "")

  function TagPiece(tag: string, st: Style): Piece {
    Piece(if st.bare && BareTag(tag) then Bare else InQuotes, "", tag, "")
  }

  function Spelled(e: Expression, st: Style): string { Text(Pieces(e, 0, Nil, st), "") }

  lemma {:induction false} PiecesAreTyped(e: Expression, i: nat, rest: List<Piece>, st: Style)
    requires Grammatical(e) && PrintableTags(e) && GoodStyle(st) && i < |e.or| && Typed(rest, false)
    ensures Typed(Pieces(e, i, rest, st), true)
    decreases e, |e.or| - i + 1
  {
    var more := rest;
    if i + 1 < |e.or| {
      PiecesAreTyped(e, i + 1, rest, st);
      more := Cons(st.or, Pieces(e, i + 1, rest, st));
    }
    assert GrammaticalAnd(e.or[i]) && PrintableAnd(e.or[i]);
    PiecesAndAreTyped(e.or[i], 0, more, st);
  }

  lemma {:induction false} PiecesAndAreTyped(a: AndTerm, j: nat, rest: List<Piece>, st: Style)
    requires GrammaticalAnd(a) && PrintableAnd(a) && GoodStyle(st) && j < |a.and| && Typed(rest, false)
    ensures Typed(PiecesAnd(a, j, rest, st), true)
    decreases a, |a.and| - j + 1
  {
    var more := rest;
    if j + 1 < |a.and| {
      PiecesAndAreTyped(a, j + 1, rest, st);
      more := Cons(st.and, PiecesAnd(a, j + 1, rest, st));
    }
    assert GrammaticalFactor(a.and[j].factor) && PrintableFactor(a.and[j].factor);
    PiecesTermIsTyped(a.and[j], more, st);
  }

  lemma {:induction false} PiecesTermIsTyped(t: Term, rest: List<Piece>, st: Style)
    requires GrammaticalFactor(t.factor) && PrintableFactor(t.factor) && GoodStyle(st) && Typed(rest, false)
    ensures Typed(PiecesTerm(t, rest, st), true)
    decreases t, 1
  {
    PiecesFactorIsTyped(t.factor, rest, st);
  }

  lemma {:induction false} PiecesFactorIsTyped(f: Factor, rest: List<Piece>, st: Style)
    requires GrammaticalFactor(f) && PrintableFactor(f) && GoodStyle(st) && Typed(rest, false)
    ensures Typed(PiecesFactor(f, rest, st), true)
    decreases f, 0
  {
    if f.Tag? {
      TagIsOperand(f.tag, st, rest);
    } else if Shorthand(f.expr, st).Some? {
      TypeIsOperand(Shorthand(f.expr, st).value, rest);
    } else {
      PiecesAreTyped(f.expr, 0, Cons(CLOSING, rest), st);
    }
  }

  lemma TagIsOperand(tag: string, st: Style, rest: List<Piece>)
    requires Typed(rest, false) && Printable(tag)
    ensures Typed(Cons(TagPiece(tag, st), rest), true)
  {
  }

  lemma TypeIsOperand(p: Piece, rest: List<Piece>)
    requires Typed(rest, false) && (p == IMG || p == VID)
    ensures Typed(Cons(p, rest), true)
  {
  }

  // ---------------------------------------------------------------- the tokens of a spelled tree

  lemma {:induction false} AlternativesAreTokens(before: seq<AndTerm>, extensions: List<string>, ts: List<Token>)
    requires extensions.Cons?
    ensures Unmarked(AlternativeTokens(extensions, ts))
      == Tokens(Expression(before + TypeAlternatives(extensions)), |before|, Cons(Op(')'), Unmarked(ts)))
    decreases extensions
  {
    var one := AndTerm([Term(false, Tag("ext:" + extensions.head))]);
    var e := Expression(before + TypeAlternatives(extensions));
    assert e.or[|before|] == one;
    if extensions.tail.Nil? {
      assert TypeAlternatives(extensions) == [one];
      OneTagTokens(one, "ext:" + extensions.head, Cons(Op(')'), Unmarked(ts)));
    } else {
      AlternativesAreTokens(before + [one], extensions.tail, ts);
      assert before + [one] + TypeAlternatives(extensions.tail) == before + TypeAlternatives(extensions);
      assert |TypeAlternatives(extensions.tail)| > 0;
      OneTagTokens(one, "ext:" + extensions.head, Cons(Op('|'), Tokens(e, |before| + 1, Cons(Op(')'), Unmarked(ts)))));
    }
  }

  lemma OneTagTokens(a: AndTerm, tag: string, rest: List<Token>)
    requires a == AndTerm([Term(false, Tag(tag))])
    ensures TokensAnd(a, 0, rest) == Cons(Quoted(tag), rest)
  {
    assert TokensAnd(a, 1, rest) == rest;
  }

  lemma TypeTokens(extensions: List<string>, ts: List<Token>)
    requires extensions.Cons?
    ensures Unmarked(AlternativeTokens(extensions, ts)) == Tokens(TypeTree(extensions), 0, Cons(Op(')'), Unmarked(ts)))
  {
    AlternativesAreTokens([], extensions, ts);
    assert [] + TypeAlternatives(extensions) == TypeAlternatives(extensions);
  }

  lemma {:induction false} PiecesMean(e: Expression, i: nat, rest: List<Piece>, st: Style)
    requires GoodStyle(st) && i <= |e.or|
    ensures Unmarked(Meant(Pieces(e, i, rest, st), Nil)) == Tokens(e, i, Unmarked(Meant(rest, Nil)))
    decreases e, |e.or| - i + 1
  {
    if i < |e.or| {
      var more := rest;
      if i + 1 < |e.or| {
        PiecesMean(e, i + 1, rest, st);
        more := Cons(st.or, Pieces(e, i + 1, rest, st));
      }
      PiecesAndMean(e.or[i], 0, more, st);
    }
  }

  lemma {:induction false} PiecesAndMean(a: AndTerm, j: nat, rest: List<Piece>, st: Style)
    requires GoodStyle(st) && j <= |a.and|
    ensures Unmarked(Meant(PiecesAnd(a, j, rest, st), Nil)) == TokensAnd(a, j, Unmarked(Meant(rest, Nil)))
    decreases a, |a.and| - j + 1
  {
    if j < |a.and| {
      PiecesAndMean(a, j + 1, rest, st);
      PiecesTermMeans(a.and[j], if j + 1 < |a.and| then Cons(st.and, PiecesAnd(a, j + 1, rest, st)) else rest, st);
    }
  }

  lemma {:induction false} PiecesTermMeans(t: Term, rest: List<Piece>, st: Style)
    requires GoodStyle(st)
    ensures Unmarked(Meant(PiecesTerm(t, rest, st), Nil)) == TokensTerm(t, Unmarked(Meant(rest, Nil)))
    decreases t, 1
  {
    PiecesFactorMeans(t.factor, rest, st);
  }

  lemma {:induction false} PiecesFactorMeans(f: Factor, rest: List<Piece>, st: Style)
    requires GoodStyle(st)
    ensures Unmarked(Meant(PiecesFactor(f, rest, st), Nil)) == TokensTerm(Term(false, f), Unmarked(Meant(rest, Nil)))
    decreases f, 0
  {
    if f.Sub? {
      if Shorthand(f.expr, st).Some? { ShorthandMeans(f.expr, st, Meant(rest, Nil)); }
      else { PiecesMean(f.expr, 0, Cons(CLOSING, rest), st); }
    }
  }

  lemma ShorthandMeans(e: Expression, st: Style, ts: List<Token>)
    requires Shorthand(e, st).Some?
    ensures Unmarked(Meaning(Shorthand(e, st).value, ts)) == Cons(Op('('), Tokens(e, 0, Cons(Op(')'), Unmarked(ts))))
  {
    TypeTokens(if e == TypeTree(IMAGE_EXTENSIONS) then IMAGE_EXTENSIONS else VIDEO_EXTENSIONS, ts);
  }

  /** However a tree is typed, with words or symbols for the connectives, with quotes or without them where they are not
      needed, and with types for their groups of extensions, the parser reads the tree back exactly when no unnegated
      factor of it is the one-character tag "-". */
  lemma SpellingIsReadBack(e: Expression, st: Style)
    requires Grammatical(e) && PrintableTags(e) && GoodStyle(st)
    ensures Parse(Spelled(e, st)) == Some(e) <==> Readable(e)
  {
    PiecesAreTyped(e, 0, Nil, st);
    PiecesMean(e, 0, Nil, st);
    TypedIsRead(Pieces(e, 0, Nil, st), e);
  }

  // ---------------------------------------------------------------- printed text

  /** The printer's own style: symbols, and every tag in quotes. */
  const PRINTED := Style(BAR, GAP, MINUS, false)

  lemma {:induction false} FormatIsSpelled(e: Expression, i: nat, rest: List<Piece>)
    requires i <= |e.or|
    ensures FormatExpression(e, i, Text(rest, "")) == Text(Pieces(e, i, rest, PRINTED), "")
    decreases e, |e.or| - i + 1
  {
    if i < |e.or| {
      var more := rest;
      if i + 1 < |e.or| {
        FormatIsSpelled(e, i + 1, rest);
        BarShown(FormatExpression(e, i + 1, Text(rest, "")));
        more := Cons(BAR, Pieces(e, i + 1, rest, PRINTED));
      }
      FormatAndIsSpelled(e.or[i], 0, more);
    }
  }

  lemma {:induction false} FormatAndIsSpelled(a: AndTerm, j: nat, rest: List<Piece>)
    requires j <= |a.and|
    ensures FormatAnd(a, j, Text(rest, "")) == Text(PiecesAnd(a, j, rest, PRINTED), "")
    decreases a, |a.and| - j + 1
  {
    if j < |a.and| {
      var more := rest;
      if j + 1 < |a.and| {
        FormatAndIsSpelled(a, j + 1, rest);
        EmptyPrefix(FormatAnd(a, j + 1, Text(rest, "")), "");
        more := Cons(GAP, PiecesAnd(a, j + 1, rest, PRINTED));
      }
      FormatTermIsSpelled(a.and[j], more);
    }
  }

  lemma {:induction false} FormatTermIsSpelled(t: Term, rest: List<Piece>)
    ensures FormatTerm(t, Text(rest, "")) == Text(PiecesTerm(t, rest, PRINTED), "")
    decreases t, 0
  {
    var factor := Text(PiecesFactor(t.factor, rest, PRINTED), "");
    if t.factor.Sub? {
      var e := t.factor.expr;
      FormatIsSpelled(e, 0, Cons(CLOSING, rest));
      SymbolShown(")", Text(rest, ""));
      SymbolShown("(", FormatExpression(e, 0, ")" + Text(rest, "")));
    }
    SymbolShown("-", factor);
    EmptyPrefix(factor, factor);
  }

  lemma SymbolShown(c: string, rest: string)
    ensures "" + (c + ("" + rest)) == c + rest
  {
  }

  lemma {:induction false} PrintedStays(e: Expression, i: nat, rest: List<Piece>)
    requires i <= |e.or|
    ensures Settled(Pieces(e, i, rest, PRINTED)) == Pieces(e, i, Settled(rest), PRINTED)
    decreases e, |e.or| - i + 1
  {
    if i < |e.or| {
      PrintedStays(e, i + 1, rest);
      PrintedAndStays(e.or[i], 0, if i + 1 < |e.or| then Cons(BAR, Pieces(e, i + 1, rest, PRINTED)) else rest);
    }
  }

  lemma {:induction false} PrintedAndStays(a: AndTerm, j: nat, rest: List<Piece>)
    requires j <= |a.and|
    ensures Settled(PiecesAnd(a, j, rest, PRINTED)) == PiecesAnd(a, j, Settled(rest), PRINTED)
    decreases a, |a.and| - j + 1
  {
    if j < |a.and| {
      PrintedAndStays(a, j + 1, rest);
      PrintedTermStays(a.and[j], if j + 1 < |a.and| then Cons(GAP, PiecesAnd(a, j + 1, rest, PRINTED)) else rest);
    }
  }

  lemma {:induction false} PrintedTermStays(t: Term, rest: List<Piece>)
    ensures Settled(PiecesTerm(t, rest, PRINTED)) == PiecesTerm(t, Settled(rest), PRINTED)
    decreases t, 0
  {
    assert Settle(MINUS) == MINUS && Settle(OPENING) == OPENING && Settle(CLOSING) == CLOSING;
    if t.factor.Sub? { PrintedStays(t.factor.expr, 0, Cons(CLOSING, rest)); }
  }

  /** The normalizer leaves printed text, and in it every quoted tag, byte for byte as it is. */
  lemma PrintedTextIsNormal(e: Expression)
    requires Grammatical(e) && PrintableTags(e)
    ensures Normalized(Format(e)) == Format(e)
  {
    PiecesAreTyped(e, 0, Nil, PRINTED);
    FormatIsSpelled(e, 0, Nil);
    PrintedStays(e, 0, Nil);
    TypedIsSettled(Pieces(e, 0, Nil, PRINTED), true);
  }

  /** Parsing undoes printing exactly when no unnegated factor is the one-character tag "-": for every query the
      grammar can build whose tags are printable ASCII without a backslash, quotes and spaces included. */
  lemma ParseUndoesFormatIff(e: Expression)
    requires Grammatical(e) && PrintableTags(e)
    ensures Parse(Format(e)) == Some(e) <==> Readable(e)
  {
    FormatIsSpelled(e, 0, Nil);
    SpellingIsReadBack(e, PRINTED);
  }

  /** What printed text is read as. */
  function ReadTokens(ts: List<Token>): Option<Expression> {
    match ParseExpression(ts) case Some((e, Nil)) => Some(e) case _ => None
  }

  lemma PrintedIsReadFromTokens(e: Expression)
    requires Grammatical(e) && PrintableTags(e)
    ensures Parse(Format(e)) == ReadTokens(Tokens(e, 0, Nil))
  {
    var ps := Pieces(e, 0, Nil, PRINTED);
    FormatIsSpelled(e, 0, Nil);
    PiecesAreTyped(e, 0, Nil, PRINTED);
    PiecesMean(e, 0, Nil, PRINTED);
    TypedTokens(ps, true);
    ExpressionUnmarked(Meant(ps, Nil));
  }

  /** The smallest tree that is printed as something else, or as nothing readable; the parser never builds it. */
  lemma HyphenTagIsMisread()
    ensures var hyphen := Term(false, Tag("-")); var a := Term(false, Tag("a"));
      && Parse(Format(Expression([AndTerm([hyphen])]))) == None
      && Parse(Format(Expression([AndTerm([hyphen, a])]))) == Some(Expression([AndTerm([Term(true, Tag("a"))])]))
  {
    var hyphen, a := Term(false, Tag("-")), Term(false, Tag("a"));
    var one, two := Expression([AndTerm([hyphen])]), Expression([AndTerm([hyphen, a])]);
    assert Printable("-") && Printable("a");
    PrintedIsReadFromTokens(one);
    PrintedIsReadFromTokens(two);
    HyphenTokens(hyphen, a);
    assert ParseTerm(Cons(Quoted("-"), Cons(Quoted("a"), Nil))) == Some((Term(true, Tag("a")), Nil));
  }

  lemma HyphenTokens(hyphen: Term, a: Term)
    requires hyphen == Term(false, Tag("-")) && a == Term(false, Tag("a"))
    ensures Tokens(Expression([AndTerm([hyphen])]), 0, Nil) == Cons(Quoted("-"), Nil)
    ensures Tokens(Expression([AndTerm([hyphen, a])]), 0, Nil) == Cons(Quoted("-"), Cons(Quoted("a"), Nil))
  {
    var one, two := AndTerm([hyphen]), AndTerm([hyphen, a]);
    assert TokensAnd(one, 1, Nil) == Nil && TokensAnd(two, 2, Nil) == Nil;
    assert TokensAnd(two, 1, Nil) == TokensTerm(a, Nil) == Cons(Quoted("a"), Nil);
    assert TokensAnd(two, 0, Nil) == TokensTerm(hyphen, Cons(Quoted("a"), Nil));
    assert TokensAnd(one, 0, Nil) == TokensTerm(hyphen, Nil);
  }

  // ---------------------------------------------------------------- words and types

  /** Words of letters and digits can be typed without quotes, unless they are connectives. */
  lemma PlainWordIsBare(word: string)
    requires word != "" && (forall k | 0 <= k < |word| :: IsWord(word[k])) && Fold(word) !in {"or", "and", "not"}
    ensures BareTag(word) && Printable(word)
  {
    WholeRun(word[1..], TagChar);
    forall k | 0 <= k < |word| && WordBegins(word, k) ensures Fold(word[k..]) != "not" && !TypeAt(word[k..]) {
      assert word[k..] == word;
      if |word| >= 8 { assert IsWord(word[..8][4]); }
    }
  }

  function One(t: Term): Expression { Expression([AndTerm([t])]) }

  /** `a not b` asks for a without b: for any two words that are no connectives, in any case, and any white space. */
  lemma NotExcludes(a: string, b: string, space: string, not: string, more: string)
    requires a != "" && (forall k | 0 <= k < |a| :: IsWord(a[k])) && Fold(a) !in {"or", "and", "not"}
    requires b != "" && (forall k | 0 <= k < |b| :: IsWord(b[k])) && Fold(b) !in {"or", "and", "not"}
    requires Blank(space) && space != "" && Fold(not) == "not" && Blank(more) && more != ""
    ensures Parse(a + space + not + more + b) == Some(Expression([AndTerm([Term(false, Tag(a)), Term(true, Tag(b))])]))
  {
    var st := Style(BAR, Piece(And, space, "", ""), Piece(Not, "", not, more), true);
    var t, u := Term(false, Tag(a)), Term(true, Tag(b));
    var e := Expression([AndTerm([t, u])]);
    PlainWordIsBare(a);
    PlainWordIsBare(b);
    assert IsWord(a[0]) && "-"[0] == '-';
    assert t.factor != Tag("-");
    assert GrammaticalAnd(e.or[0]) && PrintableAnd(e.or[0]) && ReadableAnd(e.or[0]);
    SpellingIsReadBack(e, st);
    TwoTerms(t, u, st);
    FourShown(TagPiece(a, st), st.and, st.not, TagPiece(b, st));
  }

  lemma FourShown(p: Piece, gap: Piece, not: Piece, q: Piece)
    requires p.kind.Bare? && q.kind.Bare? && gap.kind.And? && not.kind.Not?
    requires p.before == p.after == q.before == q.after == not.before == gap.core == gap.after == ""
    ensures Text(Cons(p, Cons(gap, Cons(not, Cons(q, Nil)))), "") == p.core + gap.before + not.core + not.after + q.core
  {
    LastTwoShown(not, q);
    ShownAlone(gap, not.core + (not.after + q.core));
    ShownAlone(p, gap.before + (not.core + (not.after + q.core)));
    Joined(p.core, gap.before, not.core, not.after, q.core);
  }

  lemma LastTwoShown(not: Piece, q: Piece)
    requires q.kind.Bare? && not.kind.Not? && q.before == q.after == not.before == ""
    ensures Text(Cons(not, Cons(q, Nil)), "") == not.core + (not.after + q.core)
  {
    ShownAlone(q, "");
    assert q.core + "" == q.core;
    assert Text(Cons(q, Nil), "") == Show(q, Text(Nil, ""));
    assert Text(Cons(not, Cons(q, Nil)), "") == Show(not, q.core);
    EmptyPrefix(not.core + (not.after + q.core), "");
  }

  lemma Joined(a: string, b: string, c: string, d: string, e: string)
    ensures a + (b + (c + (d + e))) == a + b + c + d + e
  {
  }

  lemma TwoTerms(t: Term, u: Term, st: Style)
    ensures Pieces(Expression([AndTerm([t, u])]), 0, Nil, st) == PiecesTerm(t, Cons(st.and, PiecesTerm(u, Nil, st)), st)
  {
    var a := AndTerm([t, u]);
    assert PiecesAnd(a, 1, Nil, st) == PiecesTerm(u, Nil, st);
    assert PiecesAnd(a, 0, Nil, st) == PiecesTerm(t, Cons(st.and, PiecesAnd(a, 1, Nil, st)), st);
  }

  lemma {:induction false} TypeTreeIsReadable(extensions: List<string>)
    requires PlainExtensions(extensions)
    ensures forall i | 0 <= i < |TypeAlternatives(extensions)| :: var a := TypeAlternatives(extensions)[i];
      GrammaticalAnd(a) && ReadableAnd(a) && PrintableAnd(a)
    decreases extensions
  {
    if extensions.Cons? {
      TypeTreeIsReadable(extensions.tail);
      ExtensionIsBare(extensions.head);
      var tag := "ext:" + extensions.head;
      assert Printable(tag) && tag != "-";
      var one := AndTerm([Term(false, Tag(tag))]);
      assert GrammaticalAnd(one) && ReadableAnd(one) && PrintableAnd(one);
    }
  }

  const TYPED := Style(BAR, GAP, MINUS, true)

  /** The two types are read as the groups of their extensions. */
  lemma TypesAreRead(images: bool)
    ensures var extensions := if images then IMAGE_EXTENSIONS else VIDEO_EXTENSIONS;
      Parse(if images then "type:img" else "type:vid") == Some(One(Term(false, Sub(TypeTree(extensions)))))
  {
    var extensions := if images then IMAGE_EXTENSIONS else VIDEO_EXTENSIONS;
    var t := Term(false, Sub(TypeTree(extensions)));
    if images { KnownImages(); } else { KnownVideos(); }
    TypeTreeIsReadable(extensions);
    assert GrammaticalAnd(AndTerm([t])) && PrintableAnd(AndTerm([t])) && ReadableAnd(AndTerm([t]));
    SpellingIsReadBack(One(t), TYPED);
    TypeIsSpelled(images, t);
  }

  lemma TypeIsSpelled(images: bool, t: Term)
    requires t == Term(false, Sub(TypeTree(if images then IMAGE_EXTENSIONS else VIDEO_EXTENSIONS)))
    ensures Spelled(One(t), TYPED) == if images then "type:img" else "type:vid"
  {
    var shown := if images then IMG.core else VID.core;
    VideosAreNotImages();
    assert PiecesAnd(AndTerm([t]), 0, Nil, TYPED) == PiecesTerm(t, Nil, TYPED);
    EmptyPrefix(shown, shown);
    assert shown + "" == shown;
  }

  lemma VideosAreNotImages()
    ensures TypeTree(VIDEO_EXTENSIONS) != TypeTree(IMAGE_EXTENSIONS)
  {
    assert TypeTree(VIDEO_EXTENSIONS).or[0].and[0].factor.tag[4] == 'm';
    assert TypeTree(IMAGE_EXTENSIONS).or[0].and[0].factor.tag[4] == 'j';
  }

  /** Is it one of the extensions, with its dot? */
  predicate Dotted(extensions: List<string>, ext: string) {
    extensions.Cons? && (ext == DottedExtension(extensions.head) || Dotted(extensions.tail, ext))
  }

  predicate SomeSelects(lib: Library, l: nat, ands: seq<AndTerm>)
    requires l in lib.locations
  {
    exists i | 0 <= i < |ands| :: SelectsAll(lib, Ids, ands[i], Id(l))
  }

  lemma SomeSelectsFirst(lib: Library, l: nat, one: AndTerm, rest: seq<AndTerm>)
    requires l in lib.locations
    ensures SomeSelects(lib, l, [one] + rest) <==> SelectsAll(lib, Ids, one, Id(l)) || SomeSelects(lib, l, rest)
  {
    var all := [one] + rest;
    if i :| 0 <= i < |rest| && SelectsAll(lib, Ids, rest[i], Id(l)) { assert all[i + 1] == rest[i]; }
    if SelectsAll(lib, Ids, one, Id(l)) { assert all[0] == one; }
  }

  lemma {:induction false} GroupSelects(lib: Library, l: nat, extensions: List<string>)
    requires l in lib.locations && PlainExtensions(extensions)
    ensures SomeSelects(lib, l, TypeAlternatives(extensions)) <==> Dotted(extensions, Fold(lib.locations[l].ext))
    decreases extensions
  {
    if extensions.Cons? {
      var one := AndTerm([Term(false, Tag("ext:" + extensions.head))]);
      GroupSelects(lib, l, extensions.tail);
      ExtensionSelects(lib, l, extensions.head, one);
      SomeSelectsFirst(lib, l, one, TypeAlternatives(extensions.tail));
    }
  }

  lemma ExtensionSelects(lib: Library, l: nat, ext: string, a: AndTerm)
    requires l in lib.locations && PlainExtension(ext) && a == AndTerm([Term(false, Tag("ext:" + ext))])
    ensures SelectsAll(lib, Ids, a, Id(l)) <==> Fold(lib.locations[l].ext) == DottedExtension(ext)
  {
    AskedForExtension(ext);
    assert a.and[0].not != SelectsFactor(lib, Ids, a.and[0].factor, Id(l))
      <==> Fold(lib.locations[l].ext) == DottedExtension(ext);
  }

  lemma AskedForExtension(ext: string)
    requires PlainExtension(ext)
    ensures Asked("ext:" + ext) == Extension(DottedExtension(ext)) && Fold(DottedExtension(ext)) == DottedExtension(ext)
  {
    var tag := "ext:" + ext;
    CutAt("ext", ext);
    assert "ext" + ":" + ext == tag;
    assert ParseTag(tag) == ("ext", ext) && !HasPrefix(tag, "@") by { assert tag[0] == 'e'; }
    DottedIsFolded(ext);
  }

  lemma DottedIsFolded(ext: string)
    requires PlainExtension(ext)
    ensures Fold(DottedExtension(ext)) == DottedExtension(ext)
  {
  }

  lemma ThreeDotted(a: string, b: string, c: string, rest: List<string>, ext: string)
    ensures Dotted(Cons(a, Cons(b, Cons(c, rest))), ext)
      <==> ext == DottedExtension(a) || ext == DottedExtension(b) || ext == DottedExtension(c) || Dotted(rest, ext)
  {
    assert Dotted(Cons(c, rest), ext) <==> ext == DottedExtension(c) || Dotted(rest, ext);
  }

  lemma Dot(ext: string, dotted: string)
    requires ext != "" && ext[0] != '.' && dotted == "." + ext
    ensures DottedExtension(ext) == dotted
  {
  }

  lemma ImageNames(ext: string)
    ensures Dotted(IMAGE_EXTENSIONS, ext) <==>
      ext in {".jpg", ".jpeg", ".png", ".gif", ".webp", ".ico", ".heic", ".heif", ".bmp", ".tiff", ".raw", ".cr2",
              ".nef", ".arw", ".orf"}
  {
    ThreeDotted("jpg", "jpeg", "png", Drop(IMAGE_EXTENSIONS, 3), ext);
    ThreeDotted("gif", "webp", ".ico", Drop(IMAGE_EXTENSIONS, 6), ext);
    Dot("jpg", ".jpg"); Dot("jpeg", ".jpeg"); Dot("png", ".png"); Dot("gif", ".gif"); Dot("webp", ".webp");
    LaterImageNames(ext);
  }

  lemma LaterImageNames(ext: string)
    ensures Dotted(Drop(IMAGE_EXTENSIONS, 6), ext) <==>
      ext in {".heic", ".heif", ".bmp", ".tiff", ".raw", ".cr2", ".nef", ".arw", ".orf"}
  {
    ThreeDotted("heic", "heif", "bmp", Drop(IMAGE_EXTENSIONS, 9), ext);
    ThreeDotted("tiff", "raw", "cr2", Drop(IMAGE_EXTENSIONS, 12), ext);
    ThreeDotted("nef", "arw", "orf", Nil, ext);
    Dot("heic", ".heic"); Dot("heif", ".heif"); Dot("bmp", ".bmp"); Dot("tiff", ".tiff"); Dot("raw", ".raw");
    Dot("cr2", ".cr2"); Dot("nef", ".nef"); Dot("arw", ".arw"); Dot("orf", ".orf");
  }

  lemma VideoNames(ext: string)
    ensures Dotted(VIDEO_EXTENSIONS, ext) <==>
      ext in {".mp4", ".mov", ".avi", ".mkv", ".webm", ".flv", ".wmv", ".mpeg", ".mpg"}
  {
    ThreeDotted("mp4", "mov", "avi", Drop(VIDEO_EXTENSIONS, 3), ext);
    Dot("mp4", ".mp4"); Dot("mov", ".mov"); Dot("avi", ".avi");
    LaterVideoNames(ext);
  }

  lemma LaterVideoNames(ext: string)
    ensures Dotted(Drop(VIDEO_EXTENSIONS, 3), ext) <==>
      ext in {".mkv", ".webm", ".flv", ".wmv", ".mpeg", ".mpg"}
  {
    ThreeDotted("mkv", "webm", "flv", Drop(VIDEO_EXTENSIONS, 6), ext);
    ThreeDotted("wmv", "mpeg", "mpg", Nil, ext);
    Dot("mkv", ".mkv"); Dot("webm", ".webm"); Dot("flv", ".flv");
    Dot("wmv", ".wmv"); Dot("mpeg", ".mpeg"); Dot("mpg", ".mpg");
  }

  /** `type:img` selects the files with these extensions, in any case, and no others. */
  lemma ImagesSelect(lib: Library, l: nat)
    requires l in lib.locations
    ensures Parse("type:img").Some?
    ensures Selects(lib, Ids, Parse("type:img").value, Id(l)) <==>
      Fold(lib.locations[l].ext) in {".jpg", ".jpeg", ".png", ".gif", ".webp", ".ico", ".heic", ".heif", ".bmp",
        ".tiff", ".raw", ".cr2", ".nef", ".arw", ".orf"}
  {
    TypesAreRead(true);
    KnownImages();
    GroupIsSelected(lib, l, IMAGE_EXTENSIONS);
    ImageNames(Fold(lib.locations[l].ext));
  }

  lemma VideosSelect(lib: Library, l: nat)
    requires l in lib.locations
    ensures Parse("type:vid").Some?
    ensures Selects(lib, Ids, Parse("type:vid").value, Id(l)) <==>
      Fold(lib.locations[l].ext) in {".mp4", ".mov", ".avi", ".mkv", ".webm", ".flv", ".wmv", ".mpeg", ".mpg"}
  {
    TypesAreRead(false);
    KnownVideos();
    GroupIsSelected(lib, l, VIDEO_EXTENSIONS);
    VideoNames(Fold(lib.locations[l].ext));
  }

  lemma GroupIsSelected(lib: Library, l: nat, extensions: List<string>)
    requires l in lib.locations && PlainExtensions(extensions)
    ensures Selects(lib, Ids, One(Term(false, Sub(TypeTree(extensions)))), Id(l))
      <==> Dotted(extensions, Fold(lib.locations[l].ext))
  {
    var e := One(Term(false, Sub(TypeTree(extensions))));
    GroupSelects(lib, l, extensions);
    assert Selects(lib, Ids, TypeTree(extensions), Id(l)) <==> SomeSelects(lib, l, TypeAlternatives(extensions));
    assert e.or[0].and[0] == Term(false, Sub(TypeTree(extensions)));
    assert SelectsAll(lib, Ids, e.or[0], Id(l)) <==> Selects(lib, Ids, TypeTree(extensions), Id(l));
  }
}
