/** The only place that prints queries: a query text is parsed, its saved searches are expanded, and the result is
    printed for the parser of the library. */
module QueryPrinting {
  import opened Basics
  import opened QueryAst
  import opened QueryText
  import opened QueryTyping
  import opened QuerySpelling
  import opened SavedSearch

  /** Saved searches read by the same parser. */
  function Saved(saved: map<string, string>): Env { Env(saved, text => Parse(text)) }

  lemma BodyIsReadable(saved: map<string, string>, name: string)
    requires Body(Saved(saved), name).Some?
    ensures var e := Body(Saved(saved), name).value; Grammatical(e) && Readable(e)
  {
    ParsedIsReadable(if TrimSpace(saved[name]) == "" then ALL_FILES else saved[name]);
  }

  /** Expansion replaces tags by groups and keeps everything else, so what it makes can be read back too. */
  lemma {:induction false} ExpandedIsReadable(saved: map<string, string>, e: Expression, stack: seq<string>)
    requires Grammatical(e) && Readable(e) && Expand(Saved(saved), e, stack).Done?
    ensures var x := Expand(Saved(saved), e, stack).value; Grammatical(x) && Readable(x)
    decreases |Unopened(Saved(saved), stack)|, e, |e.or| + 1
  {
    ExpandedOrIsReadable(saved, e, 0, stack);
  }

  lemma {:induction false} ExpandedOrIsReadable(saved: map<string, string>, e: Expression, i: nat, stack: seq<string>)
    requires Grammatical(e) && Readable(e) && i <= |e.or| && ExpandOr(Saved(saved), e, i, stack).Done?
    ensures var or := ExpandOr(Saved(saved), e, i, stack).value;
      |or| == |e.or| - i && forall k | 0 <= k < |or| :: GrammaticalAnd(or[k]) && ReadableAnd(or[k])
    decreases |Unopened(Saved(saved), stack)|, e, |e.or| - i
  {
    if i < |e.or| {
      assert GrammaticalAnd(e.or[i]) && ReadableAnd(e.or[i]);
      ExpandedAndIsReadable(saved, e.or[i], 0, stack);
      ExpandedOrIsReadable(saved, e, i + 1, stack);
      var and := AndTerm(ExpandAnd(Saved(saved), e.or[i], 0, stack).value);
      assert GrammaticalAnd(and) && ReadableAnd(and);
    }
  }

  lemma {:induction false} ExpandedAndIsReadable(saved: map<string, string>, a: AndTerm, j: nat, stack: seq<string>)
    requires GrammaticalAnd(a) && ReadableAnd(a) && j <= |a.and| && ExpandAnd(Saved(saved), a, j, stack).Done?
    ensures var and := ExpandAnd(Saved(saved), a, j, stack).value;
      |and| == |a.and| - j && forall k | 0 <= k < |and| :: GrammaticalFactor(and[k].factor) && ReadableTerm(and[k])
    decreases |Unopened(Saved(saved), stack)|, a, |a.and| - j
  {
    if j < |a.and| {
      assert ReadableTerm(a.and[j]);
      ExpandedFactorIsReadable(saved, a.and[j].factor, stack);
      ExpandedAndIsReadable(saved, a, j + 1, stack);
    }
  }

  lemma {:induction false} ExpandedFactorIsReadable(saved: map<string, string>, f: Factor, stack: seq<string>)
    requires GrammaticalFactor(f) && (f.Sub? ==> Readable(f.expr)) && ExpandFactor(Saved(saved), f, stack).Done?
    ensures var x := ExpandFactor(Saved(saved), f, stack).value;
      GrammaticalFactor(x) && (x.Sub? ==> Readable(x.expr)) && (x.Tag? ==> x == f)
    decreases |Unopened(Saved(saved), stack)|, f, 0
  {
    match f
    case Sub(e) => ExpandedIsReadable(saved, e, stack);
    case Tag(tag) =>
      if IsReference(tag) {
        var name := NameOf(tag).value;
        BodyIsReadable(saved, name);
        OpenedLess(Saved(saved), stack, name);
        ExpandedIsReadable(saved, Body(Saved(saved), name).value, stack + [name]);
      }
  }

  /** Whatever is printed is read back as it was: for every query text and every set of saved searches, parsing the
      printed expansion gives the expansion, as long as its tags are printable ASCII without a backslash. */
  lemma PrintedQueriesReadBack(text: string, saved: map<string, string>)
    requires Parse(text).Some? && Expand(Saved(saved), Parse(text).value, []).Done?
    requires PrintableTags(Expand(Saved(saved), Parse(text).value, []).value)
    ensures var x := Expand(Saved(saved), Parse(text).value, []).value; Parse(Format(x)) == Some(x)
  {
    ParsedIsReadable(text);
    ExpandedIsReadable(saved, Parse(text).value, []);
    ParseUndoesFormatIff(Expand(Saved(saved), Parse(text).value, []).value);
  }

  // ---------------------------------------------------------------- the stand-in for an empty saved search

  const YES := Term(false, Tag("@tagged"))
  const NO := Term(true, Tag("@tagged"))
  const EVERYTHING := Expression([AndTerm([YES]), AndTerm([NO])])

  lemma TaggedIsBare()
    ensures BareTag("@tagged") && Printable("@tagged")
  {
    var tag := "@tagged";
    assert tag[1..] == "tagged";
    WholeRun("tagged", NameChar);
    forall k | 0 <= k < |tag| && WordBegins(tag, k) ensures Fold(tag[k..]) != "not" && !TypeAt(tag[k..]) {
      assert k <= 1 && |tag[k..]| >= 6;
    }
  }

  lemma EverythingIsReadable()
    ensures Grammatical(EVERYTHING) && PrintableTags(EVERYTHING) && Readable(EVERYTHING)
  {
    TaggedIsBare();
    var yes, no := AndTerm([YES]), AndTerm([NO]);
    TaggedIsReadable(yes, YES);
    TaggedIsReadable(no, NO);
    assert EVERYTHING.or == [yes, no];
  }

  lemma TaggedIsReadable(a: AndTerm, t: Term)
    requires a == AndTerm([t]) && t.factor == Tag("@tagged") && Printable("@tagged")
    ensures GrammaticalAnd(a) && PrintableAnd(a) && ReadableAnd(a)
  {
    assert t.factor.tag[0] == '@';
  }

  /** The pieces of the stand-in. */
  function AllPieces(): List<Piece> {
    var tagged := Piece(Bare, "", "@tagged", "");
    Cons(OPENING, Cons(tagged, Cons(BAR, Cons(MINUS, Cons(tagged, Cons(CLOSING, Nil))))))
  }

  lemma AllPiecesSpell()
    ensures Text(AllPieces(), "") == ALL_FILES
  {
    var tagged := Piece(Bare, "", "@tagged", "");
    var last := Cons(tagged, Cons(CLOSING, Nil));
    LastShown(last);
    BarShown(Text(Cons(MINUS, last), ""));
    ShownAlone(tagged, Text(Cons(BAR, Cons(MINUS, last)), ""));
    ShownAlone(OPENING, Text(Cons(tagged, Cons(BAR, Cons(MINUS, last))), ""));
    StandInText();
  }

  lemma StandInText()
    ensures "(" + ("@tagged" + (" | " + "-@tagged)")) == ALL_FILES
  {
  }

  lemma LastShown(last: List<Piece>)
    requires last == Cons(Piece(Bare, "", "@tagged", ""), Cons(CLOSING, Nil))
    ensures Text(Cons(MINUS, last), "") == "-@tagged)"
  {
    ShownAlone(CLOSING, "");
    ShownAlone(last.head, Text(Cons(CLOSING, Nil), ""));
    ShownAlone(MINUS, Text(last, ""));
    assert Text(last, "") == "@tagged)";
  }

  lemma AllPiecesAreTyped()
    ensures Typed(AllPieces(), true)
  {
    var tagged := Piece(Bare, "", "@tagged", "");
    var last := Cons(tagged, Cons(CLOSING, Nil));
    TaggedIsBare();
    TypedFirst(CLOSING, Nil);
    TypedFirst(tagged, Cons(CLOSING, Nil));
    TypedFirst(MINUS, last);
    TypedFirst(BAR, Cons(MINUS, last));
    TypedFirst(tagged, Cons(BAR, Cons(MINUS, last)));
    TypedFirst(OPENING, Cons(tagged, Cons(BAR, Cons(MINUS, last))));
  }

  lemma TypedFirst(p: Piece, ps: List<Piece>)
    requires Good(p) && Typed(ps, !Completes(p))
    ensures Typed(Cons(p, ps), Begins(p))
  {
  }

  lemma SoleTerm(t: Term, rest: List<Token>)
    ensures TokensAnd(AndTerm([t]), 0, rest) == TokensTerm(t, rest)
  {
    assert TokensAnd(AndTerm([t]), 1, rest) == rest;
  }

  lemma AllPiecesAreTokens(e: Expression)
    requires e == One(Term(false, Sub(EVERYTHING)))
    ensures Unmarked(Meant(AllPieces(), Nil)) == Tokens(e, 0, Nil)
  {
    var closing: List<Token> := Cons(Op(')'), Nil);
    var no := Cons(Op('-'), Cons(Quoted("@tagged"), closing));
    SoleTerm(NO, closing);
    SoleTerm(YES, Cons(Op('|'), no));
    SoleTerm(Term(false, Sub(EVERYTHING)), Nil);
    assert Tokens(EVERYTHING, 1, closing) == no;
    assert Tokens(EVERYTHING, 0, closing) == Cons(Quoted("@tagged"), Cons(Op('|'), no));
    AllPiecesMean(Cons(Op('('), Cons(Quoted("@tagged"), Cons(Op('|'), no))));
  }

  lemma AllPiecesMean(ts: List<Token>)
    requires ts == Cons(Op('('), Cons(Quoted("@tagged"), Cons(Op('|'), Cons(Op('-'), Cons(Quoted("@tagged"),
      Cons(Op(')'), Nil))))))
    ensures Unmarked(Meant(AllPieces(), Nil)) == ts
  {
    var last := Cons(Piece(Bare, "", "@tagged", ""), Cons(CLOSING, Nil));
    assert Unmarked(Meant(last, Nil)) == Cons(Quoted("@tagged"), Cons(Op(')'), Nil));
  }

  lemma AllFilesParses(text: string)
    requires text == ALL_FILES
    ensures Parse(text) == Some(Expression([AndTerm([Term(false, Sub(EVERYTHING))])]))
  {
    var e := One(Term(false, Sub(EVERYTHING)));
    EverythingIsReadable();
    assert GrammaticalAnd(e.or[0]) && ReadableAnd(e.or[0]);
    AllPiecesSpell();
    AllPiecesAreTyped();
    AllPiecesAreTokens(e);
    TypedIsRead(AllPieces(), e);
  }

  /** With the real parser, an empty saved search selects every file. */
  lemma EmptySearchSelectsAll(saved: map<string, string>, lib: Library, mode: Target, name: string, x: Item)
    requires InUniverse(lib, mode, x) && name in saved && TrimSpace(saved[name]) == ""
    ensures Body(Saved(saved), name).Some? && Means(Saved(saved), lib, mode, Body(Saved(saved), name).value, [name], x)
  {
    AllFilesParses(ALL_FILES);
    EmptyMeansAll(Saved(saved), lib, mode, name, [name], x);
  }
}
