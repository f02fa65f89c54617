/** The SQL builder: it appends text, arguments and aliases in place while it walks the query. Its output
    spells exactly the compiled relational term, and the text with its arguments determines that term. */
module QueryBuilder {
  import opened Basics
  import opened QueryAst
  import opened QueryCompiler

  /** The pieces of SQL text the builder writes. A leaf's text has its argument values blanked out. */
  datatype Token =
    | SelectFrom                               // SELECT c FROM (
    | UnionWord                                // UNION
    | EndSource(filtered: bool)                // ) AS tN, with WHERE 1=1 when filtered; N is the next alias
    | AllRows                                  // all locations WHERE 1=1
    | AllRowsNotIn                             // all locations WHERE c NOT IN (
    | AndIn                                    // AND c IN (
    | AndNotIn                                 // AND c NOT IN (
    | CloseParen
    | LeafText(shape: Leaf)

  function Quote(s: string): string { if s == "" then "" else (if s[0] == '"' then "\"\"" else [s[0]]) + Quote(s[1..]) }

  /** quoteFTS5Phrase */
  function Phrase(s: string): string { "\"" + Quote(s) + "\"" }

  function Arguments(leaf: Leaf): seq<string> {
    match leaf
    case FilenameScan(part, indexed) => if indexed then [Phrase(part), part] else [part]
    case InsideTarget(t) => if t.Some? then [t.value] else []
    case ByExtension(e) => [e]
    case ByMediaKind(k) => [k]
    case ExactAssociation(k, v) => [k, v]
    case KeyExists(k) => [k]
    case KeyJoin(k) => [k]
    case KeyAnyValue(k) => [k]
    case KeyNoValue(k) => [k]
    case KeyAnywhere(k) => [k]
    case _ => []
  }

  /** The fallback branch of a type: query is spelled out per kind, so its text depends on the kind. */
  function Shape(leaf: Leaf): Leaf {
    match leaf
    case FilenameScan(_, indexed) => FilenameScan("", indexed)
    case InsideTarget(t) => InsideTarget(if t.Some? then Some("") else None)
    case ByExtension(_) => ByExtension("")
    case ByMediaKind(k) => ByMediaKind(if Fold(k) in {"comic", "gif", "photo", "video", "other"} then Fold(k) else "")
    case ExactAssociation(_, _) => ExactAssociation("", "")
    case KeyExists(_) => KeyExists("")
    case KeyJoin(_) => KeyJoin("")
    case KeyAnyValue(_) => KeyAnyValue("")
    case KeyNoValue(_) => KeyNoValue("")
    case KeyAnywhere(_) => KeyAnywhere("")
    case _ => leaf
  }

  // ---------------------------------------------------------------- the text of a term

  /** The elements of `s`, then `rest`. */
  function Follow<T>(s: seq<T>, rest: List<T>): List<T> {
    if s == [] then rest else Follow(s[..|s| - 1], Cons(s[|s| - 1], rest))
  }

  lemma FollowOne<T>(s: seq<T>, x: T, rest: List<T>)
    ensures Follow(s + [x], rest) == Follow(s, Cons(x, rest))
  {
    assert (s + [x])[..|s|] == s;
  }

  lemma FollowFew<T>(s: seq<T>, rest: List<T>)
    ensures |s| == 1 ==> Follow(s, rest) == Cons(s[0], rest)
    ensures |s| == 2 ==> Follow(s, rest) == Cons(s[0], Cons(s[1], rest))
  {
    if |s| == 1 {
      assert s == [] + [s[0]];
      FollowOne([], s[0], rest);
    } else if |s| == 2 {
      assert s == [s[0]] + [s[1]];
      FollowOne([s[0]], s[1], rest);
      FollowFew([s[0]], Cons(s[1], rest));
    }
  }

  /** The tokens of a term, followed by `rest`. */
  function Text(r: Rel, rest: List<Token>): List<Token>
    decreases r
  {
    match r
    case Select(leaf) => Cons(LeafText(Shape(leaf)), rest)
    case Union(bs) =>
      var end := Cons(EndSource(false), rest);
      Cons(SelectFrom, if bs == [] then end else Text(bs[0], Branches(bs, 1, end)))
    case Complement(of) => Cons(AllRowsNotIn, Text(of, Cons(CloseParen, rest)))
    case Restrict(from, inside, outside) =>
      var conditions := Conditions(inside, 0, AndIn, Conditions(outside, 0, AndNotIn, rest));
      if from.Some? then Cons(SelectFrom, Text(from.value, Cons(EndSource(true), conditions)))
      else Cons(AllRows, conditions)
  }

  /** The branches of a union from number `i` on. */
  function Branches(bs: seq<Rel>, i: nat, rest: List<Token>): List<Token>
    requires i <= |bs|
    decreases bs, |bs| - i
  {
    if i == |bs| then rest else Cons(UnionWord, Text(bs[i], Branches(bs, i + 1, rest)))
  }

  /** The conditions of a list from number `i` on. */
  function Conditions(rs: seq<Rel>, i: nat, word: Token, rest: List<Token>): List<Token>
    requires i <= |rs|
    decreases rs, |rs| - i
  {
    if i == |rs| then rest
    else Cons(word, Text(rs[i], Cons(CloseParen, Conditions(rs, i + 1, word, rest))))
  }

  /** The bound values of a term in the order of their placeholders, followed by `rest`. */
  function Params(r: Rel, rest: List<string>): List<string>
    decreases r
  {
    match r
    case Select(leaf) => Follow(Arguments(leaf), rest)
    case Union(bs) => ParamsFrom(bs, 0, rest)
    case Complement(of) => Params(of, rest)
    case Restrict(from, inside, outside) =>
      var conditions := ParamsFrom(inside, 0, ParamsFrom(outside, 0, rest));
      if from.Some? then Params(from.value, conditions) else conditions
  }

  function ParamsFrom(rs: seq<Rel>, i: nat, rest: List<string>): List<string>
    requires i <= |rs|
    decreases rs, |rs| - i
  {
    if i == |rs| then rest else Params(rs[i], ParamsFrom(rs, i + 1, rest))
  }

  // ---------------------------------------------------------------- no input in the text

  /** Nothing of what a user typed is in the text of this leaf. */
  predicate Constant(leaf: Leaf) {
    match leaf
    case FilenameScan(part, _) => part == ""
    case InsideTarget(t) => t.None? || t.value == ""
    case ByExtension(e) => e == ""
    case ByMediaKind(k) => k in {"", "comic", "gif", "photo", "video", "other"}
    case ExactAssociation(k, v) => k == "" && v == ""
    case KeyExists(k) => k == ""
    case KeyJoin(k) => k == ""
    case KeyAnyValue(k) => k == ""
    case KeyNoValue(k) => k == ""
    case KeyAnywhere(k) => k == ""
    case Nothing => true
    case TaggedContents => true
    case OutsideTargets => true
  }

  predicate AllConstant(text: List<Token>) {
    text.Cons? ==> (text.head.LeafText? ==> Constant(text.head.shape)) && AllConstant(text.tail)
  }

  /** The text of a query is made of constant fragments: whatever a user typed is among the bound values. */
  lemma {:induction false} TextIsConstant(r: Rel, rest: List<Token>)
    requires AllConstant(rest)
    ensures AllConstant(Text(r, rest))
    decreases r, 2
  {
    match r
    case Select(leaf) =>
    case Complement(of) => TextIsConstant(of, Cons(CloseParen, rest));
    case Union(bs) =>
      BranchesAreConstant(r, 1, Cons(EndSource(false), rest));
      if bs != [] { TextIsConstant(bs[0], Branches(bs, 1, Cons(EndSource(false), rest))); }
    case Restrict(from, inside, outside) =>
      ConditionsAreConstant(r, outside, 0, AndNotIn, rest);
      ConditionsAreConstant(r, inside, 0, AndIn, Conditions(outside, 0, AndNotIn, rest));
      var conditions := Conditions(inside, 0, AndIn, Conditions(outside, 0, AndNotIn, rest));
      if from.Some? { TextIsConstant(from.value, Cons(EndSource(true), conditions)); }
  }

  lemma {:induction false} BranchesAreConstant(r: Rel, i: nat, rest: List<Token>)
    requires r.Union? && AllConstant(rest)
    ensures i <= |r.branches| ==> AllConstant(Branches(r.branches, i, rest))
    decreases r, 1, |r.branches| - i
  {
    if i < |r.branches| {
      BranchesAreConstant(r, i + 1, rest);
      TextIsConstant(r.branches[i], Branches(r.branches, i + 1, rest));
    }
  }

  lemma {:induction false} ConditionsAreConstant(r: Rel, rs: seq<Rel>, i: nat, word: Token, rest: List<Token>)
    requires r.Restrict? && (rs == r.inside || rs == r.outside) && i <= |rs| && AllConstant(rest) && !word.LeafText?
    ensures AllConstant(Conditions(rs, i, word, rest))
    decreases r, 1, |rs| - i
  {
    if i < |rs| {
      ConditionsAreConstant(r, rs, i + 1, word, rest);
      TextIsConstant(rs[i], Cons(CloseParen, Conditions(rs, i + 1, word, rest)));
    }
  }

  // ---------------------------------------------------------------- reading the text back

  /** What was read, and what is left of text and values. */
  datatype Read<T> = Read(value: T, text: List<Token>, args: List<string>)

  /** Takes a leaf's arguments off the front of the bound values. */
  function Fill(shape: Leaf, args: List<string>): Option<Read<Leaf>> {
    match shape
    case FilenameScan(_, indexed) =>
      if indexed then (if args.Cons?
        && args.tail.Cons? then Some(Read(FilenameScan(args.tail.head, true), Nil, args.tail.tail)) else None)
      else if args.Cons? then Some(Read(FilenameScan(args.head, false), Nil, args.tail)) else None
    case InsideTarget(t) =>
      if t.None? then Some(Read(shape, Nil, args))
      else if args.Cons? then Some(Read(InsideTarget(Some(args.head)), Nil, args.tail)) else None
    case ExactAssociation(_, _) =>
      if args.Cons? && args.tail.Cons?
        then Some(Read(ExactAssociation(args.head, args.tail.head), Nil, args.tail.tail)) else None
    case ByExtension(_) => if args.Cons? then Some(Read(ByExtension(args.head), Nil, args.tail)) else None
    case ByMediaKind(_) => if args.Cons? then Some(Read(ByMediaKind(args.head), Nil, args.tail)) else None
    case KeyExists(_) => if args.Cons? then Some(Read(KeyExists(args.head), Nil, args.tail)) else None
    case KeyJoin(_) => if args.Cons? then Some(Read(KeyJoin(args.head), Nil, args.tail)) else None
    case KeyAnyValue(_) => if args.Cons? then Some(Read(KeyAnyValue(args.head), Nil, args.tail)) else None
    case KeyNoValue(_) => if args.Cons? then Some(Read(KeyNoValue(args.head), Nil, args.tail)) else None
    case KeyAnywhere(_) => if args.Cons? then Some(Read(KeyAnywhere(args.head), Nil, args.tail)) else None
    case _ => Some(Read(shape, Nil, args))
  }

  lemma FillShape(leaf: Leaf, rest: List<string>)
    ensures Fill(Shape(leaf), Follow(Arguments(leaf), rest)) == Some(Read(leaf, Nil, rest))
  {
    FollowFew(Arguments(leaf), rest);
  }

  function ReadRel(text: List<Token>, args: List<string>): (r: Option<Read<Rel>>)
    ensures r.Some? ==> Length(r.value.text) < Length(text)
    decreases Length(text), 1
  {
    if text.Nil? then None
    else
      match text.head
      case LeafText(shape) =>
        (match Fill(shape, args)
         case None => None
         case Some(leaf) => Some(Read(Select(leaf.value), text.tail, leaf.args)))
      case AllRowsNotIn =>
        (match ReadRel(text.tail, args)
         case None => None
         case Some(of) => if of.text.Cons?
           && of.text.head.CloseParen? then Some(Read(Complement(of.value), of.text.tail, of.args)) else None)
      case AllRows => ReadRestrict(None, text.tail, args)
      case SelectFrom =>
        (match ReadRel(text.tail, args)
         case None => None
         case Some(first) =>
           if first.text.Nil? then None
           else if first.text.head.EndSource?
             && first.text.head.filtered then ReadRestrict(Some(first.value), first.text.tail, first.args)
           else ReadUnion([first.value], first.text, first.args))
      case _ => None
  }

  function ReadRestrict(from: Option<Rel>, text: List<Token>, args: List<string>): (r: Option<Read<Rel>>)
    ensures r.Some? ==> Length(r.value.text) <= Length(text)
    decreases Length(text), 2
  {
    match ReadConditions(AndIn, [], text, args)
    case None => None
    case Some(inside) =>
      match ReadConditions(AndNotIn, [], inside.text, inside.args)
      case None => None
      case Some(outside) => Some(Read(Restrict(from, inside.value, outside.value), outside.text, outside.args))
  }

  function ReadConditions(word: Token, before: seq<Rel>, text: List<Token>,
      args: List<string>): (r: Option<Read<seq<Rel>>>)
    ensures r.Some? ==> Length(r.value.text) <= Length(text)
    decreases Length(text), 0
  {
    if text.Nil? || text.head != word then Some(Read(before, text, args))
    else
      match ReadRel(text.tail, args)
      case None => None
      case Some(one) =>
        if one.text.Nil? || !one.text.head.CloseParen? then None
        else ReadConditions(word, before + [one.value], one.text.tail, one.args)
  }

  function ReadUnion(before: seq<Rel>, text: List<Token>, args: List<string>): (r: Option<Read<Rel>>)
    ensures r.Some? ==> Length(r.value.text) < Length(text)
    decreases Length(text), 0
  {
    if text.Nil? then None
    else if text.head.EndSource? then Some(Read(Union(before), text.tail, args))
    else if !text.head.UnionWord? then None
    else
      match ReadRel(text.tail, args)
      case None => None
      case Some(next) => ReadUnion(before + [next.value], next.text, next.args)
  }

  /** Terms as the compiler builds them: a union has a branch. */
  predicate Shaped(r: Rel) {
    match r
    case Select(_) => true
    case Union(bs) => |bs| > 0 && forall i | 0 <= i < |bs| :: Shaped(bs[i])
    case Complement(of) => Shaped(of)
    case Restrict(from, inside, outside) =>
      && (from.Some? ==> Shaped(from.value))
      && (forall i | 0 <= i < |inside| :: Shaped(inside[i])) && (forall i | 0 <= i < |outside| :: Shaped(outside[i]))
  }

  /** What may follow a complete term: not a further condition. */
  predicate Closed(rest: List<Token>) { rest.Nil? || !(rest.head.AndIn? || rest.head.AndNotIn?) }

  lemma {:induction false} ReadText(r: Rel, rest: List<Token>, args: List<string>)
    requires Shaped(r) && Closed(rest)
    ensures ReadRel(Text(r, rest), Params(r, args)) == Some(Read(r, rest, args))
    decreases r, 2
  {
    match r
    case Select(leaf) => FillShape(leaf, args);
    case Complement(of) => ReadText(of, Cons(CloseParen, rest), args);
    case Union(bs) =>
      ReadText(bs[0], Branches(bs, 1, Cons(EndSource(false), rest)), ParamsFrom(bs, 1, args));
      ReadBranches(r, 1, Cons(EndSource(false), rest), args);
      assert bs[..1] == [bs[0]];
    case Restrict(from, inside, outside) =>
      ReadBoth(r, rest, args);
      if from.Some? {
        ReadText(from.value, Cons(EndSource(true),
          Conditions(inside, 0, AndIn, Conditions(outside, 0, AndNotIn, rest))),
                 ParamsFrom(inside, 0, ParamsFrom(outside, 0, args)));
      }
  }

  lemma {:induction false} ReadBranches(r: Rel, i: nat, end: List<Token>, args: List<string>)
    requires r.Union? && Shaped(r) && 0 < i <= |r.branches| && end.Cons? && end.head == EndSource(false)
    ensures ReadUnion(r.branches[..i], Branches(r.branches, i, end), ParamsFrom(r.branches, i, args))
      == Some(Read(r, end.tail, args))
    decreases r, 1, |r.branches| - i
  {
    var bs := r.branches;
    if i == |bs| {
      assert bs[..i] == bs;
    } else {
      ReadText(bs[i], Branches(bs, i + 1, end), ParamsFrom(bs, i + 1, args));
      assert bs[..i] + [bs[i]] == bs[..i + 1];
      ReadBranches(r, i + 1, end, args);
    }
  }

  lemma {:induction false} ReadBoth(r: Rel, rest: List<Token>, args: List<string>)
    requires r.Restrict? && Shaped(r) && Closed(rest)
    ensures ReadRestrict(r.from, Conditions(r.inside, 0, AndIn, Conditions(r.outside, 0, AndNotIn, rest)),
                         ParamsFrom(r.inside, 0, ParamsFrom(r.outside, 0, args))) == Some(Read(r, rest, args))
    decreases r, 1, |r.inside| + |r.outside| + 1
  {
    ReadList(r, r.inside, 0, AndIn, Conditions(r.outside, 0, AndNotIn, rest), ParamsFrom(r.outside, 0, args));
    ReadList(r, r.outside, 0, AndNotIn, rest, args);
    assert r.inside[..0] == [] && r.outside[..0] == [];
  }

  lemma {:induction false} ReadList(r: Rel, rs: seq<Rel>, i: nat, word: Token, rest: List<Token>, args: List<string>)
    requires r.Restrict? && Shaped(r) && (rs == r.inside || rs == r.outside) && i <= |rs|
      && (rest.Nil? || rest.head != word)
    ensures ReadConditions(word, rs[..i], Conditions(rs, i, word, rest), ParamsFrom(rs, i, args))
      == Some(Read(rs, rest, args))
    decreases r, 1, |rs| - i
  {
    if i == |rs| {
      assert rs[..i] == rs;
    } else {
      ReadText(rs[i], Cons(CloseParen, Conditions(rs, i + 1, word, rest)), ParamsFrom(rs, i + 1, args));
      assert rs[..i] + [rs[i]] == rs[..i + 1];
      ReadList(r, rs, i + 1, word, rest, args);
    }
  }

  /** Text and values together determine the term: no two queries are written alike unless they are compiled
      alike, and every parenthesis and placeholder is where a reader of the text expects it. */
  lemma TextDeterminesTerm(r: Rel, s: Rel)
    requires Shaped(r) && Shaped(s) && Text(r, Nil) == Text(s, Nil) && Params(r, Nil) == Params(s, Nil)
    ensures r == s
  {
    ReadText(r, Nil, Nil);
    ReadText(s, Nil, Nil);
  }

  lemma {:induction false} CompiledIsShaped(e: Expression, counts: Counts, mode: Target)
    requires Grammatical(e)
    ensures Shaped(Compile(e, counts, mode))
    decreases e, 1
  {
    forall i | 0 <= i < |e.or| ensures Shaped(CompileAnd(e.or[i], counts, mode)) { AndIsShaped(e.or[i], counts, mode); }
  }

  lemma {:induction false} AndIsShaped(a: AndTerm, counts: Counts, mode: Target)
    requires GrammaticalAnd(a)
    ensures Shaped(CompileAnd(a, counts, mode))
    decreases a, 1
  {
    forall i | 0 <= i < |a.and| ensures Shaped(CompileFactor(a.and[i].factor, counts, mode)) {
      var f := a.and[i].factor;
      if f.Sub? { CompiledIsShaped(f.expr, counts, mode); }
    }
    forall o: Operand | o.index < |a.and| ensures Shaped(CompileFactor(a.and[o.index].factor, counts, mode)) { }
    var positive, negative := Sorted(Signed(Operands(a, counts), false)), Signed(Operands(a, counts), true);
    AllShaped(a, negative, counts, mode);
    if positive != [] {
      assert positive[0] in positive && forall o | o in positive[1..] :: o in positive;
      AllShaped(a, positive[1..], counts, mode);
    }
  }

  lemma AllShaped(a: AndTerm, os: seq<Operand>, counts: Counts, mode: Target)
    requires GrammaticalAnd(a) && forall o | o in os :: o.index < |a.and|
    requires forall i | 0 <= i < |a.and| :: Shaped(CompileFactor(a.and[i].factor, counts, mode))
    ensures forall i | 0 <= i < |os| :: Shaped(CompileAll(a, os, counts, mode)[i])
  {
    forall i | 0 <= i < |os| ensures Shaped(CompileAll(a, os, counts, mode)[i]) { assert os[i] in os; }
  }

  class SQLBuilder {
    var query: seq<Token>
    var args: seq<string>
    var aliasCounter: nat
    ghost var aliases: seq<nat>   // the aliases written so far, in the order of the text
    const counts: Counts
    const mode: Target

    constructor (tagCounts: Counts, target: Target)
      ensures Valid() && query == [] && args == [] && counts == tagCounts && mode == target
    {
      query, args, aliasCounter, aliases, counts, mode := [], [], 0, [], tagCounts, target;
    }

    /** Every alias is used once: the text names its sources t0, t1, t2, ... */
    ghost predicate Valid()
      reads this
    {
      |aliases| == aliasCounter && forall i | 0 <= i < |aliases| :: aliases[i] == i
    }

    // Every method is told, as ghost parameters, the text and the values that follow what it writes.

    method Write(t: Token, ghost rest: List<Token>)
      modifies this`query
      ensures Follow(query, rest) == Follow(old(query), Cons(t, rest))
    {
      FollowOne(query, t, rest);
      query := query + [t];
    }

    method Bind(values: seq<string>, ghost left: List<string>)
      modifies this`args
      ensures Follow(args, left) == Follow(old(args), Follow(values, left))
    {
      FollowAppend(args, values, left);
      args := args + values;
    }

    /** ) AS t<alias> */
    method CloseSource(filtered: bool, ghost rest: List<Token>)
      requires Valid()
      modifies this`query, this`aliasCounter, this`aliases
      ensures Valid() && Follow(query, rest) == Follow(old(query), Cons(EndSource(filtered), rest))
    {
      aliases := aliases + [aliasCounter];
      aliasCounter := aliasCounter + 1;
      Write(EndSource(filtered), rest);
    }

    /** Since the old state the builder wrote exactly the text and values of `r`. */
    twostate predicate Wrote(r: Rel, rest: List<Token>, left: List<string>)
      reads this
    {
      Valid() && Follow(query, rest) == Follow(old(query), Text(r, rest))
        && Follow(args, left) == Follow(old(args), Params(r, left))
    }

    method BuildExpression(e: Expression, ghost rest: List<Token>, ghost left: List<string>)
      requires Valid() && Grammatical(e)
      modifies this
      ensures Wrote(Compile(e, counts, mode), rest, left)
      decreases e, 1
    {
      if |e.or| == 1 { BuildAndTerm(e.or[0], rest, left); }
        else { BuildUnion(e, Compile(e, counts, mode).branches, rest, left); }
    }

    method BuildUnion(e: Expression, ghost bs: seq<Rel>, ghost rest: List<Token>, ghost left: List<string>)
      requires Valid() && Grammatical(e) && |e.or| > 1 && |bs| == |e.or|
      requires forall i | 0 <= i < |bs| :: bs[i] == CompileAnd(e.or[i], counts, mode)
      modifies this
      ensures Wrote(Union(bs), rest, left)
      decreases e, 0
    {
      ghost var end := Cons(EndSource(false), rest);
      Write(SelectFrom, Text(bs[0], Branches(bs, 1, end)));
      assert bs[0] == CompileAnd(e.or[0], counts, mode);
      BuildAndTerm(e.or[0], Branches(bs, 1, end), ParamsFrom(bs, 1, left));
      var i := 1;
      while i < |e.or|
        invariant 1 <= i <= |e.or| && Valid()
        invariant Follow(query, Branches(bs, i, end)) == Follow(old(query), Text(Union(bs), rest))
        invariant Follow(args, ParamsFrom(bs, i, left)) == Follow(old(args), Params(Union(bs), left))
      {
        Write(UnionWord, Text(bs[i], Branches(bs, i + 1, end)));
        BuildAndTerm(e.or[i], Branches(bs, i + 1, end), ParamsFrom(bs, i + 1, left));
        i := i + 1;
      }
      CloseSource(false, rest);
    }

    method BuildAndTerm(a: AndTerm, ghost rest: List<Token>, ghost left: List<string>)
      requires Valid() && GrammaticalAnd(a)
      modifies this
      ensures Wrote(CompileAnd(a, counts, mode), rest, left)
      decreases a, 3
    {
      if |a.and| == 1 {
        BuildTerm(a.and[0], rest, left);
        return;
      }
      var positive, negative := Partition(a);
      positive := Sorted(positive);
      if |positive| == 0 { BuildUndriven(a, negative, rest, left); }
        else { BuildDriven(a, positive, negative, rest, left); }
    }

    /** The two lists of the loop that separates negated terms from the others. */
    method Partition(a: AndTerm) returns (positive: seq<Operand>, negative: seq<Operand>)
      ensures positive == Signed(Operands(a, counts), false) && negative == Signed(Operands(a, counts), true)
    {
      positive, negative := [], [];
      var os := Operands(a, counts);
      var i := 0;
      while i < |a.and|
        invariant 0 <= i <= |a.and|
        invariant positive == Signed(os[..i], false) && negative == Signed(os[..i], true)
      {
        assert os[..i + 1][..i] == os[..i];
        if os[i].not { negative := negative + [os[i]]; } else { positive := positive + [os[i]]; }
        i := i + 1;
      }
      assert os[..i] == os;
    }

    method BuildUndriven(a: AndTerm, negative: seq<Operand>, ghost rest: List<Token>, ghost left: List<string>)
      requires Valid() && GrammaticalAnd(a) && forall o | o in negative :: o.index < |a.and|
      modifies this
      ensures Wrote(Restrict(None, [], CompileAll(a, negative, counts, mode)), rest, left)
      decreases a, 2
    {
      ghost var outside := CompileAll(a, negative, counts, mode);
      Write(AllRows, Conditions(outside, 0, AndNotIn, rest));
      BuildConditions(a, negative, AndNotIn, outside, rest, left);
    }

    method BuildDriven(a: AndTerm, positive: seq<Operand>, negative: seq<Operand>, ghost rest: List<Token>,
        ghost left: List<string>)
      requires Valid() && GrammaticalAnd(a) && positive != []
      requires (forall o | o in positive :: o.index < |a.and|) && forall o | o in negative :: o.index < |a.and|
      modifies this
      ensures positive[0] in positive && forall o | o in positive[1..] :: o in positive
      ensures Wrote(Restrict(Some(CompileFactor(a.and[positive[0].index].factor, counts, mode)),
                             CompileAll(a, positive[1..], counts, mode), CompileAll(a, negative, counts, mode)), rest,
                               left)
      decreases a, 2
    {
      assert positive[0] in positive && forall o | o in positive[1..] :: o in positive;
      ghost var inside, outside := CompileAll(a, positive[1..], counts, mode), CompileAll(a, negative, counts, mode);
      ghost var second := Conditions(outside, 0, AndNotIn, rest);
      ghost var first := Conditions(inside, 0, AndIn, second);
      BuildSource(a.and[positive[0].index].factor, first, ParamsFrom(inside, 0, ParamsFrom(outside, 0, left)));
      BuildConditions(a, positive[1..], AndIn, inside, second, ParamsFrom(outside, 0, left));
      BuildConditions(a, negative, AndNotIn, outside, rest, left);
    }

    /** SELECT c FROM ( factor ) AS t WHERE 1=1 */
    method BuildSource(f: Factor, ghost rest: List<Token>, ghost left: List<string>)
      requires Valid() && GrammaticalFactor(f)
      modifies this
      ensures var r := CompileFactor(f, counts, mode);
        && Valid() && Follow(query, rest) == Follow(old(query), Cons(SelectFrom, Text(r, Cons(EndSource(true), rest))))
        && Follow(args, left) == Follow(old(args), Params(r, left))
      decreases f, 4
    {
      Write(SelectFrom, Text(CompileFactor(f, counts, mode), Cons(EndSource(true), rest)));
      BuildFactor(f, Cons(EndSource(true), rest), left);
      CloseSource(true, rest);
    }

    /** AND c [NOT] IN ( factor ) for every operand of a list. */
    method BuildConditions(a: AndTerm, os: seq<Operand>, word: Token, ghost rs: seq<Rel>, ghost rest: List<Token>,
        ghost left: List<string>)
      requires Valid() && GrammaticalAnd(a) && (forall o | o in os :: o.index < |a.and|)
        && rs == CompileAll(a, os, counts, mode)
      modifies this
      ensures Valid() && Follow(query, rest) == Follow(old(query), Conditions(rs, 0, word, rest))
      ensures Follow(args, left) == Follow(old(args), ParamsFrom(rs, 0, left))
      decreases a, 1
    {
      var i := 0;
      while i < |os|
        invariant 0 <= i <= |os| && Valid()
        invariant Follow(query, Conditions(rs, i, word, rest)) == Follow(old(query), Conditions(rs, 0, word, rest))
        invariant Follow(args, ParamsFrom(rs, i, left)) == Follow(old(args), ParamsFrom(rs, 0, left))
      {
        assert os[i] in os && rs[i] == CompileFactor(a.and[os[i].index].factor, counts, mode);
        BuildCondition(a.and[os[i].index].factor, word, Conditions(rs, i + 1, word, rest), ParamsFrom(rs, i + 1, left));
        i := i + 1;
      }
    }

    method BuildCondition(f: Factor, word: Token, ghost rest: List<Token>, ghost left: List<string>)
      requires Valid() && GrammaticalFactor(f)
      modifies this
      ensures var r := CompileFactor(f, counts, mode);
        && Valid() && Follow(query, rest) == Follow(old(query), Cons(word, Text(r, Cons(CloseParen, rest))))
        && Follow(args, left) == Follow(old(args), Params(r, left))
      decreases f, 4
    {
      Write(word, Text(CompileFactor(f, counts, mode), Cons(CloseParen, rest)));
      BuildFactor(f, Cons(CloseParen, rest), left);
      Write(CloseParen, rest);
    }

    method BuildTerm(t: Term, ghost rest: List<Token>, ghost left: List<string>)
      requires Valid() && GrammaticalFactor(t.factor)
      modifies this
      ensures Wrote(if t.not then Complement(CompileFactor(t.factor, counts, mode))
        else CompileFactor(t.factor, counts, mode), rest, left)
      decreases t, 2
    {
      if t.not {
        Write(AllRowsNotIn, Text(CompileFactor(t.factor, counts, mode), Cons(CloseParen, rest)));
        BuildFactor(t.factor, Cons(CloseParen, rest), left);
        Write(CloseParen, rest);
      } else {
        BuildFactor(t.factor, rest, left);
      }
    }

    method BuildFactor(f: Factor, ghost rest: List<Token>, ghost left: List<string>)
      requires Valid() && GrammaticalFactor(f)
      modifies this
      ensures Wrote(CompileFactor(f, counts, mode), rest, left)
      decreases f, 3
    {
      match f
      case Sub(e) => BuildExpression(e, rest, left);
      case Tag(tag) =>
        var leaf := CompileTag(tag, counts, mode);
        Write(LeafText(Shape(leaf)), rest);
        Bind(Arguments(leaf), left);
    }
  }

  lemma {:induction false} FollowAppend<T>(a: seq<T>, b: seq<T>, rest: List<T>)
    ensures Follow(a + b, rest) == Follow(a, Follow(b, rest))
    decreases |b|
  {
    if b == [] {
      assert a + b == a;
    } else {
      var init, last := b[..|b| - 1], b[|b| - 1];
      assert (a + b)[..|a + b| - 1] == a + init && (a + b)[|a + b| - 1] == last;
      FollowAppend(a, init, Cons(last, rest));
    }
  }

  /** Build and BuildLocations: the SQL they return reads as a term that selects exactly what the query means. */
  method Build(e: Expression, counts: Counts, mode: Target) returns (query: seq<Token>, args: seq<string>)
    requires Grammatical(e)
    ensures var r := ReadRel(Follow(query, Nil), Follow(args, Nil));
      && r == Some(Read(Compile(e, counts, mode), Nil, Nil))
      && forall lib, x | WellFormed(lib) ::
        Returns(lib, mode, r.value.value, x) <==> InUniverse(lib, mode, x) && Selects(lib, mode, e, x)
  {
    var b := new SQLBuilder(counts, mode);
    b.BuildExpression(e, Nil, Nil);
    query, args := b.query, b.args;
    var r := Compile(e, counts, mode);
    CompiledIsShaped(e, counts, mode);
    ReadText(r, Nil, Nil);
    assert Follow(query, Nil) == Text(r, Nil) && Follow(args, Nil) == Params(r, Nil);
    forall lib, x | WellFormed(lib)
      ensures Returns(lib, mode, r, x) <==> InUniverse(lib, mode, x) && Selects(lib, mode, e, x) {
      CompileMeans(lib, mode, e, counts, x);
    }
  }
}
