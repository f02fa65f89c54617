/** How often a location query returns each file. UNION removes repetitions, UNION ALL does not, and a join may return a
    row once per match; the listings and counts built on a query keep whatever repetitions are left. */
module QueryMultiplicity {
  import opened Basics
  import opened QueryAst
  import opened QueryCompiler

  function Count(b: bool): nat { if b then 1 else 0 }

  // ---------------------------------------------------------------- bags

  /** The two halves of the split type: query, which UNION ALL joins. */
  predicate ByMetadata(lib: Library, kind: string, l: Location) {
    l.hash in lib.mediaKind && Fold(l.ext) != ".cbz" && Fold(lib.mediaKind[l.hash]) == Fold(kind)
  }

  predicate ByFallback(lib: Library, kind: string, l: Location) {
    if Fold(kind) == "comic" then Fold(l.ext) == ".cbz"
    else FallbackCondition(Fold(kind), Fold(l.ext)) && l.hash !in lib.mediaKind
  }

  /** How often a query returns this file. A compound is evaluated from left to right as its text has no parentheses, so
      the halves of an unnested type: query become operands of the compound around it. */
  function Times(lib: Library, r: Rel, l: nat): nat
    requires l in lib.locations
    decreases r, 3
  {
    First(lib, r, l) + Second(lib, r, l)
  }

  /** What stands after UNION ALL in the text of the query. */
  function Second(lib: Library, r: Rel, l: nat): nat
    requires l in lib.locations
  {
    if r.Select? && r.leaf.ByMediaKind? then Count(ByFallback(lib, r.leaf.kind, lib.locations[l])) else 0
  }

  function First(lib: Library, r: Rel, l: nat): nat
    requires l in lib.locations
    decreases r, 2
  {
    match r
    case Select(leaf) => LeafTimes(lib, leaf, l)
    case Union(_) => Compound(lib, r, |r.branches|, l)
    case Complement(of) => Count(Times(lib, of, l) == 0)
    case Restrict(from, inside, outside) =>
      if (forall i | 0 <= i < |inside| :: Times(lib, inside[i], l) > 0)
        && (forall i | 0 <= i < |outside| :: Times(lib, outside[i], l) == 0)
      then (if from.None? then 1 else Times(lib, from.value, l))
      else 0
  }

  /** The first n branches of a compound. */
  function Compound(lib: Library, r: Rel, n: nat, l: nat): nat
    requires l in lib.locations && r.Union? && n <= |r.branches|
    decreases r, 1, n
  {
    if n == 0 then 0
    else if n == 1 then Times(lib, r.branches[0], l)
    else Count(Compound(lib, r, n - 1, l) + First(lib, r.branches[n - 1], l) > 0) + Second(lib, r.branches[n - 1], l)
  }

  /** One row per file, except that the join with the storage targets gives one per target. */
  function LeafTimes(lib: Library, leaf: Leaf, l: nat): nat
    requires l in lib.locations
  {
    if leaf.ByMediaKind? then Count(ByMetadata(lib, leaf.kind, lib.locations[l]))
    else if leaf == InsideTarget(None) then |lib.locations[l].targets|
    else Count(LocationRow(lib, leaf, l))
  }

  // ---------------------------------------------------------------- the set that a bag has

  lemma Halves(lib: Library, kind: string, l: Location)
    ensures MediaBranches(lib, kind, l) <==> ByMetadata(lib, kind, l) || ByFallback(lib, kind, l)
    ensures !(ByMetadata(lib, kind, l) && ByFallback(lib, kind, l))
  {
  }

  lemma LeafPositive(lib: Library, leaf: Leaf, l: nat)
    requires l in lib.locations
    ensures Times(lib, Select(leaf), l) > 0 <==> LocationRow(lib, leaf, l)
    ensures Times(lib, Select(leaf), l) > 1 <==> leaf == InsideTarget(None) && |lib.locations[l].targets| > 1
  {
    if leaf.ByMediaKind? { Halves(lib, leaf.kind, lib.locations[l]); }
    var targets := lib.locations[l].targets;
    if leaf == InsideTarget(None) && |targets| > 0 {
      var m :| m in targets;
    }
  }

  /** A file is returned at least once exactly when it is in the set the query denotes. */
  lemma {:induction false} TimesPositive(lib: Library, r: Rel, l: nat)
    requires l in lib.locations
    ensures Times(lib, r, l) > 0 <==> Returns(lib, Ids, r, Id(l))
    decreases r
  {
    match r
    case Select(leaf) => LeafPositive(lib, leaf, l);
    case Union(bs) =>
      forall i | 0 <= i < |bs| ensures Times(lib, bs[i], l) > 0 <==> Returns(lib, Ids, bs[i], Id(l)) {
        TimesPositive(lib, bs[i], l);
      }
      CompoundPositive(lib, r, |bs|, l);
    case Complement(of) => TimesPositive(lib, of, l);
    case Restrict(from, inside, outside) =>
      if from.Some? { TimesPositive(lib, from.value, l); }
      forall i | 0 <= i < |inside| ensures Times(lib, inside[i], l) > 0 <==> Returns(lib, Ids, inside[i], Id(l)) {
        TimesPositive(lib, inside[i], l);
      }
      forall i | 0 <= i < |outside| ensures Times(lib, outside[i], l) > 0 <==> Returns(lib, Ids, outside[i], Id(l)) {
        TimesPositive(lib, outside[i], l);
      }
  }

  lemma {:induction false} CompoundPositive(lib: Library, r: Rel, n: nat, l: nat)
    requires l in lib.locations && r.Union? && n <= |r.branches|
    requires forall i | 0 <= i < |r.branches| ::
      Times(lib, r.branches[i], l) > 0 <==> Returns(lib, Ids, r.branches[i], Id(l))
    ensures Compound(lib, r, n, l) > 0 <==> exists i | 0 <= i < n :: Returns(lib, Ids, r.branches[i], Id(l))
    decreases n
  {
    if n > 0 {
      CompoundPositive(lib, r, n - 1, l);
      assert Returns(lib, Ids, r.branches[n - 1], Id(l)) <==> Times(lib, r.branches[n - 1], l) > 0;
    }
  }

  // ---------------------------------------------------------------- which files are returned more than once

  /** In terms of the sets alone: a file in several targets when the query or the operand that drives it is
      `@in_target:any`; and what the second half of a type: query at the end of a disjunction returns, when an earlier
      operand returns it too. */
  predicate Repeats(lib: Library, r: Rel, l: nat)
    requires l in lib.locations
  {
    match r
    case Select(leaf) => leaf == InsideTarget(None) && |lib.locations[l].targets| > 1
    case Union(bs) =>
      if |bs| == 1 then Repeats(lib, bs[0], l)
      else
        && bs != [] && bs[|bs| - 1].Select? && bs[|bs| - 1].leaf.ByMediaKind?
        && ByFallback(lib, bs[|bs| - 1].leaf.kind, lib.locations[l])
        && exists i | 0 <= i < |bs| - 1 :: Returns(lib, Ids, bs[i], Id(l))
    case Complement(_) => false
    case Restrict(from, _, _) => from.Some? && Repeats(lib, from.value, l) && Returns(lib, Ids, r, Id(l))
  }

  lemma CompoundEnds(lib: Library, r: Rel, l: nat)
    requires l in lib.locations && r.Union? && |r.branches| > 1
    ensures var n := |r.branches|; var last := r.branches[n - 1];
      Times(lib, r, l) == Count(Compound(lib, r, n - 1, l) + First(lib, last, l) > 0) + Second(lib, last, l)
  {
    var n := |r.branches|;
    assert First(lib, r, l) == Compound(lib, r, n, l);
    assert Compound(lib, r, n, l)
      == Count(Compound(lib, r, n - 1, l) + First(lib, r.branches[n - 1], l) > 0) + Second(lib, r.branches[n - 1], l);
  }

  lemma LastHalf(lib: Library, r: Rel, l: nat)
    requires l in lib.locations
    ensures Second(lib, r, l) <= 1 && (Second(lib, r, l) == 1 ==> First(lib, r, l) == 0)
    ensures Second(lib, r, l) == 1
      <==> r.Select? && r.leaf.ByMediaKind? && ByFallback(lib, r.leaf.kind, lib.locations[l])
  {
    if r.Select? && r.leaf.ByMediaKind? { Halves(lib, r.leaf.kind, lib.locations[l]); }
  }

  lemma EarlierBranches(lib: Library, r: Rel, l: nat)
    requires l in lib.locations && r.Union? && |r.branches| > 1
    ensures Compound(lib, r, |r.branches| - 1, l) > 0 <==>
      exists i | 0 <= i < |r.branches| - 1 :: Returns(lib, Ids, r.branches[i], Id(l))
  {
    var bs := r.branches;
    forall i | 0 <= i < |bs| ensures Times(lib, bs[i], l) > 0 <==> Returns(lib, Ids, bs[i], Id(l)) {
      TimesPositive(lib, bs[i], l);
    }
    CompoundPositive(lib, r, |bs| - 1, l);
  }

  lemma LastBranch(lib: Library, r: Rel, l: nat)
    requires l in lib.locations && r.Union? && |r.branches| > 1
    ensures Times(lib, r, l) > 1 <==> Repeats(lib, r, l)
    ensures Times(lib, r, l) <= 2
  {
    CompoundEnds(lib, r, l);
    LastHalf(lib, r.branches[|r.branches| - 1], l);
    EarlierBranches(lib, r, l);
  }

  /** The exact condition, for every query. */
  lemma {:induction false} RepeatsIff(lib: Library, r: Rel, l: nat)
    requires l in lib.locations
    ensures Times(lib, r, l) > 1 <==> Repeats(lib, r, l)
    decreases r
  {
    match r
    case Select(leaf) => LeafPositive(lib, leaf, l);
    case Union(bs) =>
      if |bs| == 0 {
        assert Compound(lib, r, 0, l) == 0;
      } else if |bs| == 1 {
        RepeatsIff(lib, bs[0], l);
        assert Times(lib, r, l) == Compound(lib, r, 1, l) == Times(lib, bs[0], l);
      } else {
        LastBranch(lib, r, l);
      }
    case Complement(of) =>
    case Restrict(from, inside, outside) =>
      TimesPositive(lib, r, l);
      if from.Some? { RepeatsIff(lib, from.value, l); }
  }

  // ---------------------------------------------------------------- queries that return each file once

  predicate EndsInKind(a: AndTerm) { |a.and| == 1 && !a.and[0].not && FactorEndsInKind(a.and[0].factor) }

  predicate FactorEndsInKind(f: Factor) {
    match f
    case Tag(tag) => Asked(tag).Kind?
    case Sub(e) => |e.or| == 1 && EndsInKind(e.or[0])
  }

  /** What the text of a query must look like: no `@in_target:any` but below a disjunction or a negation, and no
      disjunction that ends in a type: tag, but as an operand of another one or below a negation. */
  predicate Single(e: Expression) {
    if |e.or| == 1 then SingleAnd(e.or[0]) else |e.or| > 1 ==> !EndsInKind(e.or[|e.or| - 1])
  }

  predicate SingleAnd(a: AndTerm) { forall i | 0 <= i < |a.and| && !a.and[i].not :: SingleFactor(a.and[i].factor) }

  predicate SingleFactor(f: Factor) {
    match f case Tag(tag) => Asked(tag) != Managed(None) case Sub(e) => Single(e)
  }

  /** A compiled operand that is a bare type: query comes from one in the text. */
  lemma {:induction false} KindFromKind(a: AndTerm, counts: Counts)
    requires GrammaticalAnd(a)
    ensures var r := CompileAnd(a, counts, Ids); r.Select? && r.leaf.ByMediaKind? ==> EndsInKind(a)
    decreases a
  {
    if |a.and| == 1 && !a.and[0].not { KindFromFactor(a.and[0].factor, counts); }
  }

  lemma {:induction false} KindFromFactor(f: Factor, counts: Counts)
    requires GrammaticalFactor(f)
    ensures var r := CompileFactor(f, counts, Ids); r.Select? && r.leaf.ByMediaKind? ==> FactorEndsInKind(f)
    decreases f
  {
    if f.Sub? && |f.expr.or| == 1 { KindFromKind(f.expr.or[0], counts); }
  }

  /** Such a query returns every file at most once, in every library and under all statistics. */
  lemma {:induction false} SingleReturnsOnce(lib: Library, e: Expression, counts: Counts, l: nat)
    requires l in lib.locations && Grammatical(e) && Single(e)
    ensures Times(lib, Compile(e, counts, Ids), l) <= 1
    decreases e
  {
    if |e.or| == 1 {
      SingleAndReturnsOnce(lib, e.or[0], counts, l);
    } else {
      DisjunctionReturnsOnce(lib, e, counts, l);
    }
  }

  lemma DisjunctionReturnsOnce(lib: Library, e: Expression, counts: Counts, l: nat)
    requires l in lib.locations && Grammatical(e) && |e.or| > 1 && !EndsInKind(e.or[|e.or| - 1])
    ensures Times(lib, Compile(e, counts, Ids), l) <= 1
  {
    LastCompiled(e, counts);
    KindFromKind(e.or[|e.or| - 1], counts);
    PlainEndReturnsOnce(lib, Compile(e, counts, Ids), CompileAnd(e.or[|e.or| - 1], counts, Ids), l);
  }

  lemma LastCompiled(e: Expression, counts: Counts)
    requires Grammatical(e) && |e.or| > 1
    ensures var r := Compile(e, counts, Ids);
      r.Union? && |r.branches| == |e.or| && r.branches[|e.or| - 1] == CompileAnd(e.or[|e.or| - 1], counts, Ids)
  {
  }

  lemma PlainEndReturnsOnce(lib: Library, r: Rel, last: Rel, l: nat)
    requires l in lib.locations && r.Union? && |r.branches| > 1 && r.branches[|r.branches| - 1] == last
    requires !(last.Select? && last.leaf.ByMediaKind?)
    ensures Times(lib, r, l) <= 1
  {
    LastBranch(lib, r, l);
  }

  lemma {:induction false} SingleAndReturnsOnce(lib: Library, a: AndTerm, counts: Counts, l: nat)
    requires l in lib.locations && GrammaticalAnd(a) && SingleAnd(a)
    ensures Times(lib, CompileAnd(a, counts, Ids), l) <= 1
    decreases a
  {
    if |a.and| == 1 {
      if !a.and[0].not { SingleFactorReturnsOnce(lib, a.and[0].factor, counts, l); }
    } else {
      var positive := Sorted(Signed(Operands(a, counts), false));
      DrivenBy(a, counts, Ids);
      RestrictDecides(lib, CompileAnd(a, counts, Ids), l);
      if positive != [] { SingleFactorReturnsOnce(lib, a.and[positive[0].index].factor, counts, l); }
    }
  }

  /** A conjunction returns a file no more often than the operand that drives it. */
  lemma RestrictDecides(lib: Library, r: Rel, l: nat)
    requires l in lib.locations && r.Restrict?
    ensures Times(lib, r, l) <= if r.from.None? then 1 else Times(lib, r.from.value, l)
  {
  }

  lemma {:induction false} SingleFactorReturnsOnce(lib: Library, f: Factor, counts: Counts, l: nat)
    requires l in lib.locations && GrammaticalFactor(f) && SingleFactor(f)
    ensures Times(lib, CompileFactor(f, counts, Ids), l) <= 1
    decreases f
  {
    match f
    case Tag(tag) => LeafPositive(lib, CompileTag(tag, counts, Ids), l);
    case Sub(e) => SingleReturnsOnce(lib, e, counts, l);
  }

  // ---------------------------------------------------------------- a disjunction of two operands

  function Bare(tag: string): AndTerm { AndTerm([Term(false, Tag(tag))]) }

  lemma BareKind(tag: string, counts: Counts)
    requires Asked(tag).Kind?
    ensures GrammaticalAnd(Bare(tag)) && CompileAnd(Bare(tag), counts, Ids) == Select(ByMediaKind(Asked(tag).kind))
    ensures EndsInKind(Bare(tag))
  {
    assert CompileAnd(Bare(tag), counts, Ids) == CompileFactor(Tag(tag), counts, Ids)
      == Select(CompileTag(tag, counts, Ids));
  }

  lemma TwoBranches(a: AndTerm, b: AndTerm, counts: Counts)
    requires GrammaticalAnd(a) && GrammaticalAnd(b)
    ensures Grammatical(Expression([a, b]))
    ensures Compile(Expression([a, b]), counts, Ids) == Union([CompileAnd(a, counts, Ids), CompileAnd(b, counts, Ids)])
  {
    var e := Expression([a, b]);
    assert Compile(e, counts, Ids).branches == [CompileAnd(a, counts, Ids), CompileAnd(b, counts, Ids)];
  }

  /** With the type: tag last, a file that the other operand selects and whose kind comes from its extension is
      returned twice; with the type: tag first, never. */
  lemma OrderOfOperandsMatters(lib: Library, a: AndTerm, tag: string, counts: Counts, l: nat)
    requires WellFormed(lib) && l in lib.locations && GrammaticalAnd(a) && Asked(tag).Kind?
    ensures Grammatical(Expression([a, Bare(tag)])) && Grammatical(Expression([Bare(tag), a]))
    ensures Times(lib, Compile(Expression([a, Bare(tag)]), counts, Ids), l) == 2 <==>
      SelectsAll(lib, Ids, a, Id(l)) && ByFallback(lib, Asked(tag).kind, lib.locations[l])
    ensures !EndsInKind(a) ==> Times(lib, Compile(Expression([Bare(tag), a]), counts, Ids), l) <= 1
  {
    BareKind(tag, counts);
    TwoBranches(a, Bare(tag), counts);
    TwoBranches(Bare(tag), a, counts);
    AndMeans(lib, Ids, a, counts, Id(l));
    EndsInKindRepeats(lib, CompileAnd(a, counts, Ids), Asked(tag).kind, l);
    if !EndsInKind(a) { SingleReturnsOnce(lib, Expression([Bare(tag), a]), counts, l); }
  }

  lemma EndsInKindRepeats(lib: Library, first: Rel, kind: string, l: nat)
    requires l in lib.locations
    ensures Times(lib, Union([first, Select(ByMediaKind(kind))]), l) == 2 <==>
      Returns(lib, Ids, first, Id(l)) && ByFallback(lib, kind, lib.locations[l])
  {
    var r := Union([first, Select(ByMediaKind(kind))]);
    LastBranch(lib, r, l);
    assert r.branches[0] == first;
  }

  /** A library of one photo without metadata, tagged `a`. */
  function OnePhoto(): Library {
    Library(map[1 := Location("h", ".jpg", "p", {})], map[1 := TagRow("a", "")], {("h", 1)}, map[],
            (name, part) => true)
  }

  /** In it `a | type:photo` returns the photo twice. */
  lemma TaggedPhotoIsReturnedTwice(counts: Counts)
    ensures var e := Expression([Bare("a"), Bare("type:photo")]);
      WellFormed(OnePhoto()) && Grammatical(e) && Times(OnePhoto(), Compile(e, counts, Ids), 1) == 2
  {
    var lib := OnePhoto();
    assert lib.locations[1].hash == "h" && HasLocation(lib, "h");
    TagsAsked("a", "type:photo");
    assert ("h", 1) in lib.contentTags && HasTag(lib, "h", 1) && TagRowAnswers(lib.tags[1], WithKey("a"));
    PhotoByFallback(lib.locations[1]);
    assert SelectsFactor(lib, Ids, Tag("a"), Id(1));
    OrderOfOperandsMatters(lib, Bare("a"), "type:photo", counts, 1);
  }

  lemma TagsAsked(tag: string, kind: string)
    requires tag == "a" && kind == "type:photo"
    ensures Asked(tag) == WithKey("a") && Asked(kind) == Kind("photo")
  {
    assert CutColon(tag[1..]) == ("", None) && CutColon(tag) == ([tag[0]] + "", None);
    CutAt("type", "photo");
    assert kind == "type" + ":" + "photo";
  }

  lemma PhotoByFallback(l: Location)
    requires l.ext == ".jpg"
    ensures ByFallback(OnePhoto(), "photo", l)
  {
    assert Fold(".jpg") == ".jpg" && Fold("photo") == "photo";
  }

  // ---------------------------------------------------------------- a conjunction of two operands

  function Both(first: string, second: string): AndTerm { AndTerm([Term(false, Tag(first)), Term(false, Tag(second))]) }

  lemma TwoSigned(o: Operand, p: Operand)
    requires !o.not && !p.not
    ensures Signed([o, p], false) == [o, p] && Signed([o, p], true) == []
  {
    assert [o, p][..1] == [o] && [o][..0] == [];
    assert Signed([o], false) == [o] && Signed([o], true) == [];
  }

  lemma TwoSorted(o: Operand, p: Operand)
    ensures Sorted([o, p]) == if p.weight < o.weight then [p, o] else [o, p]
  {
    assert [o, p][..1] == [o] && [o][..0] == [];
    assert Sorted([o]) == [o];
    assert Insert(p, []) == [p] && [o][1..] == [];
  }

  lemma OneCompiled(a: AndTerm, o: Operand, counts: Counts)
    requires GrammaticalAnd(a) && o.index < |a.and|
    ensures CompileAll(a, [o], counts, Ids) == [CompileFactor(a.and[o.index].factor, counts, Ids)]
    ensures CompileAll(a, [], counts, Ids) == []
  {
  }

  lemma PairCompiles(a: AndTerm, o: Operand, p: Operand, counts: Counts)
    requires GrammaticalAnd(a) && |a.and| == 2 && Operands(a, counts) == [o, p] && !o.not && !p.not
    ensures var r, s := CompileFactor(a.and[0].factor, counts, Ids), CompileFactor(a.and[1].factor, counts, Ids);
      CompileAnd(a, counts, Ids)
        == if p.weight < o.weight then Restrict(Some(s), [r], []) else Restrict(Some(r), [s], [])
  {
    TwoSigned(o, p);
    TwoSorted(o, p);
    OneCompiled(a, o, counts);
    OneCompiled(a, p, counts);
    assert [p, o][1..] == [o] && [o, p][1..] == [p];
    assert Operands(a, counts)[0] == o && Operands(a, counts)[1] == p;
  }

  lemma BothCompiles(first: string, second: string, counts: Counts)
    ensures GrammaticalAnd(Both(first, second))
    ensures var r, s := Select(CompileTag(first, counts, Ids)), Select(CompileTag(second, counts, Ids));
      CompileAnd(Both(first, second), counts, Ids) ==
      if Selectivity(Tag(second), counts) < Selectivity(Tag(first), counts) then Restrict(Some(s), [r], [])
        else Restrict(Some(r), [s], [])
  {
    var a := Both(first, second);
    var o, p := Operand(0, false, Selectivity(Tag(first), counts)), Operand(1, false, Selectivity(Tag(second), counts));
    assert Operands(a, counts) == [o, p];
    PairCompiles(a, o, p, counts);
  }

  /** A file in several targets that also has the other tag: `@in_target:any` first in the query drives it when nothing
      is known of the other tag, and returns the file once per target; known counts make the tag drive, and the file
      is returned once. Statistics never change the set of answers, but they change the repetitions. */
  lemma StatisticsChangeRepetitions(lib: Library, anywhere: string, tag: string, n: nat, l: nat)
    requires WellFormed(lib) && l in lib.locations && Asked(anywhere) == Managed(None) && Asked(tag).ExactTag?
      && n < UNKNOWN
    requires lib.locations[l].targets != {} && LocationAnswers(lib, l, Asked(tag))
    ensures GrammaticalAnd(Both(anywhere, tag))
    ensures Times(lib, CompileAnd(Both(anywhere, tag), map[], Ids), l) == |lib.locations[l].targets|
    ensures Times(lib, CompileAnd(Both(anywhere, tag), map[tag := n], Ids), l) == 1
  {
    BothCompiles(anywhere, tag, map[]);
    BothCompiles(anywhere, tag, map[tag := n]);
    Driven(lib, anywhere, tag, map[], l);
    Driven(lib, anywhere, tag, map[tag := n], l);
  }

  lemma Driven(lib: Library, anywhere: string, tag: string, counts: Counts, l: nat)
    requires WellFormed(lib) && l in lib.locations && Asked(anywhere) == Managed(None) && Asked(tag).ExactTag?
    requires lib.locations[l].targets != {} && LocationAnswers(lib, l, Asked(tag))
    ensures var r, s := Select(CompileTag(anywhere, counts, Ids)), Select(CompileTag(tag, counts, Ids));
      && Times(lib, Restrict(Some(r), [s], []), l) == |lib.locations[l].targets|
      && Times(lib, Restrict(Some(s), [r], []), l) == 1
  {
    var r, s := Select(CompileTag(anywhere, counts, Ids)), Select(CompileTag(tag, counts, Ids));
    LeafMeans(lib, Ids, tag, counts, Id(l));
    LeafMeans(lib, Ids, anywhere, counts, Id(l));
    LeafPositive(lib, r.leaf, l);
    LeafPositive(lib, s.leaf, l);
    OneInside(lib, r, s, l);
    OneInside(lib, s, r, l);
  }

  lemma OneInside(lib: Library, r: Rel, s: Rel, l: nat)
    requires l in lib.locations && Times(lib, s, l) > 0
    ensures Times(lib, Restrict(Some(r), [s], []), l) == Times(lib, r, l)
  {
  }
}
