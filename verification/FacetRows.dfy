/** The facets of the general query count the rows it returns, where the fast paths count files: when the two agree. */
module FacetRows {
  import opened Basics
  import opened QueryAst
  import opened QueryCompiler
  import opened QueryMultiplicity
  import opened Facets

  ghost function Sum(times: map<nat, nat>, files: set<nat>): nat
    requires files <= times.Keys
    decreases |files|
  {
    if files == {} then 0
    else
      var l :| l in files;
      times[l] + Sum(times, files - {l})
  }

  /** How often a query returns each file. */
  function TimesOf(lib: Library, r: Rel): map<nat, nat> {
    map l | l in lib.locations :: Times(lib, r, l)
  }

  /** COUNT(*) of the locations in a group joined with the rows of a query. */
  ghost function RowsOf(lib: Library, r: Rel, files: set<nat>): nat
    requires files <= lib.locations.Keys
  {
    Sum(TimesOf(lib, r), files)
  }

  /** KindFacetsByLocationQuery: the rows of every kind that has any, by count and then kind. */
  ghost predicate IsGrouped(lib: Library, r: Rel, s: seq<Facet>) {
    Facets.Ordered(s)
    && forall f :: f in s <==> f.count == RowsOf(lib, r, OfKind(lib, lib.locations.Keys, f.kind)) && f.count > 0
  }

  // ---------------------------------------------------------------- rows and files

  lemma {:induction false} SumWithout(times: map<nat, nat>, files: set<nat>, l: nat)
    requires files <= times.Keys && l in files
    ensures Sum(times, files) == times[l] + Sum(times, files - {l})
    decreases |files|
  {
    var k :| k in files && Sum(times, files) == times[k] + Sum(times, files - {k});
    if k != l {
      SumWithout(times, files - {k}, l);
      SumWithout(times, files - {l}, k);
      assert files - {k} - {l} == files - {l} - {k};
    }
  }

  ghost function Positive(times: map<nat, nat>, files: set<nat>): set<nat>
    requires files <= times.Keys
  {
    set l | l in files && times[l] > 0
  }

  ghost predicate AtMostOnce(times: map<nat, nat>, files: set<nat>)
    requires files <= times.Keys
  {
    forall l | l in files :: times[l] <= 1
  }

  lemma PositiveWithout(times: map<nat, nat>, files: set<nat>, l: nat)
    requires files <= times.Keys && l in files
    ensures |Positive(times, files)| == |Positive(times, files - {l})| + Count(times[l] > 0)
    ensures AtMostOnce(times, files) <==> times[l] <= 1 && AtMostOnce(times, files - {l})
  {
    var rest := Positive(times, files - {l});
    assert Positive(times, files) == if times[l] > 0 then rest + {l} else rest;
  }

  /** A sum of counts is the number of positive ones exactly when none exceeds one, and larger otherwise. */
  lemma {:induction false} SumIsCountIff(times: map<nat, nat>, files: set<nat>)
    requires files <= times.Keys
    ensures Sum(times, files) >= |Positive(times, files)|
    ensures Sum(times, files) == |Positive(times, files)| <==> AtMostOnce(times, files)
    decreases |files|
  {
    if files == {} {
      assert Positive(times, files) == {};
    } else {
      var l :| l in files;
      SumWithout(times, files, l);
      PositiveWithout(times, files, l);
      SumIsCountIff(times, files - {l});
    }
  }

  ghost function Returned(lib: Library, r: Rel, files: set<nat>): set<nat>
    requires files <= lib.locations.Keys
  {
    set l | l in files && Times(lib, r, l) > 0
  }

  ghost predicate OnceEach(lib: Library, r: Rel, files: set<nat>)
    requires files <= lib.locations.Keys
  {
    forall l | l in files :: Times(lib, r, l) <= 1
  }

  /** There are as many rows as files exactly when no file of the group is returned twice, and more otherwise. */
  lemma RowsAreFilesIff(lib: Library, r: Rel, files: set<nat>)
    requires files <= lib.locations.Keys
    ensures RowsOf(lib, r, files) >= |Returned(lib, r, files)|
    ensures RowsOf(lib, r, files) == |Returned(lib, r, files)| <==> OnceEach(lib, r, files)
  {
    SumIsCountIff(TimesOf(lib, r), files);
    assert Positive(TimesOf(lib, r), files) == Returned(lib, r, files);
    assert AtMostOnce(TimesOf(lib, r), files) <==> OnceEach(lib, r, files) by {
      assert forall l | l in files :: TimesOf(lib, r)[l] == Times(lib, r, l);
    }
  }

  /** The files of a kind among those the query means. */
  lemma ReturnedIsSelected(lib: Library, e: Expression, counts: Counts, kind: string)
    requires WellFormed(lib) && Grammatical(e)
    ensures Returned(lib, Compile(e, counts, Ids), OfKind(lib, lib.locations.Keys, kind))
         == OfKind(lib, Selected(lib, e), kind)
  {
    forall l | l in lib.locations
      ensures Times(lib, Compile(e, counts, Ids), l) > 0 <==> Selects(lib, Ids, e, Id(l)) {
      TimesPositive(lib, Compile(e, counts, Ids), l);
      CompileMeans(lib, Ids, e, counts, Id(l));
    }
  }

  lemma CountOfKind(lib: Library, e: Expression, counts: Counts, kind: string)
    requires WellFormed(lib) && Grammatical(e)
    ensures var r, files := Compile(e, counts, Ids), OfKind(lib, lib.locations.Keys, kind);
      && RowsOf(lib, r, files) >= |OfKind(lib, Selected(lib, e), kind)|
      && (RowsOf(lib, r, files) == |OfKind(lib, Selected(lib, e), kind)| <==> OnceEach(lib, r, files))
  {
    ReturnedIsSelected(lib, e, counts, kind);
    RowsAreFilesIff(lib, Compile(e, counts, Ids), OfKind(lib, lib.locations.Keys, kind));
  }

  // ---------------------------------------------------------------- the general query and the fast paths

  /** The list that the general query groups is the facets of the files it means exactly when it returns no file
      twice. */
  lemma GroupedIsFacetsIff(lib: Library, e: Expression, counts: Counts, s: seq<Facet>)
    requires WellFormed(lib) && Grammatical(e) && IsGrouped(lib, Compile(e, counts, Ids), s)
    ensures IsFacets(lib, Selected(lib, e), s)
      <==> forall l | l in lib.locations :: !Repeats(lib, Compile(e, counts, Ids), l)
  {
    var r := Compile(e, counts, Ids);
    forall l | l in lib.locations ensures Times(lib, r, l) > 1 <==> Repeats(lib, r, l) { RepeatsIff(lib, r, l); }
    if l :| l in lib.locations && Times(lib, r, l) > 1 {
      RepeatedKind(lib, e, counts, s, l);
    } else {
      forall kind
        ensures RowsOf(lib, r, OfKind(lib, lib.locations.Keys, kind)) == |OfKind(lib, Selected(lib, e), kind)| {
        CountOfKind(lib, e, counts, kind);
      }
    }
  }

  lemma RepeatedKind(lib: Library, e: Expression, counts: Counts, s: seq<Facet>, l: nat)
    requires WellFormed(lib) && Grammatical(e) && IsGrouped(lib, Compile(e, counts, Ids), s)
    requires l in lib.locations && Times(lib, Compile(e, counts, Ids), l) > 1
    ensures !IsFacets(lib, Selected(lib, e), s)
  {
    var kind := MediaKind(lib, lib.locations[l]);
    CountOfKind(lib, e, counts, kind);
    assert l in OfKind(lib, lib.locations.Keys, kind);
    var f := Facet(kind, RowsOf(lib, Compile(e, counts, Ids), OfKind(lib, lib.locations.Keys, kind)));
    assert f in s && f.count != |OfKind(lib, Selected(lib, e), kind)|;
  }

  lemma SimpleIsSingle(tag: string)
    requires SimpleTag(tag).Some?
    ensures Asked(tag) != Managed(None)
  {
  }

  /** For a query that takes the exclusion path, the general query gives the very same list, whatever the counts. */
  lemma ExclusionPathIsGeneral(lib: Library, e: Expression, counts: Counts, out: seq<Facet>, s: seq<Facet>)
    requires WellFormed(lib) && Grammatical(e) && OnlyExclusions(e)
    requires IsFacets(lib, Selected(lib, e), out) && IsGrouped(lib, Compile(e, counts, Ids), s)
    ensures out == s
  {
    SingleIsFacets(lib, e, counts, s);
    FacetsAreUnique(out, s);
  }

  /** And for the path of one simple tag with hidden ones. */
  lemma HidingPathIsGeneral(lib: Library, e: Expression, tags: seq<string>, counts: Counts, out: seq<Facet>,
      s: seq<Facet>)
    requires WellFormed(lib) && Grammatical(e) && IncludedTag(e).Some? && Grammatical(Hiding(e, tags))
    requires IsFacets(lib, Selected(lib, Hiding(e, tags)), out)
    requires IsGrouped(lib, Compile(Hiding(e, tags), counts, Ids), s)
    ensures out == s
  {
    SimpleIsSingle(e.or[0].and[0].factor.tag);
    assert Single(e);
    SingleIsFacets(lib, Hiding(e, tags), counts, s);
    FacetsAreUnique(out, s);
  }

  lemma SingleIsFacets(lib: Library, e: Expression, counts: Counts, s: seq<Facet>)
    requires WellFormed(lib) && Grammatical(e) && Single(e) && IsGrouped(lib, Compile(e, counts, Ids), s)
    ensures IsFacets(lib, Selected(lib, e), s)
  {
    forall l | l in lib.locations ensures !Repeats(lib, Compile(e, counts, Ids), l) {
      SingleReturnsOnce(lib, e, counts, l);
      RepeatsIff(lib, Compile(e, counts, Ids), l);
    }
    GroupedIsFacetsIff(lib, e, counts, s);
  }
}
