/** Counting files by kind for a query made of simple user tags: subtracting the kinds of what is excluded from
    maintained summaries must give what grouping the files of the full query gives. */
module Facets {
  import opened Basics
  import opened QueryAst
  import QueryCompiler

  datatype Facet = Facet(kind: string, count: int)

  /** ORDER BY count DESC, kind ASC, and the comparison that sort.Slice is given. */
  predicate Ahead(a: Facet, b: Facet) { a.count > b.count || (a.count == b.count && StrLess(a.kind, b.kind)) }

  /** The larger count first, at equal counts the smaller kind. */
  predicate Ordered(s: seq<Facet>) {
    forall i, j | 0 <= i < j < |s| ::
      s[i].count >= s[j].count && (s[i].count == s[j].count ==> StrLess(s[i].kind, s[j].kind))
  }

  /** What sorting promises: nothing stands before something that belongs ahead of it. */
  predicate Descending(s: seq<Facet>) { forall i, j | 0 <= i < j < |s| :: !Ahead(s[j], s[i]) }

  predicate DistinctKinds(s: seq<Facet>) { forall i, j | 0 <= i < j < |s| :: s[i].kind != s[j].kind }

  /** Files of one kind in a selection. */
  function OfKind(lib: Library, files: set<nat>, kind: string): set<nat> {
    set l | l in files && l in lib.locations && MediaKind(lib, lib.locations[l]) == kind
  }

  /** `SELECT kind, COUNT(*) ... GROUP BY kind ORDER BY COUNT(*) DESC, kind` over the selected locations. */
  ghost predicate IsFacets(lib: Library, files: set<nat>, s: seq<Facet>) {
    Ordered(s) && forall f :: f in s <==> f.count == |OfKind(lib, files, f.kind)| && f.count > 0
  }

  // ---------------------------------------------------------------- the order

  lemma AheadOrder(a: Facet, b: Facet, c: Facet)
    ensures !Ahead(a, a) && !(Ahead(a, b) && Ahead(b, a)) && (Ahead(a, b) || a == b || Ahead(b, a))
    ensures Ahead(a, b) && Ahead(b, c) ==> Ahead(a, c)
  {
    StrLessIrreflexive(a.kind);
    StrLessTotal(a.kind, b.kind);
    if StrLess(a.kind, b.kind) && StrLess(b.kind, a.kind) { StrLessTransitive(a.kind, b.kind, a.kind); }
    if StrLess(a.kind, b.kind) && StrLess(b.kind, c.kind) { StrLessTransitive(a.kind, b.kind, c.kind); }
  }

  /** The query determines the whole list: kinds, counts and order. */
  lemma {:induction false} FacetsAreUnique(s: seq<Facet>, t: seq<Facet>)
    requires Ordered(s) && Ordered(t) && forall f :: f in s <==> f in t
    ensures s == t
    decreases |s|
  {
    assert s != [] ==> s[0] in t;
    assert t != [] ==> t[0] in s;
    if s != [] {
      AheadOrder(s[0], t[0], s[0]);
      OrderedTail(s);
      OrderedTail(t);
      FacetsAreUnique(s[1..], t[1..]);
      assert s == [s[0]] + s[1..] && t == [t[0]] + t[1..];
    }
  }

  lemma OrderedTail(s: seq<Facet>)
    requires Ordered(s) && s != []
    ensures Ordered(s[1..]) && forall f :: f in s[1..] <==> f in s && f != s[0]
  {
    assert s == [s[0]] + s[1..];
    forall f | f in s[1..] ensures f != s[0] { AheadOrder(s[0], f, f); }
  }

  lemma DescendingIsOrdered(s: seq<Facet>)
    requires Descending(s) && DistinctKinds(s)
    ensures Ordered(s)
  {
    forall i, j | 0 <= i < j < |s| ensures Ahead(s[i], s[j]) { AheadOrder(s[i], s[j], s[i]); }
  }

  lemma FacetKindsAreDistinct(lib: Library, files: set<nat>, s: seq<Facet>)
    requires IsFacets(lib, files, s)
    ensures DistinctKinds(s)
  {
    forall i, j | 0 <= i < j < |s| ensures s[i].kind != s[j].kind {
      assert s[i] in s && s[j] in s;
      AheadOrder(s[i], s[j], s[i]);
    }
  }

  method SortFacets(s: seq<Facet>) returns (r: seq<Facet>)
    ensures Descending(r) && (forall f :: f in r <==> f in s) && (DistinctKinds(s) ==> DistinctKinds(r))
  {
    r := [];
    var i := 0;
    while i < |s|
      invariant i <= |s| && Descending(r) && (forall f :: f in r <==> f in s[..i])
        && (DistinctKinds(s) ==> DistinctKinds(r))
    {
      var k: nat := |r|;
      while k > 0 && Ahead(s[i], r[k - 1])
        invariant 0 <= k <= |r| && forall j | k <= j < |r| :: Ahead(s[i], r[j])
      {
        k := k - 1;
      }
      Placed(r, k, s[i]);
      assert s[..i + 1] == s[..i] + [s[i]];
      r := r[..k] + [s[i]] + r[k..];
      i := i + 1;
    }
    assert s[..i] == s;
  }

  lemma Placed(r: seq<Facet>, k: nat, x: Facet)
    requires k <= |r| && Descending(r) && (k > 0 ==> !Ahead(x, r[k - 1])) && forall j | k <= j < |r| :: Ahead(x, r[j])
    ensures var t := r[..k] + [x] + r[k..];
      && Descending(t) && (forall f :: f in t <==> f in r || f == x)
      && (DistinctKinds(r) && (forall f | f in r :: f.kind != x.kind) ==> DistinctKinds(t))
  {
    forall j | 0 <= j < k ensures !Ahead(x, r[j]) {
      if j < k - 1 { NotAhead(x, r[k - 1], r[j]); }
    }
    forall j | k <= j < |r| ensures !Ahead(r[j], x) { AheadOrder(x, r[j], x); }
    PlacedDescending(r, k, x);
    PlacedElements(r, k, x);
  }

  lemma PlacedElements(r: seq<Facet>, k: nat, x: Facet)
    requires k <= |r|
    ensures var t := r[..k] + [x] + r[k..];
      (forall f :: f in t <==> f in r || f == x)
        && (DistinctKinds(r) && (forall f | f in r :: f.kind != x.kind) ==> DistinctKinds(t))
  {
    assert r == r[..k] + r[k..];
  }

  lemma NotAhead(a: Facet, b: Facet, c: Facet)
    requires !Ahead(a, b) && !Ahead(b, c)
    ensures !Ahead(a, c)
  {
    AheadOrder(b, a, c);
    AheadOrder(a, c, b);
    AheadOrder(c, b, a);
  }

  lemma PlacedDescending(r: seq<Facet>, k: nat, x: Facet)
    requires k <= |r| && Descending(r) && (forall j | 0 <= j < k :: !Ahead(x, r[j]))
      && forall j | k <= j < |r| :: !Ahead(r[j], x)
    ensures Descending(r[..k] + [x] + r[k..])
  {
    var t := r[..k] + [x] + r[k..];
    forall i, j | 0 <= i < j < |t| ensures !Ahead(t[j], t[i]) {
      assert t[i] == if i < k then r[i] else if i == k then x else r[i - 1];
      assert t[j] == if j < k then r[j] else if j == k then x else r[j - 1];
    }
  }

  // ---------------------------------------------------------------- subtraction

  function Total(s: seq<Facet>, kind: string): int {
    if s == [] then 0
    else Total(s[..|s| - 1], kind) + if s[|s| - 1].kind == kind then s[|s| - 1].count else 0
  }

  /** A kind of `all` with what is left of its count. */
  predicate LeftOf(all: seq<Facet>, excluded: seq<Facet>, f: Facet) {
    f.count > 0 && Facet(f.kind, f.count + Total(excluded, f.kind)) in all
  }

  method SubtractKindFacets(all: seq<Facet>, excluded: seq<Facet>) returns (out: seq<Facet>)
    ensures Descending(out) && (DistinctKinds(all) ==> DistinctKinds(out))
    ensures forall f :: f in out <==> LeftOf(all, excluded, f)
  {
    if all == [] { return []; }
    var excludedCounts: map<string, int> := map[];
    var i := 0;
    while i < |excluded|
      invariant i <= |excluded|
      invariant forall k :: (if k in excludedCounts then excludedCounts[k] else 0) == Total(excluded[..i], k)
    {
      var f := excluded[i];
      assert excluded[..i + 1][..i] == excluded[..i];
      excludedCounts := excludedCounts[f.kind :=
        (if f.kind in excludedCounts then excludedCounts[f.kind] else 0) + f.count];
      i := i + 1;
    }
    assert excluded[..i] == excluded;
    out := Subtracted(all, excluded, excludedCounts);
    out := SortFacets(out);
  }

  method Subtracted(all: seq<Facet>, ghost excluded: seq<Facet>, excludedCounts: map<string, int>)
      returns (out: seq<Facet>)
    requires forall k :: (if k in excludedCounts then excludedCounts[k] else 0) == Total(excluded, k)
    ensures DistinctKinds(all) ==> DistinctKinds(out)
    ensures forall f :: f in out <==> LeftOf(all, excluded, f)
  {
    out := [];
    var i := 0;
    while i < |all|
      invariant i <= |all|
      invariant forall f :: f in out <==> LeftOf(all[..i], excluded, f)
      invariant DistinctKinds(all) ==> DistinctKinds(out)
    {
      var count := all[i].count - if all[i].kind in excludedCounts then excludedCounts[all[i].kind] else 0;
      assert all[..i + 1] == all[..i] + [all[i]];
      assert count == all[i].count - Total(excluded, all[i].kind);
      OneMore(all[..i], excluded, all[i], out, count);
      if count > 0 { out := out + [Facet(all[i].kind, count)]; }
      i := i + 1;
    }
    assert all[..i] == all;
  }

  lemma OneMore(done: seq<Facet>, excluded: seq<Facet>, next: Facet, out: seq<Facet>, count: int)
    requires count == next.count - Total(excluded, next.kind) && forall f :: f in out <==> LeftOf(done, excluded, f)
    ensures forall f :: LeftOf(done + [next], excluded, f) <==> f in out || (count > 0 && f == Facet(next.kind, count))
    ensures DistinctKinds(done + [next]) ==> forall f | f in out :: f.kind != next.kind
  {
    if DistinctKinds(done + [next]) {
      forall f | f in out ensures f.kind != next.kind {
        var g := Facet(f.kind, f.count + Total(excluded, f.kind));
        assert g in done;
        var k :| 0 <= k < |done| && done[k] == g;
        assert (done + [next])[k] == g && (done + [next])[|done|] == next;
      }
    }
  }

  lemma OfKindSubtracts(lib: Library, files: set<nat>, excluded: set<nat>, kind: string)
    requires excluded <= files
    ensures |OfKind(lib, files, kind)| == |OfKind(lib, files - excluded, kind)| + |OfKind(lib, excluded, kind)|
  {
    assert OfKind(lib, files, kind) == OfKind(lib, files - excluded, kind) + OfKind(lib, excluded, kind);
  }

  lemma {:induction false} TotalOfFacets(s: seq<Facet>, f: Facet)
    requires DistinctKinds(s)
    ensures f in s ==> Total(s, f.kind) == f.count
    ensures (forall g | g in s :: g.kind != f.kind) ==> Total(s, f.kind) == 0
    decreases |s|
  {
    if s != [] {
      var init, last := s[..|s| - 1], s[|s| - 1];
      assert s == init + [last];
      assert forall g | g in init :: g.kind != last.kind;
      TotalOfFacets(init, f);
      TotalOfFacets(init, last);
    }
  }

  lemma ExcludedTotal(lib: Library, files: set<nat>, s: seq<Facet>, kind: string)
    requires IsFacets(lib, files, s)
    ensures Total(s, kind) == |OfKind(lib, files, kind)|
  {
    FacetKindsAreDistinct(lib, files, s);
    var f := Facet(kind, |OfKind(lib, files, kind)|);
    TotalOfFacets(s, f);
    if f.count == 0 {
      forall g | g in s ensures g.kind != kind { assert g.count == |OfKind(lib, files, g.kind)|; }
    } else {
      assert f in s;
    }
  }

  /** Subtracting the facets of a part from the facets of the whole gives the facets of the rest. */
  lemma SubtractionIsDifference(lib: Library, files: set<nat>, excluded: set<nat>, all: seq<Facet>, part: seq<Facet>,
      out: seq<Facet>)
    requires excluded <= files && IsFacets(lib, files, all) && IsFacets(lib, excluded, part)
    requires Descending(out) && DistinctKinds(out) && forall f :: f in out <==> LeftOf(all, part, f)
    ensures IsFacets(lib, files - excluded, out)
  {
    DescendingIsOrdered(out);
    forall f ensures f in out <==> f.count == |OfKind(lib, files - excluded, f.kind)| && f.count > 0 {
      ExcludedTotal(lib, excluded, part, f.kind);
      OfKindSubtracts(lib, files, excluded, f.kind);
      var whole := Facet(f.kind, f.count + Total(part, f.kind));
      assert whole in all <==> whole.count == |OfKind(lib, files, whole.kind)| && whole.count > 0;
    }
  }

  // ---------------------------------------------------------------- simple user tags

  /** A user tag of a facet query: every value of a key, or one exact tag. */
  datatype Filter = Filter(key: string, value: string, keyOnly: bool)

  /** parseSimpleUserTagFacetTerm */
  function SimpleTag(tag: string): Option<Filter> {
    if HasPrefix(tag, "@") || '*' in tag then None
    else
      var (key, value) := ParseTag(tag);
      if key == "ext" || key == "type" then None else Some(Filter(key, value, ':' !in tag))
  }

  predicate Matches(row: TagRow, f: Filter) {
    Fold(row.key) == Fold(f.key) && (f.keyOnly || Fold(row.value) == Fold(f.value))
  }

  /** The content of this file carries a tag that matches. */
  predicate Carries(lib: Library, l: nat, f: Filter)
    requires l in lib.locations
  {
    exists t | t in lib.tags :: HasTag(lib, lib.locations[l].hash, t) && Matches(lib.tags[t], f)
  }

  predicate CarriesAny(lib: Library, l: nat, fs: seq<Filter>)
    requires l in lib.locations
  {
    exists i | 0 <= i < |fs| :: Carries(lib, l, fs[i])
  }

  lemma {:induction false} CutColonFacts(s: string)
    ensures CutColon(s).1.Some? <==> ':' in s
    ensures CutColon(s).1.Some? ==> forall c :: c in CutColon(s).1.value ==> c in s
    decreases |s|
  {
    if s != "" {
      assert s == [s[0]] + s[1..];
      if s[0] != ':' { CutColonFacts(s[1..]); }
    }
  }

  lemma FoldEmpty(s: string)
    ensures Fold(s) == Fold("") <==> s == ""
  {
    assert |Fold(s)| == |s| && Fold("") == "";
  }

  /** A simple tag asks of a file exactly what its filter looks for. */
  lemma SimpleTagMeans(lib: Library, tag: string, l: nat)
    requires l in lib.locations && SimpleTag(tag).Some?
    ensures LocationAnswers(lib, l, Asked(tag)) <==> Carries(lib, l, SimpleTag(tag).value)
  {
    CutColonFacts(tag);
    var f, q := SimpleTag(tag).value, Asked(tag);
    assert ParseTag(tag).1 == "*" ==> '*' in ParseTag(tag).1;
    assert ByTags(q);
    forall t | t in lib.tags ensures TagRowAnswers(lib.tags[t], q) <==> Matches(lib.tags[t], f) {
      FoldEmpty(lib.tags[t].value);
    }
  }

  // ---------------------------------------------------------------- what the store answers

  predicate MatchesAny(row: TagRow, fs: seq<Filter>) { exists i | 0 <= i < |fs| :: Matches(row, fs[i]) }

  /** SELECT DISTINCT content_hash: contents with a tag row that meets the disjunction of conditions. */
  function TaggedContents(lib: Library, fs: seq<Filter>): set<string> {
    set p | p in lib.contentTags && p.1 in lib.tags && MatchesAny(lib.tags[p.1], fs) :: p.0
  }

  /** The join of those contents with their locations. */
  function LocationsOf(lib: Library, contents: set<string>): set<nat> {
    set l | l in lib.locations && lib.locations[l].hash in contents
  }

  lemma TaggedIsCarries(lib: Library, fs: seq<Filter>, l: nat)
    requires l in lib.locations
    ensures l in LocationsOf(lib, TaggedContents(lib, fs)) <==> CarriesAny(lib, l, fs)
  {
    var hash := lib.locations[l].hash;
    if CarriesAny(lib, l, fs) {
      var i :| 0 <= i < |fs| && Carries(lib, l, fs[i]);
      var t :| t in lib.tags && HasTag(lib, hash, t) && Matches(lib.tags[t], fs[i]);
      assert (hash, t) in lib.contentTags && MatchesAny(lib.tags[t], fs);
    }
    if hash in TaggedContents(lib, fs) {
      var p :| p in lib.contentTags && p.1 in lib.tags && MatchesAny(lib.tags[p.1], fs) && p.0 == hash;
      assert p == (hash, p.1) && HasTag(lib, hash, p.1);
      var i :| 0 <= i < |fs| && Matches(lib.tags[p.1], fs[i]);
      assert Carries(lib, l, fs[i]);
    }
  }

  /** The maintained summaries and the two live queries. */
  datatype Store = Store(root: seq<Facet>, byTag: (string, string) -> seq<Facet>, byKey: string -> seq<Facet>,
                         excluded: seq<Filter> -> seq<Facet>, includedExcluded: (Filter, seq<Filter>) -> seq<Facet>)

  /** The summaries are exact, and the live queries group what they select. */
  ghost predicate Exact(lib: Library, store: Store) {
    && IsFacets(lib, lib.locations.Keys, store.root)
    && (forall k, v :: IsFacets(lib, LocationsOf(lib, TaggedContents(lib, [Filter(k, v, false)])), store.byTag(k, v)))
    && (forall k :: IsFacets(lib, LocationsOf(lib, TaggedContents(lib, [Filter(k, "", true)])), store.byKey(k)))
    && (forall fs :: IsFacets(lib, LocationsOf(lib, TaggedContents(lib, fs)), store.excluded(fs)))
    && (forall f, fs :: IsFacets(lib, LocationsOf(lib, TaggedContents(lib, fs) * TaggedContents(lib, [f])),
      store.includedExcluded(f, fs)))
  }

  function ForFilter(store: Store, f: Filter): seq<Facet> {
    if f.keyOnly then store.byKey(f.key) else store.byTag(f.key, f.value)
  }

  lemma FilterFacets(lib: Library, store: Store, f: Filter)
    requires Exact(lib, store)
    ensures IsFacets(lib, LocationsOf(lib, TaggedContents(lib, [f])), ForFilter(store, f))
  {
    if f.keyOnly {
      assert forall row :: MatchesAny(row, [f]) <==> MatchesAny(row, [Filter(f.key, "", true)]) by {
        forall row ensures MatchesAny(row, [f]) <==> MatchesAny(row, [Filter(f.key, "", true)]) {
          OneFilter(row, f); OneFilter(row, Filter(f.key, "", true));
        }
      }
      assert TaggedContents(lib, [f]) == TaggedContents(lib, [Filter(f.key, "", true)]);
    } else {
      assert f == Filter(f.key, f.value, false);
    }
  }

  lemma OneFilter(row: TagRow, f: Filter)
    ensures MatchesAny(row, [f]) <==> Matches(row, f)
  {
    assert [f][0] == f;
  }

  // ---------------------------------------------------------------- the two fast paths

  /** kindFacetsForUserTagExclusions */
  method KindFacetsForUserTagExclusions(ghost lib: Library, store: Store, filters: seq<Filter>)
      returns (out: seq<Facet>)
    requires Exact(lib, store)
    ensures IsFacets(lib, lib.locations.Keys - LocationsOf(lib, TaggedContents(lib, filters)), out)
  {
    if filters == [] {
      assert TaggedContents(lib, filters) == {};
      assert lib.locations.Keys - LocationsOf(lib, {}) == lib.locations.Keys;
      return store.root;
    }
    var excluded: seq<Facet>;
    if |filters| == 1 {
      excluded := ForFilter(store, filters[0]);
      FilterFacets(lib, store, filters[0]);
      assert filters == [filters[0]];
    } else {
      excluded := store.excluded(filters);
    }
    out := SubtractKindFacets(store.root, excluded);
    FacetKindsAreDistinct(lib, lib.locations.Keys, store.root);
    SubtractionIsDifference(lib, lib.locations.Keys, LocationsOf(lib, TaggedContents(lib, filters)), store.root,
      excluded, out);
  }

  /** A single positive simple tag, as parseSimpleUserTagFacetFilter recognizes it. */
  function IncludedTag(e: Expression): Option<Filter> {
    if |e.or| == 1 && |e.or[0].and| == 1 && !e.or[0].and[0].not
      && e.or[0].and[0].factor.Tag? then SimpleTag(e.or[0].and[0].factor.tag) else None
  }

  predicate AllSimple(tags: seq<string>) { forall i | 0 <= i < |tags| :: SimpleTag(tags[i]).Some? }

  function FiltersOf(tags: seq<string>): (fs: seq<Filter>)
    requires AllSimple(tags)
    ensures |fs| == |tags| && forall i | 0 <= i < |tags| :: fs[i] == SimpleTag(tags[i]).value
  {
    seq(|tags|, i requires 0 <= i < |tags| => SimpleTag(tags[i]).value)
  }

  /** KindFacetsForSimpleUserTagExcluding; not ok leaves the query to the general path. */
  method KindFacetsForSimpleUserTagExcluding(ghost lib: Library, store: Store, e: Expression, tags: seq<string>)
      returns (out: seq<Facet>, ok: bool)
    requires Exact(lib, store)
    ensures ok <==> IncludedTag(e).Some? && AllSimple(tags)
    ensures ok ==> IsFacets(lib, Selected(lib, Hiding(e, tags)), out)
  {
    out := [];
    var included := IncludedTag(e);
    if included.None? { return out, false; }
    var exclusions: seq<Filter> := [];
    var i := 0;
    while i < |tags|
      invariant i <= |tags| && AllSimple(tags[..i]) && exclusions == FiltersOf(tags[..i])
    {
      var filter := SimpleTag(tags[i]);
      assert tags[..i + 1] == tags[..i] + [tags[i]];
      if filter.None? { return [], false; }
      exclusions := exclusions + [filter.value];
      i := i + 1;
    }
    assert tags[..i] == tags;
    ok := true;
    out := ForFilter(store, included.value);
    FilterFacets(lib, store, included.value);
    ghost var whole := LocationsOf(lib, TaggedContents(lib, [included.value]));
    ghost var part := LocationsOf(lib, TaggedContents(lib, exclusions) * TaggedContents(lib, [included.value]));
    HidingSelects(lib, e, tags);
    if exclusions == [] {
      assert TaggedContents(lib, exclusions) == {};
      assert whole - part == whole;
      return;
    }
    FacetKindsAreDistinct(lib, whole, out);
    var excluded := store.includedExcluded(included.value, exclusions);
    ghost var all := out;
    out := SubtractKindFacets(out, excluded);
    SubtractionIsDifference(lib, whole, part, all, excluded, out);
  }

  // ---------------------------------------------------------------- the general query

  /** The files the general query returns. */
  function Selected(lib: Library, e: Expression): set<nat> {
    set l | l in lib.locations && Selects(lib, Ids, e, Id(l))
  }

  /** Whatever plan the compiler chooses for it. */
  lemma SelectedIsCompiled(lib: Library, e: Expression, counts: map<string, nat>)
    requires WellFormed(lib) && Grammatical(e)
    ensures Selected(lib, e)
      == set l | l in lib.locations && QueryCompiler.Returns(lib, Ids, QueryCompiler.Compile(e, counts, Ids), Id(l))
  {
    forall l | l in lib.locations
      ensures Selects(lib, Ids, e, Id(l))
        <==> QueryCompiler.Returns(lib, Ids, QueryCompiler.Compile(e, counts, Ids), Id(l)) {
      QueryCompiler.CompileMeans(lib, Ids, e, counts, Id(l));
    }
  }

  /** The user's query with hidden tags excluded: `(query) -"tag" -"tag"`. */
  function Hiding(e: Expression, tags: seq<string>): Expression {
    Expression([AndTerm([Term(false, Sub(e))] + seq(|tags|, i requires 0 <= i < |tags| => Term(true, Tag(tags[i]))))])
  }

  lemma HidingSelects(lib: Library, e: Expression, tags: seq<string>)
    requires IncludedTag(e).Some? && AllSimple(tags)
    ensures var f, fs := IncludedTag(e).value, FiltersOf(tags);
      Selected(lib, Hiding(e, tags)) ==
      LocationsOf(lib, TaggedContents(lib, [f])) - LocationsOf(lib, TaggedContents(lib, fs) * TaggedContents(lib, [f]))
  {
    var f, fs := IncludedTag(e).value, FiltersOf(tags);
    forall l | l in lib.locations
      ensures Selects(lib, Ids, Hiding(e, tags), Id(l)) <==> Carries(lib, l, f) && !CarriesAny(lib, l, fs)
      ensures l in LocationsOf(lib, TaggedContents(lib, [f])) <==> Carries(lib, l, f)
      ensures l in LocationsOf(lib, TaggedContents(lib, fs)) <==> CarriesAny(lib, l, fs)
    {
      HidingSelectsOne(lib, e, tags, l);
      TaggedIsCarries(lib, [f], l);
      TaggedIsCarries(lib, fs, l);
      assert [f][0] == f;
    }
  }

  lemma HidingSelectsOne(lib: Library, e: Expression, tags: seq<string>, l: nat)
    requires IncludedTag(e).Some? && AllSimple(tags) && l in lib.locations
    ensures Selects(lib, Ids, Hiding(e, tags), Id(l))
      <==> Carries(lib, l, IncludedTag(e).value) && !CarriesAny(lib, l, FiltersOf(tags))
  {
    var terms := Hiding(e, tags).or[0].and;
    assert Selects(lib, Ids, Hiding(e, tags), Id(l)) <==> SelectsAll(lib, Ids, Hiding(e, tags).or[0], Id(l));
    IncludedMeans(lib, e, l);
    assert terms[0] == Term(false, Sub(e));
    forall i | 0 <= i < |tags|
      ensures terms[i + 1].not != SelectsFactor(lib, Ids, terms[i + 1].factor, Id(l))
      <==> !Carries(lib, l, FiltersOf(tags)[i]) {
      assert terms[i + 1] == Term(true, Tag(tags[i]));
      SimpleTagMeans(lib, tags[i], l);
    }
    assert forall i | 0 < i < |terms| :: terms[i] == terms[i - 1 + 1];
  }

  lemma IncludedMeans(lib: Library, e: Expression, l: nat)
    requires IncludedTag(e).Some? && l in lib.locations
    ensures Selects(lib, Ids, e, Id(l)) <==> Carries(lib, l, IncludedTag(e).value)
  {
    var term := e.or[0].and[0];
    SimpleTagMeans(lib, term.factor.tag, l);
    assert Selects(lib, Ids, e, Id(l)) <==> SelectsAll(lib, Ids, e.or[0], Id(l));
    assert SelectsAll(lib, Ids, e.or[0], Id(l)) <==> (term.not != SelectsFactor(lib, Ids, term.factor, Id(l)));
  }

  /** A conjunction of negated simple tags, as parseSimpleUserTagFacetExclusions recognizes it. */
  predicate OnlyExclusions(e: Expression) {
    |e.or| == 1 && |e.or[0].and| > 0 && forall i | 0 <= i < |e.or[0].and| :: ExcludedTerm(e.or[0].and[i])
  }

  predicate ExcludedTerm(t: Term) { t.not && t.factor.Tag? && SimpleTag(t.factor.tag).Some? }

  function ExcludedFilter(t: Term): Filter
    requires ExcludedTerm(t)
  {
    SimpleTag(t.factor.tag).value
  }

  function Exclusions(terms: seq<Term>): (fs: seq<Filter>)
    requires forall i | 0 <= i < |terms| :: ExcludedTerm(terms[i])
    ensures |fs| == |terms| && forall i | 0 <= i < |terms| :: fs[i] == ExcludedFilter(terms[i])
  {
    seq(|terms|, i requires 0 <= i < |terms| => ExcludedFilter(terms[i]))
  }

  /** The branch of KindFacetsByQuery for conjunctions of exclusions: it is taken exactly for them, and gives the
      facets of the query. */
  method KindFacetsForExclusionQuery(ghost lib: Library, store: Store, e: Expression) returns (out: Option<seq<Facet>>)
    requires Exact(lib, store)
    ensures out.Some? <==> OnlyExclusions(e)
    ensures out.Some? ==> IsFacets(lib, Selected(lib, e), out.value)
  {
    if |e.or| != 1 || |e.or[0].and| == 0 { return None; }
    var terms := e.or[0].and;
    var filters: seq<Filter> := [];
    var i := 0;
    while i < |terms|
      invariant i <= |terms| && (forall j | 0 <= j < i :: ExcludedTerm(terms[j])) && filters == Exclusions(terms[..i])
    {
      if !terms[i].not || terms[i].factor.Sub? { return None; }
      var filter := SimpleTag(terms[i].factor.tag);
      if filter.None? { return None; }
      filters := filters + [filter.value];
      i := i + 1;
    }
    assert terms[..i] == terms;
    var facets := KindFacetsForUserTagExclusions(lib, store, filters);
    ExclusionsSelect(lib, e);
    out := Some(facets);
  }

  lemma ExclusionsSelect(lib: Library, e: Expression)
    requires OnlyExclusions(e)
    ensures Selected(lib, e) == lib.locations.Keys - LocationsOf(lib, TaggedContents(lib, Exclusions(e.or[0].and)))
  {
    var terms := e.or[0].and;
    forall l | l in lib.locations
      ensures Selects(lib, Ids, e, Id(l)) <==> l !in LocationsOf(lib, TaggedContents(lib, Exclusions(terms)))
    {
      assert Selects(lib, Ids, e, Id(l)) <==> SelectsAll(lib, Ids, e.or[0], Id(l));
      forall i | 0 <= i < |terms|
        ensures terms[i].not != SelectsFactor(lib, Ids, terms[i].factor, Id(l))
        <==> !Carries(lib, l, Exclusions(terms)[i]) {
        SimpleTagMeans(lib, terms[i].factor.tag, l);
      }
      TaggedIsCarries(lib, Exclusions(terms), l);
    }
  }
}
