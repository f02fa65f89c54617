/** Compiling a query into SQL: the relational term the builder emits, what that term selects, and the proof
    that the selection is the meaning of the query, whatever the tag statistics say. */
module QueryCompiler {
  import opened Basics
  import opened QueryAst

  /** The single SELECT statements, named after what drives them. */
  datatype Leaf =
    | Nothing                                             // SELECT NULL WHERE 0
    | TaggedContents
    | FilenameScan(part: string, indexed: bool)
    | OutsideTargets
    | InsideTarget(target: Option<string>)
    | ByExtension(ext: string)
    | ByMediaKind(kind: string)                           // metadata branch, comics, extension fallback
    | ExactAssociation(key: string, value: string)
    | KeyExists(key: string)                              // drive from locations
    | KeyJoin(key: string)                                // drive from tag associations
    | KeyAnyValue(key: string)
    | KeyNoValue(key: string)
    | KeyAnywhere(key: string)

  datatype Rel =
    | Select(leaf: Leaf)
    | Union(branches: seq<Rel>)                                   // SELECT c FROM (b UNION b ...) AS t
    | Complement(of: Rel)                                         // all locations WHERE c NOT IN (...)
    | Restrict(from: Option<Rel>, inside: seq<Rel>,
      outside: seq<Rel>)   // ... WHERE 1=1 AND c IN (...) AND c NOT IN (...)

  // ---------------------------------------------------------------- what the SQL selects

  function FallbackCondition(kind: string, ext: string): bool {
    if kind == "comic" then ext == ".cbz"
    else if kind == "gif" then ext == ".gif"
    else if kind == "photo" then ext in PHOTOS
    else if kind == "video" then ext in VIDEOS
    else if kind == "other" then ext != ".cbz" && ext != ".gif" && ext !in PHOTOS && ext !in VIDEOS
    else false
  }

  /** The rows of locations that the branches of the split type: query return. */
  predicate MediaBranches(lib: Library, kind: string, l: Location) {
    var ext := Fold(l.ext);
    || (l.hash in lib.mediaKind && ext != ".cbz" && Fold(lib.mediaKind[l.hash]) == Fold(kind))
    || (if Fold(kind) == "comic" then ext == ".cbz" else FallbackCondition(Fold(kind), ext) && l.hash !in lib.mediaKind)
  }

  /** (SELECT id FROM tags WHERE key = ? AND value = ?) under NOCASE. */
  predicate IsTagId(lib: Library, t: nat, key: string, value: string) {
    t in lib.tags && Fold(lib.tags[t].key) == Fold(key) && Fold(lib.tags[t].value) == Fold(value)
  }

  /** Does the leaf's join return this location? Exact associations are handled by `Returns`. */
  predicate LocationRow(lib: Library, leaf: Leaf, l: nat)
    requires l in lib.locations
  {
    var loc := lib.locations[l];
    match leaf
    case Nothing => false
    case TaggedContents => exists p | p in lib.contentTags :: p.0 == loc.hash
    case FilenameScan(part, indexed) => (indexed ==> lib.fts(loc.filename, part))
      && Contains(Fold(loc.filename), Fold(part))
    case OutsideTargets => loc.targets == {}
    case InsideTarget(t) => exists m | m in loc.targets :: t.None? || m == t.value
    case ByExtension(e) => Fold(loc.ext) == Fold(e)
    case ByMediaKind(k) => MediaBranches(lib, k, loc)
    case ExactAssociation(k, v) => exists p | p in lib.contentTags :: p.0 == loc.hash && IsTagId(lib, p.1, k, v)
    case KeyExists(k) => exists p | p in lib.contentTags ::
      p.0 == loc.hash && p.1 in lib.tags && Fold(lib.tags[p.1].key) == Fold(k)
    case KeyJoin(k) => exists t | t in lib.tags :: Fold(lib.tags[t].key) == Fold(k) && (loc.hash, t) in lib.contentTags
    case KeyAnyValue(k) => exists p | p in lib.contentTags ::
      p.0 == loc.hash && p.1 in lib.tags && Fold(lib.tags[p.1].key) == Fold(k) && lib.tags[p.1].value != ""
    case KeyNoValue(k) => exists p | p in lib.contentTags ::
      p.0 == loc.hash && p.1 in lib.tags && Fold(lib.tags[p.1].key) == Fold(k) && lib.tags[p.1].value == ""
    case KeyAnywhere(k) => exists p | p in lib.contentTags ::
      p.0 == loc.hash && p.1 in lib.tags && Fold(lib.tags[p.1].key) == Fold(k)
  }

  predicate LeafReturns(lib: Library, mode: Target, leaf: Leaf, x: Item) {
    match mode
    case Ids => x.Id? && x.id in lib.locations && LocationRow(lib, leaf, x.id)
    case Hashes =>
      x.Hash? &&
      match leaf
      case ExactAssociation(k, v) => exists p | p in lib.contentTags :: p.0 == x.hash && IsTagId(lib, p.1, k, v)
      case OutsideTargets =>
        HasLocation(lib, x.hash)
          && !(exists l | l in lib.locations :: lib.locations[l].hash == x.hash && lib.locations[l].targets != {})
      case _ => exists l | l in lib.locations :: lib.locations[l].hash == x.hash && LocationRow(lib, leaf, l)
  }

  /** The set a relational term denotes. No leaf ever returns NULL, so NOT IN is set difference. */
  predicate Returns(lib: Library, mode: Target, r: Rel, x: Item) {
    match r
    case Select(leaf) => LeafReturns(lib, mode, leaf, x)
    case Union(bs) => exists i | 0 <= i < |bs| :: Returns(lib, mode, bs[i], x)
    case Complement(of) => InUniverse(lib, mode, x) && !Returns(lib, mode, of, x)
    case Restrict(from, inside, outside) =>
      && (if from.None? then InUniverse(lib, mode, x) else Returns(lib, mode, from.value, x))
      && (forall i | 0 <= i < |inside| :: Returns(lib, mode, inside[i], x))
      && (forall i | 0 <= i < |outside| :: !Returns(lib, mode, outside[i], x))
  }

  // ---------------------------------------------------------------- compiling

  type Counts = map<string, nat>

  /** `knownEmpty`: the statistics say that no content has this key. */
  function CompileQuestion(q: Question, knownEmpty: bool, mode: Target): Leaf {
    match q
    case Never => Nothing
    case AnyTag => TaggedContents
    case NameContains(part) => FilenameScan(part, |part| >= 3)
    case Unmanaged => OutsideTargets
    case Managed(t) => InsideTarget(t)
    case Extension(e) => ByExtension(e)
    case Kind(k) => ByMediaKind(k)
    case ExactTag(k, v) => ExactAssociation(k, v)
    case WithKey(k) => if mode.Hashes? then KeyAnywhere(k) else if knownEmpty then KeyJoin(k) else KeyExists(k)
    case KeyWithValue(k) => KeyAnyValue(k)
    case KeyWithoutValue(k) => KeyNoValue(k)
  }

  function CompileTag(tag: string, counts: Counts, mode: Target): Leaf {
    CompileQuestion(Asked(tag), tag in counts && counts[tag] == 0, mode)
  }

  const UNKNOWN := 0x7fff_ffff

  /** Estimated number of contents; tags without statistics and groups count as unselective. */
  function Selectivity(f: Factor, counts: Counts): nat {
    if f.Tag? && f.tag in counts then counts[f.tag] else UNKNOWN
  }

  /** One operand of a conjunction: its place, its sign and its estimated size. */
  datatype Operand = Operand(index: nat, not: bool, weight: nat)

  function Operands(a: AndTerm, counts: Counts): (r: seq<Operand>)
    ensures |r| == |a.and| && forall i | 0 <= i < |r| :: r[i].index == i && r[i].not == a.and[i].not
  {
    seq(|a.and|, i requires 0 <= i < |a.and| => Operand(i, a.and[i].not, Selectivity(a.and[i].factor, counts)))
  }

  function Insert(o: Operand, os: seq<Operand>): (r: seq<Operand>)
    ensures forall x :: x in r <==> x == o || x in os
  {
    if os == [] || o.weight < os[0].weight then [o] + os
    else
      assert os == [os[0]] + os[1..];
      [os[0]] + Insert(o, os[1..])
  }

  /** The positive operands by increasing weight; equal weights keep their order. */
  function Sorted(os: seq<Operand>): (r: seq<Operand>)
    ensures forall x :: x in r <==> x in os
  {
    if os == [] then []
    else
      assert os == os[..|os| - 1] + [os[|os| - 1]];
      Insert(os[|os| - 1], Sorted(os[..|os| - 1]))
  }

  function Signed(os: seq<Operand>, not: bool): (r: seq<Operand>)
    ensures forall x :: x in r <==> x in os && x.not == not
  {
    if os == [] then []
    else
      assert os == os[..|os| - 1] + [os[|os| - 1]];
      Signed(os[..|os| - 1], not) + (if os[|os| - 1].not == not then [os[|os| - 1]] else [])
  }

  ghost predicate Ordered(os: seq<Operand>) { forall i, j | 0 <= i < j < |os| :: os[i].weight <= os[j].weight }

  lemma {:induction false} InsertOrdered(o: Operand, os: seq<Operand>)
    requires Ordered(os)
    ensures Ordered(Insert(o, os))
  {
    if os != [] && !(o.weight < os[0].weight) {
      InsertOrdered(o, os[1..]);
      forall j | 0 <= j < |Insert(o, os[1..])| ensures os[0].weight <= Insert(o, os[1..])[j].weight {
        assert Insert(o, os[1..])[j] in Insert(o, os[1..]);
      }
    }
  }

  /** The operand that drives a conjunction is the most selective one. */
  lemma {:induction false} SortedOrdered(os: seq<Operand>)
    ensures Ordered(Sorted(os))
  {
    if os != [] {
      SortedOrdered(os[..|os| - 1]);
      InsertOrdered(os[|os| - 1], Sorted(os[..|os| - 1]));
    }
  }

  function Compile(e: Expression, counts: Counts, mode: Target): Rel
    requires Grammatical(e)
    decreases e, 1
  {
    if |e.or| > 1
    then Union(seq(|e.or|, i requires 0 <= i < |e.or| => CompileAnd(e.or[i], counts, mode)))
    else CompileAnd(e.or[0], counts, mode)
  }

  function CompileAnd(a: AndTerm, counts: Counts, mode: Target): Rel
    requires GrammaticalAnd(a)
    decreases a, 1
  {
    if |a.and| == 1 then
      var r := CompileFactor(a.and[0].factor, counts, mode);
      if a.and[0].not then Complement(r) else r
    else
      var positive, negative := Sorted(Signed(Operands(a, counts), false)), Signed(Operands(a, counts), true);
      if positive == [] then Restrict(None, [], CompileAll(a, negative, counts, mode))
      else
        assert positive[0] in positive;
        Restrict(Some(CompileFactor(a.and[positive[0].index].factor, counts, mode)),
                 CompileAll(a, positive[1..], counts, mode), CompileAll(a, negative, counts, mode))
  }

  function CompileAll(a: AndTerm, os: seq<Operand>, counts: Counts, mode: Target): seq<Rel>
    requires GrammaticalAnd(a) && forall o | o in os :: o.index < |a.and|
    decreases a, 0
  {
    seq(|os|, i requires 0 <= i < |os| => CompileFactor(a.and[os[i].index].factor, counts, mode))
  }

  function CompileFactor(f: Factor, counts: Counts, mode: Target): Rel
    requires GrammaticalFactor(f)
    decreases f
  {
    match f
    case Tag(tag) => Select(CompileTag(tag, counts, mode))
    case Sub(e) => Compile(e, counts, mode)
  }

  // ---------------------------------------------------------------- leaves

  /** The split form of type: is the CASE kind. */
  lemma MediaBranchesAreKind(lib: Library, kind: string, l: Location)
    ensures MediaBranches(lib, kind, l) <==> Fold(MediaKind(lib, l)) == Fold(kind)
  {
    var ext := Fold(l.ext);
    assert Fold("comic") == "comic" && Fold("gif") == "gif" && Fold("photo") == "photo" && Fold("video") == "video"
      && Fold("other") == "other";
    assert ext == ".gif" ==> ext !in PHOTOS && ext !in VIDEOS;
    assert ext in PHOTOS ==> ext !in VIDEOS;
    assert ext == ".cbz" ==> ext !in PHOTOS && ext !in VIDEOS && ext != ".gif";
  }

  lemma ContentByPair(lib: Library, hash: string, q: Question)
    requires WellFormed(lib)
    ensures ContentAnswers(lib, hash, q)
      <==> exists p | p in lib.contentTags :: p.0 == hash && p.1 in lib.tags && TagRowAnswers(lib.tags[p.1], q)
  {
    if ContentAnswers(lib, hash, q) {
      var t :| t in lib.tags && HasTag(lib, hash, t) && TagRowAnswers(lib.tags[t], q);
      assert (hash, t) in lib.contentTags;
    }
    if p :| p in lib.contentTags && p.0 == hash && p.1 in lib.tags && TagRowAnswers(lib.tags[p.1], q) {
      assert p == (hash, p.1) && HasTag(lib, hash, p.1);
    }
  }

  lemma TagRowMeans(lib: Library, q: Question, knownEmpty: bool, mode: Target, l: nat)
    requires WellFormed(lib) && l in lib.locations && ByTags(q)
    ensures LocationRow(lib, CompileQuestion(q, knownEmpty, mode), l) <==> ContentAnswers(lib, lib.locations[l].hash, q)
  {
    ContentByPair(lib, lib.locations[l].hash, q);
    if q.WithKey? && mode.Ids? && knownEmpty { KeyJoinMeans(lib, lib.locations[l].hash, q.key); }
  }

  lemma KeyJoinMeans(lib: Library, hash: string, key: string)
    ensures (exists t | t in lib.tags :: Fold(lib.tags[t].key) == Fold(key) && (hash, t) in lib.contentTags)
      <==> ContentAnswers(lib, hash, WithKey(key))
  {
    assert forall t | t in lib.tags ::
      Fold(lib.tags[t].key) == Fold(key) && (hash, t) in lib.contentTags
      <==> HasTag(lib, hash, t) && TagRowAnswers(lib.tags[t], WithKey(key));
  }

  lemma LocationRowMeans(lib: Library, q: Question, knownEmpty: bool, mode: Target, l: nat)
    requires WellFormed(lib) && l in lib.locations
    ensures LocationRow(lib, CompileQuestion(q, knownEmpty, mode), l) <==> LocationAnswers(lib, l, q)
  {
    if ByTags(q) { TagRowMeans(lib, q, knownEmpty, mode, l); }
    else if q.Kind? { MediaBranchesAreKind(lib, q.kind, lib.locations[l]); }
  }

  lemma QuestionMeans(lib: Library, mode: Target, q: Question, knownEmpty: bool, x: Item)
    requires WellFormed(lib)
    ensures LeafReturns(lib, mode, CompileQuestion(q, knownEmpty, mode), x)
      <==> InUniverse(lib, mode, x) && Answers(lib, mode, q, x)
  {
    var leaf := CompileQuestion(q, knownEmpty, mode);
    forall l | l in lib.locations ensures LocationRow(lib, leaf, l) <==> LocationAnswers(lib, l, q) {
      LocationRowMeans(lib, q, knownEmpty, mode, l);
    }
    if mode.Hashes? && x.Hash? { ContentMeans(lib, q, leaf, x.hash); }
  }

  lemma ContentMeans(lib: Library, q: Question, leaf: Leaf, hash: string)
    requires WellFormed(lib) && (leaf.OutsideTargets? <==> q.Unmanaged?)
    requires forall l | l in lib.locations :: LocationRow(lib, leaf, l) <==> LocationAnswers(lib, l, q)
    ensures LeafReturns(lib, Hashes, leaf, Hash(hash))
      <==> InUniverse(lib, Hashes, Hash(hash)) && Answers(lib, Hashes, q, Hash(hash))
  {
    if q.Unmanaged? {
      UnmanagedContent(lib, hash);
    } else {
      SomeLocation(lib, q, leaf, hash);
      LeafByLocation(lib, leaf, hash);
    }
  }

  /** Apart from the anti-join, a hash is returned when one of its locations is. */
  lemma LeafByLocation(lib: Library, leaf: Leaf, hash: string)
    requires WellFormed(lib) && !leaf.OutsideTargets?
    ensures LeafReturns(lib, Hashes, leaf, Hash(hash)) <==>
      exists l | l in lib.locations :: lib.locations[l].hash == hash && LocationRow(lib, leaf, l)
  {
    if leaf.ExactAssociation? { ExactByHash(lib, leaf.key, leaf.value, hash); }
  }

  lemma UnmanagedContent(lib: Library, hash: string)
    ensures LeafReturns(lib, Hashes, OutsideTargets, Hash(hash))
      <==> InUniverse(lib, Hashes, Hash(hash)) && Answers(lib, Hashes, Unmanaged, Hash(hash))
  {
  }

  lemma SomeLocation(lib: Library, q: Question, leaf: Leaf, hash: string)
    requires !q.Unmanaged? && forall l | l in lib.locations :: LocationRow(lib, leaf, l) <==> LocationAnswers(lib, l, q)
    ensures (exists l | l in lib.locations :: lib.locations[l].hash == hash && LocationRow(lib, leaf, l))
      <==> InUniverse(lib, Hashes, Hash(hash)) && Answers(lib, Hashes, q, Hash(hash))
  {
    if l :| l in lib.locations && lib.locations[l].hash == hash && LocationRow(lib, leaf, l) {
      assert HasLocation(lib, hash) && LocationAnswers(lib, l, q);
    }
    if InUniverse(lib, Hashes, Hash(hash)) && Answers(lib, Hashes, q, Hash(hash)) {
      var l :| l in lib.locations && lib.locations[l].hash == hash && LocationAnswers(lib, l, q);
      assert LocationRow(lib, leaf, l);
    }
  }

  lemma LeafMeans(lib: Library, mode: Target, tag: string, counts: Counts, x: Item)
    requires WellFormed(lib)
    ensures LeafReturns(lib, mode, CompileTag(tag, counts, mode), x)
      <==> InUniverse(lib, mode, x) && Answers(lib, mode, Asked(tag), x)
  {
    QuestionMeans(lib, mode, Asked(tag), tag in counts && counts[tag] == 0, x);
  }

  /** An exact association needs no location row: the content of a tag always has one. */
  lemma ExactByHash(lib: Library, key: string, value: string, hash: string)
    requires WellFormed(lib)
    ensures LeafReturns(lib, Hashes, ExactAssociation(key, value), Hash(hash)) <==>
      exists l | l in lib.locations ::
        lib.locations[l].hash == hash && LocationRow(lib, ExactAssociation(key, value), l)
  {
    if p :| p in lib.contentTags && p.0 == hash && IsTagId(lib, p.1, key, value) {
      assert HasLocation(lib, hash);
      var l :| l in lib.locations && lib.locations[l].hash == hash;
      assert LocationRow(lib, ExactAssociation(key, value), l);
    }
  }

  // ---------------------------------------------------------------- the main theorem

  lemma {:induction false} FactorMeans(lib: Library, mode: Target, f: Factor, counts: Counts, x: Item)
    requires WellFormed(lib) && GrammaticalFactor(f)
    ensures Returns(lib, mode, CompileFactor(f, counts, mode), x)
      <==> InUniverse(lib, mode, x) && SelectsFactor(lib, mode, f, x)
    decreases f
  {
    match f
    case Tag(tag) => LeafMeans(lib, mode, tag, counts, x);
    case Sub(e) => CompileMeans(lib, mode, e, counts, x);
  }

  ghost predicate AllReturn(lib: Library, mode: Target, rels: seq<Rel>, x: Item, wanted: bool) {
    forall i | 0 <= i < |rels| :: Returns(lib, mode, rels[i], x) == wanted
  }

  ghost predicate AllSelect(lib: Library, mode: Target, a: AndTerm, os: seq<Operand>, x: Item, wanted: bool)
    requires InUniverse(lib, mode, x) && forall o | o in os :: o.index < |a.and|
  {
    forall o | o in os :: SelectsFactor(lib, mode, a.and[o.index].factor, x) == wanted
  }

  ghost predicate FactorsMean(lib: Library, mode: Target, a: AndTerm, counts: Counts, x: Item)
    requires GrammaticalAnd(a) && InUniverse(lib, mode, x)
  {
    forall i | 0 <= i < |a.and| ::
      Returns(lib, mode, CompileFactor(a.and[i].factor, counts, mode), x)
      <==> SelectsFactor(lib, mode, a.and[i].factor, x)
  }

  /** A list of operands inside or outside of which the rows must be. */
  lemma AllMean(lib: Library, mode: Target, a: AndTerm, os: seq<Operand>, counts: Counts, x: Item, wanted: bool)
    requires GrammaticalAnd(a) && InUniverse(lib, mode, x) && (forall o | o in os :: o.index < |a.and|)
    requires FactorsMean(lib, mode, a, counts, x)
    ensures AllReturn(lib, mode, CompileAll(a, os, counts, mode), x, wanted) <==> AllSelect(lib, mode, a, os, x, wanted)
  {
    var rels := CompileAll(a, os, counts, mode);
    forall i | 0 <= i < |os|
      ensures Returns(lib, mode, rels[i], x) <==> SelectsFactor(lib, mode, a.and[os[i].index].factor, x) {
      assert os[i] in os && rels[i] == CompileFactor(a.and[os[i].index].factor, counts, mode);
    }
    if AllReturn(lib, mode, rels, x, wanted) {
      forall o | o in os ensures SelectsFactor(lib, mode, a.and[o.index].factor, x) == wanted {
        var i :| 0 <= i < |os| && os[i] == o;
        assert Returns(lib, mode, rels[i], x) == wanted;
      }
    }
  }

  /** Whatever order the statistics put the operands in, a conjunction returns what all operands allow. */
  lemma {:induction false} AndMeans(lib: Library, mode: Target, a: AndTerm, counts: Counts, x: Item)
    requires WellFormed(lib) && GrammaticalAnd(a)
    ensures Returns(lib, mode, CompileAnd(a, counts, mode), x)
      <==> InUniverse(lib, mode, x) && SelectsAll(lib, mode, a, x)
    decreases a
  {
    forall i | 0 <= i < |a.and|
      ensures Returns(lib, mode, CompileFactor(a.and[i].factor, counts, mode), x)
        <==> InUniverse(lib, mode, x) && SelectsFactor(lib, mode, a.and[i].factor, x) {
      FactorMeans(lib, mode, a.and[i].factor, counts, x);
    }
    if |a.and| == 1 { OneMeans(lib, mode, a, counts, x); }
    else if InUniverse(lib, mode, x) { ManyMean(lib, mode, a, counts, x); }
    else { NoneOutside(lib, mode, a, counts, x); }
  }

  lemma OneMeans(lib: Library, mode: Target, a: AndTerm, counts: Counts, x: Item)
    requires GrammaticalAnd(a) && |a.and| == 1
    requires Returns(lib, mode, CompileFactor(a.and[0].factor, counts, mode), x)
      <==> InUniverse(lib, mode, x) && SelectsFactor(lib, mode, a.and[0].factor, x)
    ensures Returns(lib, mode, CompileAnd(a, counts, mode), x)
      <==> InUniverse(lib, mode, x) && SelectsAll(lib, mode, a, x)
  {
  }

  /** A conjunction is driven by its first positive operand, or by all locations when there is none. */
  lemma DrivenBy(a: AndTerm, counts: Counts, mode: Target)
    requires GrammaticalAnd(a) && |a.and| > 1
    ensures var r, positive := CompileAnd(a, counts, mode), Sorted(Signed(Operands(a, counts), false));
      && r.Restrict? && (positive != [] ==> positive[0] in positive && positive[0].index < |a.and|)
      && r.from == if positive == [] then None else Some(CompileFactor(a.and[positive[0].index].factor, counts, mode))
  {
    var positive := Sorted(Signed(Operands(a, counts), false));
    if positive != [] { assert positive[0] in positive; }
  }

  lemma NoneOutside(lib: Library, mode: Target, a: AndTerm, counts: Counts, x: Item)
    requires GrammaticalAnd(a) && |a.and| > 1 && !InUniverse(lib, mode, x)
    requires forall i | 0 <= i < |a.and| :: !Returns(lib, mode, CompileFactor(a.and[i].factor, counts, mode), x)
    ensures !Returns(lib, mode, CompileAnd(a, counts, mode), x)
  {
    DrivenBy(a, counts, mode);
    NotDriven(lib, mode, CompileAnd(a, counts, mode), x);
  }

  lemma NotDriven(lib: Library, mode: Target, r: Rel, x: Item)
    requires r.Restrict? && if r.from.None? then !InUniverse(lib, mode, x) else !Returns(lib, mode, r.from.value, x)
    ensures !Returns(lib, mode, r, x)
  {
  }

  lemma FirstAndRest(lib: Library, mode: Target, a: AndTerm, os: seq<Operand>, x: Item, wanted: bool)
    requires os != [] && InUniverse(lib, mode, x) && forall o | o in os :: o.index < |a.and|
    ensures os[0] in os && (forall o | o in os[1..] :: o in os)
    ensures AllSelect(lib, mode, a, os, x, wanted) <==>
      SelectsFactor(lib, mode, a.and[os[0].index].factor, x) == wanted && AllSelect(lib, mode, a, os[1..], x, wanted)
  {
    assert os == [os[0]] + os[1..];
  }

  lemma ManyMean(lib: Library, mode: Target, a: AndTerm, counts: Counts, x: Item)
    requires GrammaticalAnd(a) && |a.and| > 1 && InUniverse(lib, mode, x) && FactorsMean(lib, mode, a, counts, x)
    ensures Returns(lib, mode, CompileAnd(a, counts, mode), x) <==> SelectsAll(lib, mode, a, x)
  {
    var positive, negative := Sorted(Signed(Operands(a, counts), false)), Signed(Operands(a, counts), true);
    BySign(lib, mode, a, counts, x);
    AllMean(lib, mode, a, negative, counts, x, false);
    if positive == [] {
      RestrictMeans(lib, mode, None, [], CompileAll(a, negative, counts, mode), x);
    } else {
      DrivenMeans(lib, mode, a, counts, x, positive, negative);
    }
  }

  lemma DrivenMeans(lib: Library, mode: Target, a: AndTerm, counts: Counts, x: Item, positive: seq<Operand>,
      negative: seq<Operand>)
    requires GrammaticalAnd(a) && InUniverse(lib, mode, x) && FactorsMean(lib, mode, a, counts, x)
    requires positive != [] && (forall o | o in positive :: o.index < |a.and|)
      && forall o | o in negative :: o.index < |a.and|
    requires AllReturn(lib, mode, CompileAll(a, negative, counts, mode), x, false)
      <==> AllSelect(lib, mode, a, negative, x, false)
    ensures positive[0] in positive
    ensures Returns(lib, mode, Restrict(Some(CompileFactor(a.and[positive[0].index].factor, counts, mode)),
                                        CompileAll(a, positive[1..], counts, mode),
                                          CompileAll(a, negative, counts, mode)), x)
      <==> AllSelect(lib, mode, a, positive, x, true) && AllSelect(lib, mode, a, negative, x, false)
  {
    FirstAndRest(lib, mode, a, positive, x, true);
    AllMean(lib, mode, a, positive[1..], counts, x, true);
    RestrictMeans(lib, mode, Some(CompileFactor(a.and[positive[0].index].factor, counts, mode)),
                  CompileAll(a, positive[1..], counts, mode), CompileAll(a, negative, counts, mode), x);
  }

  lemma RestrictMeans(lib: Library, mode: Target, from: Option<Rel>, inside: seq<Rel>, outside: seq<Rel>, x: Item)
    requires InUniverse(lib, mode, x)
    ensures Returns(lib, mode, Restrict(from, inside, outside), x) <==>
      (from.Some? ==> Returns(lib, mode, from.value, x)) && AllReturn(lib, mode, inside, x, true)
        && AllReturn(lib, mode, outside, x, false)
  {
  }

  lemma BySign(lib: Library, mode: Target, a: AndTerm, counts: Counts, x: Item)
    requires InUniverse(lib, mode, x)
    ensures var os := Operands(a, counts);
      SelectsAll(lib, mode, a, x) <==>
      AllSelect(lib, mode, a, Sorted(Signed(os, false)), x, true) && AllSelect(lib, mode, a, Signed(os, true), x, false)
  {
    var os := Operands(a, counts);
    forall i | 0 <= i < |a.and| ensures os[i] in os { }
  }

  /** The compiled query returns exactly what the query means: for every library, in both target modes and for
      every table of tag counts. */
  lemma {:induction false} CompileMeans(lib: Library, mode: Target, e: Expression, counts: Counts, x: Item)
    requires WellFormed(lib) && Grammatical(e)
    ensures Returns(lib, mode, Compile(e, counts, mode), x) <==> InUniverse(lib, mode, x) && Selects(lib, mode, e, x)
    decreases e
  {
    if |e.or| > 1 {
      var branches := CompiledBranches(e, counts, mode);
      forall i | 0 <= i < |e.or|
        ensures Returns(lib, mode, branches[i], x) <==> InUniverse(lib, mode, x) && SelectsAll(lib, mode, e.or[i], x) {
        AndMeans(lib, mode, e.or[i], counts, x);
      }
      UnionMeans(lib, mode, branches, e, x);
    } else {
      AndMeans(lib, mode, e.or[0], counts, x);
      OneBranch(lib, mode, e, counts, x);
    }
  }

  lemma OneBranch(lib: Library, mode: Target, e: Expression, counts: Counts, x: Item)
    requires Grammatical(e) && |e.or| == 1
    ensures Compile(e, counts, mode) == CompileAnd(e.or[0], counts, mode)
    ensures InUniverse(lib, mode, x) ==> (Selects(lib, mode, e, x) <==> SelectsAll(lib, mode, e.or[0], x))
  {
  }

  lemma CompiledBranches(e: Expression, counts: Counts, mode: Target) returns (branches: seq<Rel>)
    requires Grammatical(e) && |e.or| > 1
    ensures Compile(e, counts, mode) == Union(branches) && |branches| == |e.or|
    ensures forall i | 0 <= i < |e.or| :: branches[i] == CompileAnd(e.or[i], counts, mode)
  {
    branches := Compile(e, counts, mode).branches;
  }

  lemma UnionMeans(lib: Library, mode: Target, branches: seq<Rel>, e: Expression, x: Item)
    requires |branches| == |e.or|
    requires forall i | 0 <= i < |e.or| ::
      Returns(lib, mode, branches[i], x) <==> InUniverse(lib, mode, x) && SelectsAll(lib, mode, e.or[i], x)
    ensures Returns(lib, mode, Union(branches), x) <==> InUniverse(lib, mode, x) && Selects(lib, mode, e, x)
  {
  }

  /** Statistics choose plans, never answers. */
  lemma CountsDoNotMatter(lib: Library, mode: Target, e: Expression, counts: Counts, counts': Counts, x: Item)
    requires WellFormed(lib) && Grammatical(e)
    ensures Returns(lib, mode, Compile(e, counts, mode), x) == Returns(lib, mode, Compile(e, counts', mode), x)
  {
    CompileMeans(lib, mode, e, counts, x);
    CompileMeans(lib, mode, e, counts', x);
  }

  // ---------------------------------------------------------------- files and contents

  /** Only user tags and @tagged: what depends on the content alone. */
  predicate ContentOnly(e: Expression) { forall i | 0 <= i < |e.or| :: ContentOnlyAnd(e.or[i]) }

  predicate ContentOnlyAnd(a: AndTerm) { forall j | 0 <= j < |a.and| :: ContentOnlyFactor(a.and[j].factor) }

  predicate ContentOnlyFactor(f: Factor) {
    match f case Tag(tag) => ByTags(Asked(tag)) case Sub(e) => ContentOnly(e)
  }

  lemma {:induction false} FactorByContent(lib: Library, f: Factor, l: nat)
    requires l in lib.locations && ContentOnlyFactor(f) && HasLocation(lib, lib.locations[l].hash)
    ensures SelectsFactor(lib, Ids, f, Id(l)) == SelectsFactor(lib, Hashes, f, Hash(lib.locations[l].hash))
    decreases f
  {
    match f
    case Tag(tag) => assert LocationAnswers(lib, l, Asked(tag))
      == ContentAnswers(lib, lib.locations[l].hash, Asked(tag));
    case Sub(e) => ByContent(lib, e, l);
  }

  lemma {:induction false} AndByContent(lib: Library, a: AndTerm, l: nat)
    requires l in lib.locations && ContentOnlyAnd(a) && HasLocation(lib, lib.locations[l].hash)
    ensures SelectsAll(lib, Ids, a, Id(l)) == SelectsAll(lib, Hashes, a, Hash(lib.locations[l].hash))
    decreases a
  {
    forall i | 0 <= i < |a.and|
      ensures SelectsFactor(lib, Ids, a.and[i].factor, Id(l))
        == SelectsFactor(lib, Hashes, a.and[i].factor, Hash(lib.locations[l].hash)) {
      FactorByContent(lib, a.and[i].factor, l);
    }
  }

  lemma {:induction false} ByContent(lib: Library, e: Expression, l: nat)
    requires l in lib.locations && ContentOnly(e) && HasLocation(lib, lib.locations[l].hash)
    ensures Selects(lib, Ids, e, Id(l)) == Selects(lib, Hashes, e, Hash(lib.locations[l].hash))
    decreases e
  {
    forall i | 0 <= i < |e.or|
      ensures SelectsAll(lib, Ids, e.or[i], Id(l)) == SelectsAll(lib, Hashes, e.or[i], Hash(lib.locations[l].hash)) {
      AndByContent(lib, e.or[i], l);
    }
  }

  /** For queries about tags the two modes agree: the files found by id are the files of the contents found. */
  lemma ModesAgree(lib: Library, e: Expression, counts: Counts, l: nat)
    requires WellFormed(lib) && Grammatical(e) && ContentOnly(e) && l in lib.locations
    ensures Returns(lib, Ids, Compile(e, counts, Ids), Id(l))
      <==> Returns(lib, Hashes, Compile(e, counts, Hashes), Hash(lib.locations[l].hash))
  {
    assert HasLocation(lib, lib.locations[l].hash);
    CompileMeans(lib, Ids, e, counts, Id(l));
    CompileMeans(lib, Hashes, e, counts, Hash(lib.locations[l].hash));
    ByContent(lib, e, l);
  }
}
