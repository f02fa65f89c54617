/** What a listing, its pages and the neighbours of a file look like in the columns of the rows themselves. */
module ListingOrder {
  import opened Basics
  import opened Paging

  predicate NumberComes(desc: bool, m: int, n: int) { if desc then m > n else m < n }

  predicate TextComes(desc: bool, s: string, t: string) { if desc then StrLess(t, s) else StrLess(s, t) }

  /** The asked column in the asked direction; where it is equal, the smaller id first. */
  predicate Comes(sort: Sort, desc: bool, a: Row, b: Row) {
    match sort
    case Added =>
      if a.added != b.added then NumberComes(desc, a.added, b.added)
      else if a.addedOrder != b.addedOrder then NumberComes(desc, a.addedOrder, b.addedOrder)
      else a.id < b.id
    case Modified => if a.modified != b.modified then NumberComes(desc, a.modified, b.modified) else a.id < b.id
    case Size => if a.size != b.size then NumberComes(desc, a.size, b.size) else a.id < b.id
    case Name => if Fold(a.path) != Fold(b.path) then TextComes(desc, Fold(a.path), Fold(b.path)) else a.id < b.id
    case Kind => if Fold(a.kind) != Fold(b.kind) then TextComes(desc, Fold(a.kind), Fold(b.kind)) else a.id < b.id
  }

  lemma ListedIsComes(sort: Sort, desc: bool, a: Row, b: Row)
    ensures Listed(sort, desc, a, b) <==> Comes(sort, desc, a, b)
  {
    KeyOrder(Primary(sort, a), Primary(sort, b), Primary(sort, a));
    KeyOrder(Secondary(sort, a), Secondary(sort, b), Secondary(sort, a));
  }

  ghost predicate InOrder(sort: Sort, desc: bool, s: seq<Row>) {
    forall i, j | 0 <= i < j < |s| :: Comes(sort, desc, s[i], s[j])
  }

  /** A listing holds exactly the selected rows, by the asked column in the asked direction, ties by rising id. */
  lemma ListingIsOrdered(rows: seq<Row>, sort: Sort, desc: bool)
    requires DistinctIds(rows)
    ensures var s := Listing(rows, sort, desc);
      InOrder(sort, desc, s) && |s| == |rows| && forall q :: q in s <==> q in rows
  {
    ListingFacts(rows, sort, desc);
    var s := Listing(rows, sort, desc);
    forall i, j | 0 <= i < j < |s| ensures Comes(sort, desc, s[i], s[j]) { ListedIsComes(sort, desc, s[i], s[j]); }
  }

  /** So the pages, one after the other, are. */
  lemma PagesAreOrdered(goLower: string -> string, locations: seq<Row>, rows: seq<Row>, sort: Sort, desc: bool,
      limit: nat, n: nat)
    requires DistinctIds(locations) && DistinctIds(rows) && limit > 0
    requires forall r | r in rows :: r in locations && Reliable(goLower, rows, sort, desc, r)
    ensures var got := Pages(cursor => Page(goLower, locations, rows, sort, desc, cursor, limit), n);
      && got.Some? && InOrder(sort, desc, got.value)
      && (forall q | q in got.value :: q in rows)
      && (forall p, q | p in got.value && q in rows && q !in got.value :: Comes(sort, desc, p, q))
      && (n >= |rows| ==> forall q | q in rows :: q in got.value)
  {
    PagesConcatenateToListing(goLower, locations, rows, sort, desc, limit, n);
    ListingIsOrdered(rows, sort, desc);
    FrontComesFirst(Listing(rows, sort, desc), sort, desc, Reach(|rows|, limit, n));
  }

  lemma FrontComesFirst(s: seq<Row>, sort: Sort, desc: bool, k: nat)
    requires InOrder(sort, desc, s) && k <= |s|
    ensures forall p, q | p in s[..k] && q in s && q !in s[..k] :: Comes(sort, desc, p, q)
  {
    var front := s[..k];
    assert forall j | 0 <= j < k :: s[j] == front[j] && s[j] in front;
    forall p, q | p in front && q in s && q !in front ensures Comes(sort, desc, p, q) {
      var i :| 0 <= i < k && s[i] == p;
      var j :| 0 <= j < |s| && s[j] == q;
    }
  }

  // ---------------------------------------------------------------- neighbours

  /** Going round from the anchor in the listing's direction, x is met before y. */
  predicate MetFirst(sort: Sort, desc: bool, anchor: Row, x: Row, y: Row) {
    if Comes(sort, desc, anchor, x) == Comes(sort, desc, anchor, y) then Comes(sort, desc, x, y)
    else Comes(sort, desc, anchor, x)
  }

  /** And against it. */
  predicate MetFirstBackwards(sort: Sort, desc: bool, anchor: Row, x: Row, y: Row) {
    if Comes(sort, desc, x, anchor) == Comes(sort, desc, y, anchor) then Comes(sort, desc, y, x)
    else Comes(sort, desc, x, anchor)
  }

  lemma ComesByPlace(sort: Sort, desc: bool, s: seq<Row>, i: nat, j: nat)
    requires InOrder(sort, desc, s) && i < |s| && j < |s|
    ensures Comes(sort, desc, s[i], s[j]) <==> i < j
  {
    ListedIsComes(sort, desc, s[i], s[j]);
    ListedIsComes(sort, desc, s[j], s[i]);
    BeforeIsStrict(sort, desc, false, s[i], s[j]);
  }

  /** Where going round from place a leads to, counted from 0: a place of the listing, and how far away it is. */
  function Distance(a: nat, i: nat, n: nat): nat
    requires a < n && i < n
  {
    if i > a then i - a - 1 else n - a - 1 + i
  }

  lemma MetByDistance(sort: Sort, desc: bool, s: seq<Row>, a: nat, i: nat, j: nat)
    requires InOrder(sort, desc, s) && a < |s| && i < |s| && j < |s| && i != a && j != a
    ensures MetFirst(sort, desc, s[a], s[i], s[j]) <==> Distance(a, i, |s|) < Distance(a, j, |s|)
  {
    ComesByPlace(sort, desc, s, a, i);
    ComesByPlace(sort, desc, s, a, j);
    ComesByPlace(sort, desc, s, i, j);
  }

  lemma MetBackwardsByDistance(sort: Sort, desc: bool, s: seq<Row>, a: nat, i: nat, j: nat)
    requires InOrder(sort, desc, s) && a < |s| && i < |s| && j < |s| && i != a && j != a
    ensures var n := |s|;
      MetFirstBackwards(sort, desc, s[a], s[i], s[j])
      <==> Distance(n - 1 - a, n - 1 - i, n) < Distance(n - 1 - a, n - 1 - j, n)
  {
    ComesByPlace(sort, desc, s, i, a);
    ComesByPlace(sort, desc, s, j, a);
    ComesByPlace(sort, desc, s, j, i);
  }

  lemma WindowPlace(s: seq<Row>, a: nat, count: nat, k: nat)
    requires a < |s| && k < |Window(s, a, count)|
    ensures var i := if a + 1 + k < |s| then a + 1 + k else a + 1 + k - |s|;
      0 <= i < |s| && i != a && Distance(a, i, |s|) == k && Window(s, a, count)[k] == s[i]
  {
  }

  lemma MetSoon(s: seq<Row>, a: nat, count: nat, k: nat, j: nat)
    requires a < |s| && j < |s| && j != a && Distance(a, j, |s|) <= k < |Window(s, a, count)|
    ensures s[j] in Window(s, a, count)[..k + 1]
  {
    var d := Distance(a, j, |s|);
    WindowPlace(s, a, count, d);
    assert Window(s, a, count)[..k + 1][d] == s[j];
  }

  /** Every row of w is met before all rows that do not stand up to it in w. */
  ghost predicate NearestFirst(sort: Sort, desc: bool, rows: seq<Row>, anchor: Row, w: seq<Row>) {
    forall k, q | 0 <= k < |w| && q in rows && q != anchor && q !in w[..k + 1] :: MetFirst(sort, desc, anchor, w[k], q)
  }

  ghost predicate NearestFirstBackwards(sort: Sort, desc: bool, rows: seq<Row>, anchor: Row, w: seq<Row>) {
    forall k, q | 0 <= k < |w| && q in rows && q != anchor && q !in w[..k + 1] ::
      MetFirstBackwards(sort, desc, anchor, w[k], q)
  }

  lemma NextIsMetFirst(sort: Sort, desc: bool, s: seq<Row>, a: nat, count: nat, k: nat, j: nat)
    requires InOrder(sort, desc, s) && a < |s| && j < |s| && j != a
    requires k < |Window(s, a, count)| && s[j] !in Window(s, a, count)[..k + 1]
    ensures MetFirst(sort, desc, s[a], Window(s, a, count)[k], s[j])
  {
    WindowPlace(s, a, count, k);
    if Distance(a, j, |s|) <= k { MetSoon(s, a, count, k, j); }
    MetByDistance(sort, desc, s, a, if a + 1 + k < |s| then a + 1 + k else a + 1 + k - |s|, j);
  }

  lemma PreviousIsMetFirst(sort: Sort, desc: bool, s: seq<Row>, a: nat, count: nat, k: nat, j: nat)
    requires InOrder(sort, desc, s) && a < |s| && j < |s| && j != a
    requires var w := Window(Reversed(s), |s| - 1 - a, count); k < |w| && s[j] !in w[..k + 1]
    ensures MetFirstBackwards(sort, desc, s[a], Window(Reversed(s), |s| - 1 - a, count)[k], s[j])
  {
    var b, n := |s| - 1 - a, |s|;
    var i := if b + 1 + k < n then b + 1 + k else b + 1 + k - n;
    PreviousPlace(s, a, count, k, j);
    MetBackwardsByDistance(sort, desc, s, a, n - 1 - i, j);
  }

  lemma PreviousPlace(s: seq<Row>, a: nat, count: nat, k: nat, j: nat)
    requires a < |s| && j < |s| && j != a
    requires var w := Window(Reversed(s), |s| - 1 - a, count); k < |w| && s[j] !in w[..k + 1]
    ensures var b, n := |s| - 1 - a, |s|; var i := if b + 1 + k < n then b + 1 + k else b + 1 + k - n;
      && k < Distance(b, n - 1 - j, n) && 0 <= i < n
      && Window(Reversed(s), b, count)[k] == s[n - 1 - i]
  {
    var t, b, n := Reversed(s), |s| - 1 - a, |s|;
    WindowPlace(t, b, count, k);
    if Distance(b, n - 1 - j, n) <= k { MetSoon(t, b, count, k, n - 1 - j); }
  }

  lemma WindowsAreNearest(sort: Sort, desc: bool, rows: seq<Row>, s: seq<Row>, a: nat, count: nat)
    requires InOrder(sort, desc, s) && a < |s| && forall q :: q in s <==> q in rows
    ensures NearestFirst(sort, desc, rows, s[a], Window(s, a, count))
    ensures NearestFirstBackwards(sort, desc, rows, s[a], Window(Reversed(s), |s| - 1 - a, count))
  {
    var w, v := Window(s, a, count), Window(Reversed(s), |s| - 1 - a, count);
    forall k, q | 0 <= k < |w| && q in rows && q != s[a] && q !in w[..k + 1]
      ensures MetFirst(sort, desc, s[a], w[k], q) {
      var j :| 0 <= j < |s| && s[j] == q;
      NextIsMetFirst(sort, desc, s, a, count, k, j);
    }
    forall k, q | 0 <= k < |v| && q in rows && q != s[a] && q !in v[..k + 1]
      ensures MetFirstBackwards(sort, desc, s[a], v[k], q) {
      var j :| 0 <= j < |s| && s[j] == q;
      PreviousIsMetFirst(sort, desc, s, a, count, k, j);
    }
  }

  /** The neighbours of a file, in the columns of the rows: as many as asked for or as there are, the nearest first in
      either direction, going round at the ends. */
  method NeighboursInOrder(goLower: string -> string, locations: seq<Row>, rows: seq<Row>, sort: Sort, desc: bool,
      anchor: Row, count: int) returns (r: Neighbours)
    requires DistinctIds(locations) && DistinctIds(rows) && anchor in rows && 1 <= count <= 20
    requires Fixed(goLower, sort, anchor) && forall q | q in rows :: q in locations
    ensures r.Neighbours? && |r.after| == |r.before| == Paging.Min(count, |rows| - 1)
    ensures NearestFirst(sort, desc, rows, anchor, r.after)
    ensures NearestFirstBackwards(sort, desc, rows, anchor, r.before)
    ensures forall q | q in r.after || q in r.before :: q in rows && q != anchor
  {
    forall q | q in rows && q.id == anchor.id ensures q == anchor { SameId(rows, q, anchor); }
    r := Around(goLower, locations, rows, sort, desc, anchor.id, count);
    AroundIsNearest(rows, sort, desc, anchor, count, r);
  }

  lemma AroundIsNearest(rows: seq<Row>, sort: Sort, desc: bool, anchor: Row, count: nat, r: Neighbours)
    requires DistinctIds(rows) && anchor in rows && r.Neighbours?
    requires exists a: nat | a < |Listing(rows, sort, desc)| ::
      && Listing(rows, sort, desc)[a].id == anchor.id
      && r.after == Window(Listing(rows, sort, desc), a, count)
      && r.before == Window(Reversed(Listing(rows, sort, desc)), |Listing(rows, sort, desc)| - 1 - a, count)
    ensures |r.after| == |r.before| == Paging.Min(count, |rows| - 1)
    ensures NearestFirst(sort, desc, rows, anchor, r.after)
    ensures NearestFirstBackwards(sort, desc, rows, anchor, r.before)
    ensures forall q | q in r.after || q in r.before :: q in rows && q != anchor
  {
    var s := Listing(rows, sort, desc);
    ListingFacts(rows, sort, desc);
    ListingIsOrdered(rows, sort, desc);
    var a: nat :| a < |s| && s[a].id == anchor.id && r.after == Window(s, a, count)
      && r.before == Window(Reversed(s), |s| - 1 - a, count);
    SameId(rows, s[a], anchor);
    Sizes(s, a, count);
    WindowsAreNearest(sort, desc, rows, s, a, count);
    WindowOmitsAnchor(s, a, count);
    ReversedIds(s);
    WindowOmitsAnchor(Reversed(s), |s| - 1 - a, count);
    ReversedElements(s);
  }

  lemma ReversedIds(s: seq<Row>)
    requires DistinctIds(s)
    ensures DistinctIds(Reversed(s))
  {
  }

  lemma SameId(rows: seq<Row>, p: Row, q: Row)
    requires DistinctIds(rows) && p in rows && q in rows && p.id == q.id
    ensures p == q
  {
    var i :| 0 <= i < |rows| && rows[i] == p;
    var j :| 0 <= j < |rows| && rows[j] == q;
  }

  lemma Sizes(s: seq<Row>, a: nat, count: nat)
    requires a < |s|
    ensures |Window(s, a, count)| == |Window(Reversed(s), |s| - 1 - a, count)| == Paging.Min(count, |s| - 1)
  {
  }

  lemma WindowOmitsAnchor(s: seq<Row>, a: nat, count: nat)
    requires DistinctIds(s) && a < |s|
    ensures forall q | q in Window(s, a, count) :: q in s && q != s[a]
  {
    forall q | q in Window(s, a, count) ensures q in s && q != s[a] {
      var k :| 0 <= k < |Window(s, a, count)| && Window(s, a, count)[k] == q;
      WindowPlace(s, a, count, k);
    }
  }
}
