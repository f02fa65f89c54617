/** Listing files page by page from the last row seen, and looking up the neighbours of one file: both work with
    cursor predicates that must agree with the sorted listing. */
module Paging {
  import opened Basics

  datatype Row = Row(id: int, added: int, addedOrder: int, modified: int, size: int, path: string, kind: string)

  datatype Sort = Added | Modified | Name | Size | Kind

  // ---------------------------------------------------------------- the clauses

  datatype Key = Number(n: int) | Text(s: string)

  predicate KeyLess(a: Key, b: Key) {
    match (a, b)
    case (Number(m), Number(n)) => m < n
    case (Text(s), Text(t)) => StrLess(s, t)
    case (Number(_), Text(_)) => true
    case (Text(_), Number(_)) => false
  }

  /** a comes before b in the given direction. */
  predicate Ahead(desc: bool, a: Key, b: Key) { if desc then KeyLess(b, a) else KeyLess(a, b) }

  /** The sort expression; for `added` the first of its two keys. */
  function Primary(sort: Sort, r: Row): Key {
    match sort
    case Added => Number(r.added)
    case Modified => Number(r.modified)
    case Name => Text(Fold(r.path))
    case Size => Number(r.size)
    case Kind => Text(Fold(r.kind))
  }

  function Secondary(sort: Sort, r: Row): Key { if sort.Added? then Number(r.addedOrder) else Number(0) }

  /** fileSortClause: the keys in the given direction, then the id upwards. */
  predicate Listed(sort: Sort, desc: bool, a: Row, b: Row) {
    || Ahead(desc, Primary(sort, a), Primary(sort, b))
    || (Primary(sort, a) == Primary(sort, b) && Ahead(desc, Secondary(sort, a), Secondary(sort, b)))
    || (Primary(sort, a) == Primary(sort, b) && Secondary(sort, a) == Secondary(sort, b) && a.id < b.id)
  }

  /** reverseFileSortClause: every key turned round, and the id downwards. */
  predicate ListedBackwards(sort: Sort, desc: bool, a: Row, b: Row) {
    || Ahead(!desc, Primary(sort, a), Primary(sort, b))
    || (Primary(sort, a) == Primary(sort, b) && Ahead(!desc, Secondary(sort, a), Secondary(sort, b)))
    || (Primary(sort, a) == Primary(sort, b) && Secondary(sort, a) == Secondary(sort, b) && a.id > b.id)
  }

  /** The bound values of a cursor clause. Textual keys pass through Go's ToLower (`goLower`) on the way. */
  datatype Cursor = Cursor(primary: Key, secondary: Key, id: int)

  function CursorOf(goLower: string -> string, sort: Sort, r: Row): Cursor {
    var key := Primary(sort, r);
    Cursor(if key.Text? then Text(goLower(key.s)) else key, Secondary(sort, r), r.id)
  }

  datatype Clause = Everything | Beyond(cursor: Cursor) | Preceding(cursor: Cursor)

  /** fileCursorClause and fileReverseCursorClause. */
  predicate Passes(sort: Sort, desc: bool, clause: Clause, r: Row) {
    match clause
    case Everything => true
    case Beyond(c) =>
      || (if desc then KeyLess(Primary(sort, r), c.primary) else KeyLess(c.primary, Primary(sort, r)))
      || (Primary(sort, r) == c.primary
        && if desc then KeyLess(Secondary(sort, r), c.secondary) else KeyLess(c.secondary, Secondary(sort, r)))
      || (Primary(sort, r) == c.primary && Secondary(sort, r) == c.secondary && r.id > c.id)
    case Preceding(c) =>
      || (if desc then KeyLess(c.primary, Primary(sort, r)) else KeyLess(Primary(sort, r), c.primary))
      || (Primary(sort, r) == c.primary
        && if desc then KeyLess(c.secondary, Secondary(sort, r)) else KeyLess(Secondary(sort, r), c.secondary))
      || (Primary(sort, r) == c.primary && Secondary(sort, r) == c.secondary && r.id < c.id)
  }

  /** ORDER BY, in either direction of the listing. */
  predicate Before(sort: Sort, desc: bool, backwards: bool, a: Row, b: Row) {
    if backwards then ListedBackwards(sort, desc, a, b) else Listed(sort, desc, a, b)
  }

  // ---------------------------------------------------------------- queries

  function Insert(sort: Sort, desc: bool, backwards: bool, r: Row, s: seq<Row>): seq<Row> {
    if s == [] then [r]
    else if Before(sort, desc, backwards, r, s[0]) then [r] + s
    else [s[0]] + Insert(sort, desc, backwards, r, s[1..])
  }

  function OrderBy(sort: Sort, desc: bool, backwards: bool, s: seq<Row>): seq<Row> {
    if s == [] then [] else Insert(sort, desc, backwards, s[0], OrderBy(sort, desc, backwards, s[1..]))
  }

  function Where(sort: Sort, desc: bool, clause: Clause, s: seq<Row>): seq<Row> {
    if s == [] then []
    else (if Passes(sort, desc, clause, s[0]) then [s[0]] else []) + Where(sort, desc, clause, s[1..])
  }

  function Min(a: nat, b: nat): nat { if a < b then a else b }

  function Limit(s: seq<Row>, n: nat): seq<Row> { s[..Min(n, |s|)] }

  function Lookup(rows: seq<Row>, sort: Sort, desc: bool, clause: Clause, backwards: bool, limit: nat): seq<Row> {
    Limit(OrderBy(sort, desc, backwards, Where(sort, desc, clause, rows)), limit)
  }

  /** The whole listing. */
  function Listing(rows: seq<Row>, sort: Sort, desc: bool): seq<Row> { OrderBy(sort, desc, false, rows) }

  predicate DistinctIds(s: seq<Row>) { forall i, j | 0 <= i < j < |s| :: s[i].id != s[j].id }

  predicate Sorted(sort: Sort, desc: bool, backwards: bool, s: seq<Row>) {
    forall i, j | 0 <= i < j < |s| :: Before(sort, desc, backwards, s[i], s[j])
  }

  // ---------------------------------------------------------------- the order

  lemma KeyOrder(a: Key, b: Key, c: Key)
    ensures !KeyLess(a, a) && (KeyLess(a, b) || a == b || KeyLess(b, a))
    ensures KeyLess(a, b) && KeyLess(b, c) ==> KeyLess(a, c)
    ensures !(KeyLess(a, b) && KeyLess(b, a))
  {
    if a.Text? { StrLessIrreflexive(a.s); }
    if a.Text? && b.Text? {
      StrLessTotal(a.s, b.s);
      if StrLess(a.s, b.s) && StrLess(b.s, a.s) { StrLessTransitive(a.s, b.s, a.s); }
      if c.Text? && StrLess(a.s, b.s) && StrLess(b.s, c.s) { StrLessTransitive(a.s, b.s, c.s); }
    }
  }

  lemma BeforeIsStrict(sort: Sort, desc: bool, backwards: bool, a: Row, b: Row)
    ensures !(Before(sort, desc, backwards, a, b) && Before(sort, desc, backwards, b, a))
    ensures a.id != b.id ==> Before(sort, desc, backwards, a, b) || Before(sort, desc, backwards, b, a)
  {
    KeyOrder(Primary(sort, a), Primary(sort, b), Primary(sort, a));
    KeyOrder(Secondary(sort, a), Secondary(sort, b), Secondary(sort, a));
  }

  lemma BeforeIsTransitive(sort: Sort, desc: bool, backwards: bool, a: Row, b: Row, c: Row)
    requires Before(sort, desc, backwards, a, b) && Before(sort, desc, backwards, b, c)
    ensures Before(sort, desc, backwards, a, c)
  {
    KeyOrder(Primary(sort, a), Primary(sort, b), Primary(sort, c));
    KeyOrder(Primary(sort, c), Primary(sort, b), Primary(sort, a));
    KeyOrder(Secondary(sort, a), Secondary(sort, b), Secondary(sort, c));
    KeyOrder(Secondary(sort, c), Secondary(sort, b), Secondary(sort, a));
  }

  /** The two sort clauses are exact opposites, and the cursor clauses select what is listed after and before. */
  lemma ClausesAgree(goLower: string -> string, sort: Sort, desc: bool, c: Row, r: Row)
    requires Fixed(goLower, sort, c)
    ensures ListedBackwards(sort, desc, c, r) <==> Listed(sort, desc, r, c)
    ensures Passes(sort, desc, Beyond(CursorOf(goLower, sort, c)), r) <==> Listed(sort, desc, c, r)
    ensures Passes(sort, desc, Preceding(CursorOf(goLower, sort, c)), r) <==> Listed(sort, desc, r, c)
  {
    OrdersAreOpposite(sort, desc, c, r);
    KeyOrder(Primary(sort, c), Primary(sort, r), Primary(sort, c));
    KeyOrder(Secondary(sort, c), Secondary(sort, r), Secondary(sort, c));
  }

  lemma OrdersAreOpposite(sort: Sort, desc: bool, c: Row, r: Row)
    ensures ListedBackwards(sort, desc, c, r) <==> Listed(sort, desc, r, c)
  {
  }

  /** Go's lower case leaves the key of this row as SQLite made it. */
  predicate Fixed(goLower: string -> string, sort: Sort, r: Row) {
    var key := Primary(sort, r);
    key.Text? ==> goLower(key.s) == key.s
  }

  predicate Ascii(s: string) { forall k | 0 <= k < |s| :: s[k] < 128 as char }

  /** So it is for every ASCII key, where the two lower cases are the same function. */
  lemma AsciiKeysAreFixed(goLower: string -> string, sort: Sort, r: Row)
    requires forall s | Ascii(s) :: goLower(s) == Fold(s)
    requires sort == Name ==> Ascii(r.path)
    requires sort == Kind ==> Ascii(r.kind)
    ensures Fixed(goLower, sort, r)
  {
    var key := Primary(sort, r);
    if key.Text? {
      assert Ascii(key.s) && Fold(key.s) == key.s;
    }
  }

  // ---------------------------------------------------------------- sorting

  lemma {:induction false} InsertSorts(sort: Sort, desc: bool, backwards: bool, r: Row, s: seq<Row>)
    requires Sorted(sort, desc, backwards, s) && forall q | q in s :: q.id != r.id
    ensures var t := Insert(sort, desc, backwards, r, s);
      Sorted(sort, desc, backwards, t) && (forall q :: q in t <==> q == r || q in s) && |t| == |s| + 1
    decreases |s|
  {
    if s != [] {
      BeforeIsStrict(sort, desc, backwards, r, s[0]);
      if Before(sort, desc, backwards, r, s[0]) {
        forall q | q in s ensures Before(sort, desc, backwards, r, q) {
          if q != s[0] { BeforeIsTransitive(sort, desc, backwards, r, s[0], q); }
        }
      } else {
        InsertSorts(sort, desc, backwards, r, s[1..]);
        assert s == [s[0]] + s[1..];
        var rest := Insert(sort, desc, backwards, r, s[1..]);
        assert forall q | q in rest :: Before(sort, desc, backwards, s[0], q);
      }
    }
  }

  lemma {:induction false} OrderBySorts(sort: Sort, desc: bool, backwards: bool, s: seq<Row>)
    requires DistinctIds(s)
    ensures var t := OrderBy(sort, desc, backwards, s);
      && Sorted(sort, desc, backwards, t)
      && (forall q :: q in t <==> q in s) && |t| == |s|
    decreases |s|
  {
    if s != [] {
      assert s == [s[0]] + s[1..];
      OrderBySorts(sort, desc, backwards, s[1..]);
      InsertSorts(sort, desc, backwards, s[0], OrderBy(sort, desc, backwards, s[1..]));
    }
  }

  /** There is only one way to sort. */
  lemma {:induction false} SortedIsUnique(sort: Sort, desc: bool, backwards: bool, s: seq<Row>, t: seq<Row>)
    requires Sorted(sort, desc, backwards, s) && Sorted(sort, desc, backwards, t) && forall q :: q in s <==> q in t
    ensures s == t
    decreases |s|
  {
    assert s != [] ==> s[0] in t;
    assert t != [] ==> t[0] in s;
    if s != [] {
      assert s[0] in t && t[0] in s;
      BeforeIsStrict(sort, desc, backwards, s[0], t[0]);
      SortedTail(sort, desc, backwards, s);
      SortedTail(sort, desc, backwards, t);
      SortedIsUnique(sort, desc, backwards, s[1..], t[1..]);
      assert s == [s[0]] + s[1..] && t == [t[0]] + t[1..];
    }
  }

  lemma SortedTail(sort: Sort, desc: bool, backwards: bool, s: seq<Row>)
    requires Sorted(sort, desc, backwards, s) && s != []
    ensures Sorted(sort, desc, backwards, s[1..]) && forall q :: q in s[1..] <==> q in s && q != s[0]
  {
    assert s == [s[0]] + s[1..];
    forall q | q in s[1..] ensures q != s[0] { BeforeIsStrict(sort, desc, backwards, s[0], q); }
  }

  lemma {:induction false} WhereSelects(sort: Sort, desc: bool, clause: Clause, s: seq<Row>)
    requires DistinctIds(s)
    ensures var t := Where(sort, desc, clause, s);
      && DistinctIds(t)
      && forall q :: q in t <==> q in s && Passes(sort, desc, clause, q)
    decreases |s|
  {
    if s != [] {
      assert s == [s[0]] + s[1..];
      WhereSelects(sort, desc, clause, s[1..]);
      var rest := Where(sort, desc, clause, s[1..]);
      forall i | 0 <= i < |rest| ensures rest[i].id != s[0].id {
        assert rest[i] in rest && rest[i] in s[1..];
        var k :| 0 <= k < |s[1..]| && s[1..][k] == rest[i];
        assert s[k + 1] == rest[i];
      }
    }
  }

  lemma ListingFacts(rows: seq<Row>, sort: Sort, desc: bool)
    requires DistinctIds(rows)
    ensures var s := Listing(rows, sort, desc);
      Sorted(sort, desc, false, s) && DistinctIds(s) && |s| == |rows| && forall q :: q in s <==> q in rows
  {
    OrderBySorts(sort, desc, false, rows);
    var s := Listing(rows, sort, desc);
    forall i, j | 0 <= i < j < |s| ensures s[i].id != s[j].id {
      assert s[i] in rows && s[j] in rows;
      BeforeIsStrict(sort, desc, false, s[i], s[j]);
    }
  }

  lemma ListedSplits(rows: seq<Row>, sort: Sort, desc: bool, i: nat, q: Row)
    requires DistinctIds(rows) && i < |rows|
    ensures var s := Listing(rows, sort, desc);
      && |s| == |rows|
      && (q in s[i + 1..] <==> q in rows && Listed(sort, desc, s[i], q))
      && (q in s[..i] <==> q in rows && Listed(sort, desc, q, s[i]))
  {
    ListingFacts(rows, sort, desc);
    var s := Listing(rows, sort, desc);
    BeforeIsStrict(sort, desc, false, s[i], q);
    assert s == s[..i] + [s[i]] + s[i + 1..];
  }

  /** The row is listed after c, but not after the point that c's cursor names when its key is this one. */
  predicate InGap(sort: Sort, desc: bool, c: Row, key: Key, q: Row) {
    Listed(sort, desc, c, q) && (Ahead(desc, Primary(sort, q), key) || (Primary(sort, q) == key && q.id <= c.id))
  }

  /** Go's lower case leaves the key of c, or moves it onwards past no row. */
  predicate Reliable(goLower: string -> string, rows: seq<Row>, sort: Sort, desc: bool, c: Row) {
    var key := CursorOf(goLower, sort, c).primary;
    Fixed(goLower, sort, c)
    || (Ahead(desc, Primary(sort, c), key) && forall k | 0 <= k < |rows| :: !InGap(sort, desc, c, key, rows[k]))
  }

  /** What a changed key selects: less than what follows c, or, when it moved backwards, c itself again. */
  lemma ChangedKeySelects(goLower: string -> string, sort: Sort, desc: bool, c: Row, q: Row)
    requires !Fixed(goLower, sort, c)
    ensures var cursor := CursorOf(goLower, sort, c);
      if Ahead(desc, Primary(sort, c), cursor.primary)
      then Passes(sort, desc, Beyond(cursor), q)
        <==> Listed(sort, desc, c, q) && !InGap(sort, desc, c, cursor.primary, q)
      else Passes(sort, desc, Beyond(cursor), c)
  {
    var cursor := CursorOf(goLower, sort, c);
    KeyOrder(Primary(sort, c), cursor.primary, Primary(sort, q));
    KeyOrder(Primary(sort, q), cursor.primary, Primary(sort, c));
    KeyOrder(Primary(sort, q), Primary(sort, c), cursor.primary);
    KeyOrder(cursor.primary, Primary(sort, q), Primary(sort, c));
    KeyOrder(Secondary(sort, c), Secondary(sort, q), Secondary(sort, c));
  }

  /** What the cursor of a listed row selects is the rest of the listing, exactly when its key is reliable. */
  lemma BeyondIsSuffixIff(goLower: string -> string, rows: seq<Row>, sort: Sort, desc: bool, i: nat)
    requires DistinctIds(rows) && i < |rows|
    ensures |Listing(rows, sort, desc)| == |rows|
    ensures var s := Listing(rows, sort, desc);
      OrderBy(sort, desc, false, Where(sort, desc, Beyond(CursorOf(goLower, sort, s[i])), rows)) == s[i + 1..]
      <==> Reliable(goLower, rows, sort, desc, s[i])
  {
    ListingFacts(rows, sort, desc);
    var s := Listing(rows, sort, desc);
    var clause := Beyond(CursorOf(goLower, sort, s[i]));
    var selected := OrderBy(sort, desc, false, Where(sort, desc, clause, rows));
    WhereSelects(sort, desc, clause, rows);
    OrderBySorts(sort, desc, false, Where(sort, desc, clause, rows));
    if Reliable(goLower, rows, sort, desc, s[i]) {
      forall q ensures q in s[i + 1..] <==> q in selected { ReliableSelects(goLower, rows, sort, desc, i, q); }
      SortedIsUnique(sort, desc, false, s[i + 1..], selected);
    } else {
      var q := UnreliableWitness(goLower, rows, sort, desc, i);
      assert q in selected <==> !(q in s[i + 1..]);
    }
  }

  lemma ReliableSelects(goLower: string -> string, rows: seq<Row>, sort: Sort, desc: bool, i: nat, q: Row)
    requires DistinctIds(rows) && i < |rows| == |Listing(rows, sort, desc)|
    requires Reliable(goLower, rows, sort, desc, Listing(rows, sort, desc)[i])
    ensures var s := Listing(rows, sort, desc);
      q in s[i + 1..] <==> q in rows && Passes(sort, desc, Beyond(CursorOf(goLower, sort, s[i])), q)
  {
    var c := Listing(rows, sort, desc)[i];
    ListedSplits(rows, sort, desc, i, q);
    if Fixed(goLower, sort, c) { ClausesAgree(goLower, sort, desc, c, q); }
    else { ChangedKeySelects(goLower, sort, desc, c, q); }
  }

  /** A row that the cursor of an unreliable row selects wrongly. */
  lemma UnreliableWitness(goLower: string -> string, rows: seq<Row>, sort: Sort, desc: bool, i: nat) returns (q: Row)
    requires DistinctIds(rows) && i < |rows| == |Listing(rows, sort, desc)|
    requires !Reliable(goLower, rows, sort, desc, Listing(rows, sort, desc)[i])
    ensures var s := Listing(rows, sort, desc);
      && q in rows && (q in s[i + 1..] <==> !Passes(sort, desc, Beyond(CursorOf(goLower, sort, s[i])), q))
  {
    ListingFacts(rows, sort, desc);
    var c := Listing(rows, sort, desc)[i];
    var key := CursorOf(goLower, sort, c).primary;
    if Ahead(desc, Primary(sort, c), key) {
      var k :| 0 <= k < |rows| && InGap(sort, desc, c, key, rows[k]);
      q := rows[k];
    } else {
      q := c;
      BeforeIsStrict(sort, desc, false, c, c);
    }
    ChangedKeySelects(goLower, sort, desc, c, q);
    ListedSplits(rows, sort, desc, i, q);
  }

  lemma BeyondIsSuffix(goLower: string -> string, rows: seq<Row>, sort: Sort, desc: bool, i: nat)
    requires DistinctIds(rows) && i < |Listing(rows, sort, desc)| && Fixed(goLower, sort, Listing(rows, sort, desc)[i])
    ensures var s := Listing(rows, sort, desc);
      OrderBy(sort, desc, false, Where(sort, desc, Beyond(CursorOf(goLower, sort, s[i])), rows)) == s[i + 1..]
  {
    ListingFacts(rows, sort, desc);
    BeyondIsSuffixIff(goLower, rows, sort, desc, i);
  }

  function Reversed(s: seq<Row>): (t: seq<Row>)
    ensures |t| == |s| && forall i | 0 <= i < |s| :: t[i] == s[|s| - 1 - i]
  {
    seq(|s|, i requires 0 <= i < |s| => s[|s| - 1 - i])
  }

  lemma ReversedElements(s: seq<Row>)
    ensures forall q :: q in Reversed(s) <==> q in s
  {
    forall i | 0 <= i < |s| ensures s[i] in Reversed(s) { assert Reversed(s)[|s| - 1 - i] == s[i]; }
  }

  lemma ReversedSorts(sort: Sort, desc: bool, s: seq<Row>)
    requires Sorted(sort, desc, false, s)
    ensures Sorted(sort, desc, true, Reversed(s))
  {
    var t := Reversed(s);
    forall i, j | 0 <= i < j < |t| ensures Before(sort, desc, true, t[i], t[j]) {
      OrdersAreOpposite(sort, desc, s[|s| - 1 - i], s[|s| - 1 - j]);
    }
  }

  /** And the reverse cursor with the reverse order gives what comes before it, nearest first. */
  lemma PrecedingIsReversedPrefix(goLower: string -> string, rows: seq<Row>, sort: Sort, desc: bool, i: nat)
    requires DistinctIds(rows) && i < |Listing(rows, sort, desc)| && Fixed(goLower, sort, Listing(rows, sort, desc)[i])
    ensures var s := Listing(rows, sort, desc);
      OrderBy(sort, desc, true, Where(sort, desc, Preceding(CursorOf(goLower, sort, s[i])), rows)) == Reversed(s[..i])
  {
    ListingFacts(rows, sort, desc);
    var s := Listing(rows, sort, desc);
    var clause := Preceding(CursorOf(goLower, sort, s[i]));
    WhereSelects(sort, desc, clause, rows);
    OrderBySorts(sort, desc, true, Where(sort, desc, clause, rows));
    ReversedSorts(sort, desc, s[..i]);
    ReversedElements(s[..i]);
    forall q ensures q in s[..i] <==> q in Where(sort, desc, clause, rows) {
      ListedSplits(rows, sort, desc, i, q);
      ClausesAgree(goLower, sort, desc, s[i], q);
    }
    SortedIsUnique(sort, desc, true, Reversed(s[..i]), OrderBy(sort, desc, true, Where(sort, desc, clause, rows)));
  }

  lemma BackwardsIsReversed(rows: seq<Row>, sort: Sort, desc: bool)
    requires DistinctIds(rows)
    ensures OrderBy(sort, desc, true, rows) == Reversed(Listing(rows, sort, desc))
  {
    ListingFacts(rows, sort, desc);
    var s := Listing(rows, sort, desc);
    OrderBySorts(sort, desc, true, rows);
    ReversedSorts(sort, desc, s);
    ReversedElements(s);
    SortedIsUnique(sort, desc, true, Reversed(s), OrderBy(sort, desc, true, rows));
  }

  lemma {:induction false} EverythingPasses(sort: Sort, desc: bool, rows: seq<Row>)
    ensures Where(sort, desc, Everything, rows) == rows
    decreases |rows|
  {
    if rows != [] {
      EverythingPasses(sort, desc, rows[1..]);
      assert rows == [rows[0]] + rows[1..];
    }
  }

  // ---------------------------------------------------------------- pages

  function FindRow(locations: seq<Row>, id: int): (r: Option<Row>)
    ensures r.Some? ==> r.value in locations && r.value.id == id
    ensures r.None? ==> forall q | q in locations :: q.id != id
  {
    if locations == [] then None
    else if locations[0].id == id then Some(locations[0])
    else FindRow(locations[1..], id)
  }

  lemma FindsIt(locations: seq<Row>, r: Row)
    requires DistinctIds(locations) && r in locations
    ensures FindRow(locations, r.id) == Some(r)
  {
    var found := FindRow(locations, r.id).value;
    var i :| 0 <= i < |locations| && locations[i] == r;
    var j :| 0 <= j < |locations| && locations[j] == found;
  }

  /** One page of the selected rows: from the start, or beyond the location the cursor names, which is looked up
      among all locations. None: it is not there. */
  function Page(goLower: string -> string, locations: seq<Row>, rows: seq<Row>, sort: Sort, desc: bool,
      cursor: Option<int>, limit: nat): Option<seq<Row>> {
    match cursor
    case None => Some(Lookup(rows, sort, desc, Everything, false, limit))
    case Some(id) =>
      match FindRow(locations, id)
      case None => None
      case Some(c) => Some(Lookup(rows, sort, desc, Beyond(CursorOf(goLower, sort, c)), false, limit))
  }

  function LastId(got: seq<Row>): Option<int> { if got == [] then None else Some(got[|got| - 1].id) }

  /** What a client has after fetching n pages, each from the last row of the one before. */
  function Pages(page: Option<int> -> Option<seq<Row>>, n: nat): Option<seq<Row>> {
    if n == 0 then Some([])
    else match Pages(page, n - 1)
      case None => None
      case Some(got) =>
        match page(LastId(got))
        case None => None
        case Some(more) => Some(got + more)
  }

  /** How far n pages reach in a listing of `total` rows. */
  function Reach(total: nat, limit: nat, n: nat): (k: nat)
    ensures k <= total && (limit > 0 ==> k >= Min(n, total))
  {
    if n == 0 then 0 else Min(Reach(total, limit, n - 1) + limit, total)
  }

  /** Where every cursor is reliable paging has no gap and no repeat: n pages are the first rows of the sorted listing,
      and enough pages are all
      of it. */
  lemma PagesConcatenateToListing(goLower: string -> string, locations: seq<Row>, rows: seq<Row>, sort: Sort,
      desc: bool, limit: nat, n: nat)
    requires DistinctIds(locations) && DistinctIds(rows) && limit > 0
    requires forall r | r in rows :: r in locations && Reliable(goLower, rows, sort, desc, r)
    ensures |Listing(rows, sort, desc)| == |rows|
    ensures Pages(cursor => Page(goLower, locations, rows, sort, desc, cursor, limit), n)
      == Some(Listing(rows, sort, desc)[..Reach(|rows|, limit, n)])
    ensures n >= |rows| ==>
      Pages(cursor => Page(goLower, locations, rows, sort, desc, cursor, limit), n) == Some(Listing(rows, sort, desc))
  {
    var page := cursor => Page(goLower, locations, rows, sort, desc, cursor, limit);
    var s := Listing(rows, sort, desc);
    ListingFacts(rows, sort, desc);
    forall k: nat | k <= |s| ensures Serves(page, limit, s, k) {
      NextPage(goLower, locations, rows, sort, desc, limit, k);
    }
    PagesFollow(page, limit, n, s);
    AllOf(s);
  }

  lemma AllOf(s: seq<Row>)
    ensures s[..|s|] == s
  {
  }

  /** After the first k rows comes the page that continues them. */
  ghost predicate Serves(page: Option<int> -> Option<seq<Row>>, limit: nat, s: seq<Row>, k: nat)
    requires k <= |s|
  {
    page(LastId(s[..k])) == Some(s[k..Min(k + limit, |s|)])
  }

  lemma {:induction false} PagesFollow(page: Option<int> -> Option<seq<Row>>, limit: nat, n: nat, s: seq<Row>)
    requires forall k: nat | k <= |s| :: Serves(page, limit, s, k)
    ensures Pages(page, n) == Some(s[..Reach(|s|, limit, n)])
  {
    if n > 0 {
      PagesFollow(page, limit, n - 1, s);
      var k := Reach(|s|, limit, n - 1);
      assert Serves(page, limit, s, k);
      Joined(s, k, Min(k + limit, |s|));
    }
  }

  lemma Joined(s: seq<Row>, k: nat, m: nat)
    requires k <= m <= |s|
    ensures s[..k] + s[k..m] == s[..m]
  {
  }

  lemma NextPage(goLower: string -> string, locations: seq<Row>, rows: seq<Row>, sort: Sort, desc: bool, limit: nat,
      k: nat)
    requires DistinctIds(locations) && DistinctIds(rows) && limit > 0 && k <= |rows|
    requires forall r | r in rows :: r in locations && Reliable(goLower, rows, sort, desc, r)
    ensures |Listing(rows, sort, desc)| == |rows|
    ensures var s := Listing(rows, sort, desc);
      Page(goLower, locations, rows, sort, desc, LastId(s[..k]), limit) == Some(s[k..Min(k + limit, |rows|)])
  {
    ListingFacts(rows, sort, desc);
    var s := Listing(rows, sort, desc);
    if k == 0 {
      EverythingPasses(sort, desc, rows);
    } else {
      PageAfter(goLower, locations, rows, sort, desc, limit, k);
    }
    LimitOf(s, limit, k);
  }

  lemma LimitOf(s: seq<Row>, limit: nat, k: nat)
    requires k <= |s|
    ensures Limit(s[k..], limit) == s[k..Min(k + limit, |s|)]
  {
  }

  lemma PageAfter(goLower: string -> string, locations: seq<Row>, rows: seq<Row>, sort: Sort, desc: bool, limit: nat,
      k: nat)
    requires DistinctIds(locations) && DistinctIds(rows) && 0 < k <= |rows| == |Listing(rows, sort, desc)|
    requires var c := Listing(rows, sort, desc)[k - 1]; c in locations && Reliable(goLower, rows, sort, desc, c)
    ensures var s := Listing(rows, sort, desc);
      Page(goLower, locations, rows, sort, desc, LastId(s[..k]), limit) == Some(Limit(s[k..], limit))
  {
    FindsIt(locations, Listing(rows, sort, desc)[k - 1]);
    BeyondIsSuffixIff(goLower, rows, sort, desc, k - 1);
  }

  /** The page after a row is right for every page size exactly when its cursor is reliable. */
  lemma PageIsRightIff(goLower: string -> string, locations: seq<Row>, rows: seq<Row>, sort: Sort, desc: bool, i: nat)
    requires DistinctIds(locations) && DistinctIds(rows) && i < |rows| && forall r | r in rows :: r in locations
    ensures |Listing(rows, sort, desc)| == |rows|
    ensures var s := Listing(rows, sort, desc);
      (forall limit: nat :: Page(goLower, locations, rows, sort, desc, Some(s[i].id), limit)
        == Some(Limit(s[i + 1..], limit)))
      <==> Reliable(goLower, rows, sort, desc, s[i])
  {
    ListingFacts(rows, sort, desc);
    var s := Listing(rows, sort, desc);
    FindsIt(locations, s[i]);
    BeyondIsSuffixIff(goLower, rows, sort, desc, i);
    var selected := OrderBy(sort, desc, false, Where(sort, desc, Beyond(CursorOf(goLower, sort, s[i])), rows));
    var all := |selected| + |rows|;
    assert Limit(selected, all) == selected && Limit(s[i + 1..], all) == s[i + 1..];
    assert Page(goLower, locations, rows, sort, desc, Some(s[i].id), all) == Some(selected);
  }

  lemma {:induction false} NothingMore(page: Option<int> -> Option<seq<Row>>, first: seq<Row>, n: nat)
    requires page(None) == Some(first) && first != [] && page(Some(first[|first| - 1].id)) == Some([]) && n > 0
    ensures Pages(page, n) == Some(first)
  {
    var none: seq<Row> := [];
    assert none + first == first && first + none == first;
    if n == 1 {
      assert Pages(page, 0) == Some(none) && page(LastId(none)) == Some(first);
    } else {
      NothingMore(page, first, n - 1);
      assert page(LastId(first)) == Some(none);
    }
  }

  /** Two files named with a capital E acute and a capital U diaeresis, which SQLite leaves alone: Go's lower case moves
      the first key past the second, so the page after the first file is empty, and one by one the second file is
      never shown. */
  lemma NonAsciiRowIsSkipped(goLower: string -> string, a: Row, b: Row, limit: nat, n: nat)
    requires a.id != b.id && |a.path| == 1 && a.path[0] == '\U{C9}' && |b.path| == 1 && b.path[0] == '\U{DC}'
    requires |goLower(a.path)| == 1 && goLower(a.path)[0] == '\U{E9}' && limit > 0 && n > 0
    ensures Listing([a, b], Name, false) == [a, b]
    ensures Page(goLower, [a, b], [a, b], Name, false, Some(a.id), limit) == Some([])
    ensures limit == 1 ==>
      Pages(cursor => Page(goLower, [a, b], [a, b], Name, false, cursor, limit), n) == Some([a])
  {
    assert Fold(a.path) == a.path && Fold(b.path) == b.path;
    var c := CursorOf(goLower, Name, a);
    assert Listed(Name, false, a, b) && !Listed(Name, false, b, a);
    assert OrderBy(Name, false, false, [b]) == [b] && [a, b][1..] == [b];
    assert !Passes(Name, false, Beyond(c), a) && !Passes(Name, false, Beyond(c), b);
    assert Where(Name, false, Beyond(c), [b]) == [];
    if limit == 1 {
      EverythingPasses(Name, false, [a, b]);
      var page := cursor => Page(goLower, [a, b], [a, b], Name, false, cursor, limit);
      assert page(None) == Some([a]) && page(Some(a.id)) == Some([]);
      NothingMore(page, [a], n);
    }
  }

  /** A textual key that Go's lower case changes breaks paging: after the first of two rows with that key the next
      page is never the second. So paging is right for all listings exactly when every key is fixed. */
  lemma ChangedKeyBreaksPaging(goLower: string -> string, sort: Sort, desc: bool, a: Row, b: Row, limit: nat)
    requires !Fixed(goLower, sort, a)
    requires Primary(sort, b) == Primary(sort, a) && Secondary(sort, b) == Secondary(sort, a)
    requires a.id < b.id && limit > 0
    ensures DistinctIds([a, b]) && Listing([a, b], sort, desc) == [a, b]
    ensures Page(goLower, [a, b], [a, b], sort, desc, Some(a.id), limit) != Some([b])
  {
    var c := CursorOf(goLower, sort, a);
    KeyOrder(c.primary, Primary(sort, a), c.primary);
    KeyOrder(Primary(sort, a), Primary(sort, b), Primary(sort, a));
    KeyOrder(Secondary(sort, a), Secondary(sort, b), Secondary(sort, a));
    assert OrderBy(sort, desc, false, [b]) == [b];
    assert [a, b][1..] == [b];
    assert Passes(sort, desc, Beyond(c), a) == Passes(sort, desc, Beyond(c), b);
    var selected := Where(sort, desc, Beyond(c), [a, b]);
    assert Where(sort, desc, Beyond(c), [b]) == if Passes(sort, desc, Beyond(c), b) then [b] else [];
    if Passes(sort, desc, Beyond(c), a) {
      assert selected == [a, b];
      assert OrderBy(sort, desc, false, [a, b]) == [a, b];
    }
  }

  /** A selection that holds a row twice is listed with the repetition, but a page that ends at the first copy cuts the
      second one off: all pages together show it when two rows fit on a page, and not when one does. */
  lemma RepeatedRowIsCut(goLower: string -> string, sort: Sort, desc: bool, r: Row, limit: nat)
    requires Fixed(goLower, sort, r) && 1 <= limit <= 2
    ensures Listing([r, r], sort, desc) == [r, r]
    ensures Pages(cursor => Page(goLower, [r], [r, r], sort, desc, cursor, limit), 2) == Some([r, r][..limit])
  {
    var page := cursor => Page(goLower, [r], [r, r], sort, desc, cursor, limit);
    RepeatedRow(goLower, sort, desc, r);
    assert page(None) == Some([r, r][..limit]) && page(Some(r.id)) == Some([]);
    NothingMore(page, [r, r][..limit], 2);
  }

  lemma RepeatedRow(goLower: string -> string, sort: Sort, desc: bool, r: Row)
    requires Fixed(goLower, sort, r)
    ensures var beyond := Beyond(CursorOf(goLower, sort, r));
      OrderBy(sort, desc, false, [r, r]) == Where(sort, desc, Everything, [r, r]) == [r, r]
      && Where(sort, desc, beyond, [r, r]) == [] && FindRow([r], r.id) == Some(r)
  {
    KeyOrder(Primary(sort, r), Primary(sort, r), Primary(sort, r));
    KeyOrder(Secondary(sort, r), Secondary(sort, r), Secondary(sort, r));
    EverythingPasses(sort, desc, [r, r]);
    var beyond := Beyond(CursorOf(goLower, sort, r));
    assert [r, r][1..] == [r] && [r][1..] == [];
    assert OrderBy(sort, desc, false, [r]) == [r] && Insert(sort, desc, false, r, [r]) == [r] + [r];
    assert !Passes(sort, desc, beyond, r) && Where(sort, desc, beyond, [r]) == [];
  }

  // ---------------------------------------------------------------- neighbours

  /** The rows after position a, going round, as many as the window holds, without a itself. */
  function Window(s: seq<Row>, a: nat, count: nat): seq<Row>
    requires a < |s|
  {
    Limit(s[a + 1..] + s[..a], count)
  }

  datatype Neighbours = Neighbours(before: seq<Row>, after: seq<Row>) | BadCount | NoSuchRow

  /** Fills a window from the opposite end of the listing, without the anchor and without repeats. */
  method Fill(found: seq<Row>, edge: seq<Row>, id: int, count: nat, ghost s: seq<Row>, ghost a: nat)
      returns (items: seq<Row>)
    requires DistinctIds(s) && a < |s| && s[a].id == id
    requires found == Limit(s[a + 1..], count) && edge == Limit(s, count + 1)
    ensures items == Window(s, a, count)
  {
    items := found;
    if |items| == count { return; }
    assert items == s[a + 1..];
    var seen := {id} + set r | r in items :: r.id;
    SeenAtFirst(s, a, seen);
    items := FillUp(items, edge, seen, count, s, a);
  }

  method FillUp(found: seq<Row>, edge: seq<Row>, ids: set<int>, count: nat, ghost s: seq<Row>, ghost a: nat)
      returns (items: seq<Row>)
    requires DistinctIds(s) && a < |s| && found == s[a + 1..] && |found| < count && edge == Limit(s, count + 1)
    requires forall k | 0 <= k < |s| :: s[k].id in ids <==> k >= a
    ensures items == Window(s, a, count)
  {
    items := found;
    var seen, j := ids, 0;
    while j < |edge|
      invariant j <= |edge| && |items| < count
      invariant items == s[a + 1..] + s[..Min(j, a)]
      invariant forall k | 0 <= k < |s| :: s[k].id in seen <==> k >= a || k < j
    {
      var r := edge[j];
      assert r == s[j];
      if r.id !in seen {
        assert s[a + 1..] + s[..j] + [r] == s[a + 1..] + s[..j + 1];
        items, seen := items + [r], seen + {r.id};
        if |items| == count {
          WindowCut(s, a, count, j + 1);
          return;
        }
      }
      j := j + 1;
    }
    assert s[..a] == s[..Min(|edge|, a)];
  }

  lemma WindowCut(s: seq<Row>, a: nat, count: nat, j: nat)
    requires a < |s| && j <= a && |s| - a - 1 + j == count
    ensures s[a + 1..] + s[..j] == Window(s, a, count)
  {
  }

  lemma SeenAtFirst(s: seq<Row>, a: nat, seen: set<int>)
    requires DistinctIds(s) && a < |s| && seen == {s[a].id} + set r | r in s[a + 1..] :: r.id
    ensures forall k | 0 <= k < |s| :: s[k].id in seen <==> k >= a
  {
    forall k | 0 <= k < |s| ensures s[k].id in seen <==> k >= a {
      if k > a { assert s[k] == s[a + 1..][k - a - 1]; }
      if s[k].id in seen && s[k].id != s[a].id {
        var r :| r in s[a + 1..] && r.id == s[k].id;
        var i :| 0 <= i < |s[a + 1..]| && s[a + 1..][i] == r;
        assert s[i + a + 1] == r;
      }
    }
  }

  /** GetFilesInfoByLocationQueryAround: both windows of the anchor in the listing, nearest first. */
  method Around(goLower: string -> string, locations: seq<Row>, rows: seq<Row>, sort: Sort, desc: bool, id: int,
      count: int) returns (r: Neighbours)
    requires DistinctIds(locations) && DistinctIds(rows)
    requires forall q | q in rows :: q in locations && (q.id == id ==> Fixed(goLower, sort, q))
    ensures r == BadCount <==> !(1 <= count <= 20)
    ensures r == NoSuchRow <==> 1 <= count <= 20 && forall q | q in rows :: q.id != id
    ensures r.Neighbours? ==> exists a: nat | a < |Listing(rows, sort, desc)| ::
      && Listing(rows, sort, desc)[a].id == id
      && r.after == Window(Listing(rows, sort, desc), a, count)
      && r.before == Window(Reversed(Listing(rows, sort, desc)), |Listing(rows, sort, desc)| - 1 - a, count)
  {
    if count < 1 || count > 20 { return BadCount; }
    var anchor := FindRow(rows, id);
    if anchor.None? { return NoSuchRow; }
    ghost var s := Listing(rows, sort, desc);
    ghost var a := Position(rows, sort, desc, anchor.value);
    FindsIt(locations, s[a]);
    r := AroundAnchor(goLower, rows, sort, desc, FindRow(locations, id).value, count, a);
  }

  /** The two windows of a row whose place in the listing is a. */
  method AroundAnchor(goLower: string -> string, rows: seq<Row>, sort: Sort, desc: bool, anchor: Row, count: nat,
      ghost a: nat) returns (r: Neighbours)
    requires DistinctIds(rows) && DistinctIds(Listing(rows, sort, desc)) && Fixed(goLower, sort, anchor)
    requires a < |Listing(rows, sort, desc)| && Listing(rows, sort, desc)[a] == anchor
    ensures var s := Listing(rows, sort, desc);
      r == Neighbours(Window(Reversed(s), |s| - 1 - a, count), Window(s, a, count))
  {
    ghost var s := Listing(rows, sort, desc);
    var id, cursor := anchor.id, CursorOf(goLower, sort, anchor);
    LookupsAround(goLower, rows, sort, desc, a, count);
    var after := Lookup(rows, sort, desc, Beyond(cursor), false, count);
    var before := Lookup(rows, sort, desc, Preceding(cursor), true, count);
    after := Fill(after, Lookup(rows, sort, desc, Everything, false, count + 1), id, count, s, a);
    before := Fill(before, Lookup(rows, sort, desc, Everything, true, count + 1), id, count, Reversed(s), |s| - 1 - a);
    r := Neighbours(before, after);
  }

  lemma Position(rows: seq<Row>, sort: Sort, desc: bool, r: Row) returns (a: nat)
    requires DistinctIds(rows) && r in rows
    ensures DistinctIds(Listing(rows, sort, desc)) && |Listing(rows, sort, desc)| == |rows|
    ensures a < |rows| && Listing(rows, sort, desc)[a] == r
    ensures forall q | q in Listing(rows, sort, desc) :: q in rows
  {
    ListingFacts(rows, sort, desc);
    a :| 0 <= a < |rows| && Listing(rows, sort, desc)[a] == r;
  }

  lemma LookupsAround(goLower: string -> string, rows: seq<Row>, sort: Sort, desc: bool, a: nat, count: nat)
    requires DistinctIds(rows) && a < |Listing(rows, sort, desc)| && Fixed(goLower, sort, Listing(rows, sort, desc)[a])
    ensures DistinctIds(Reversed(Listing(rows, sort, desc)))
    ensures var s := Listing(rows, sort, desc); var cursor := CursorOf(goLower, sort, s[a]);
      && Lookup(rows, sort, desc, Beyond(cursor), false, count) == Limit(s[a + 1..], count)
      && Lookup(rows, sort, desc, Preceding(cursor), true, count) == Limit(Reversed(s)[|s| - a..], count)
      && Lookup(rows, sort, desc, Everything, false, count + 1) == Limit(s, count + 1)
      && Lookup(rows, sort, desc, Everything, true, count + 1) == Limit(Reversed(s), count + 1)
  {
    ListingFacts(rows, sort, desc);
    var s := Listing(rows, sort, desc);
    BeyondIsSuffix(goLower, rows, sort, desc, a);
    PrecedingIsReversedPrefix(goLower, rows, sort, desc, a);
    BackwardsIsReversed(rows, sort, desc);
    EverythingPasses(sort, desc, rows);
    assert Reversed(s[..a]) == Reversed(s)[|s| - a..];
  }

  /** A position up to one turn away, brought back into the listing. */
  function Wrapped(i: int, n: nat): int { if i < 0 then i + n else if i >= n then i - n else i }

  /** Element by element: going round, the next rows and the previous rows, min(count, n - 1) of them. */
  lemma WindowsGoRound(s: seq<Row>, a: nat, count: nat, k: nat)
    requires a < |s|
    ensures |Window(s, a, count)| == Min(count, |s| - 1) == |Window(Reversed(s), |s| - 1 - a, count)|
    ensures k < Min(count, |s| - 1) ==>
      && Window(s, a, count)[k] == s[Wrapped(a + 1 + k, |s|)]
      && Window(Reversed(s), |s| - 1 - a, count)[k] == s[Wrapped(a - 1 - k, |s|)]
  {
  }
}
