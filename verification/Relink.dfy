/** Reconciling the library with the file system: planning moves, additions and deletions from a snapshot, and
    applying them to the locations table in one transaction. */
module Relink {
  import opened Basics

  /** Paths are compared only for identity and order: a path is its rank among all paths. */
  type Path = nat
  type Hash = nat

  datatype Row = Row(hash: Hash, size: nat, modTime: int)

  datatype Move = Move(source: Path, target: Path)

  datatype Proposal = Proposal(moves: seq<Move>, adds: seq<Path>, deletes: seq<Path>)

  /** `db`: the tracked locations in scope; `fs`: the scanned files; `known`: for the hash of every scanned file
      that the library knows, all its tracked paths; `missing`: known paths that are not on disk. */
  datatype Input = Input(db: map<Path, Row>, fs: map<Path, Row>, known: map<Hash, seq<Path>>, missing: set<Path>)

  /** Found where it is tracked, with the tracked content. */
  predicate Kept(x: Input, p: Path) { p in x.db && p in x.fs && x.db[p].hash == x.fs[p].hash }

  function Sources(moves: seq<Move>): set<Path> { set m | m in moves :: m.source }

  function Destinations(moves: seq<Move>): set<Path> { set m | m in moves :: m.target }

  /** Where the moves of in-scope locations lead. */
  function ScopeDestinations(x: Input, moves: seq<Move>): set<Path> {
    set m | m in moves && m.source in x.db :: m.target
  }

  lemma AppendMove(x: Input, moves: seq<Move>, m: Move)
    ensures Sources(moves + [m]) == Sources(moves) + {m.source}
    ensures Destinations(moves + [m]) == Destinations(moves) + {m.target}
    ensures ScopeDestinations(x, moves + [m])
      == ScopeDestinations(x, moves) + if m.source in x.db then {m.target} else {}
  {
    var more := moves + [m];
    assert m in more && forall n | n in moves :: n in more;
    assert forall n | n in more :: n in moves || n == m;
  }

  lemma AppendPath(s: seq<Path>, p: Path)
    ensures Elements(s + [p]) == Elements(s) + {p}
  {
    assert p in s + [p] && forall q | q in s :: q in s + [p];
  }

  function Elements(s: seq<Path>): set<Path> { set p | p in s }

  /** Everything a plan writes to. */
  function Targets(r: Proposal): set<Path> { Destinations(r.moves) + Elements(r.adds) }

  predicate Distinct<T(==)>(s: seq<T>) { forall i, j | 0 <= i < j < |s| :: s[i] != s[j] }

  predicate DistinctMoves(moves: seq<Move>) {
    forall i, j | 0 <= i < j < |moves| :: moves[i].source != moves[j].source && moves[i].target != moves[j].target
  }

  /** The plan for one tracked path in scope: exactly one of kept, moved and deleted. */
  ghost predicate PathPlanned(x: Input, r: Proposal, p: Path)
    requires p in x.db
  {
    var moved, deleted := p in Sources(r.moves), p in Elements(r.deletes);
    if Kept(x, p) then !moved && !deleted else moved != deleted
  }

  ghost predicate MovePlanned(x: Input, m: Move) {
    && m.target in x.fs && !Kept(x, m.target)
    && if m.source in x.db then m.source !in x.fs && x.db[m.source].hash == x.fs[m.target].hash
       else x.fs[m.target].hash in x.known && m.source in x.known[x.fs[m.target].hash] && m.source in x.missing
  }

  ghost predicate AddPlanned(x: Input, r: Proposal, p: Path) {
    && p in x.fs && !Kept(x, p) && x.fs[p].hash in x.known
    // no missing copy elsewhere is left to be moved here
    && forall q | q in x.known[x.fs[p].hash] :: q in x.db || q !in x.missing || q in Sources(r.moves)
  }

  /** A missing tracked file is given up only when no copy of it is left to be its new location. */
  ghost predicate DeletePlanned(x: Input, r: Proposal, d: Path) {
    && d in x.db
    && (d !in x.fs ==> forall p | p in x.fs && x.fs[p].hash == x.db[d].hash ::
      Kept(x, p) || p in ScopeDestinations(x, r.moves))
  }

  /** What a plan is. */
  ghost predicate Planned(x: Input, r: Proposal) {
    && DistinctMoves(r.moves) && Distinct(r.adds) && Distinct(r.deletes) && Destinations(r.moves) !! Elements(r.adds)
    && (forall p | p in x.db :: PathPlanned(x, r, p))
    && (forall m | m in r.moves :: MovePlanned(x, m))
    && (forall p | p in Elements(r.adds) :: AddPlanned(x, r, p))
    && (forall d | d in Elements(r.deletes) :: DeletePlanned(x, r, d))
    // nothing known is left out
    && (forall p | p in x.fs && x.fs[p].hash in x.known && !Kept(x, p) :: p in Targets(r))
  }

  // ---------------------------------------------------------------- sorting

  predicate Ascending(s: seq<Path>) { forall i, j | 0 <= i < j < |s| :: s[i] <= s[j] }

  /** sort.Strings */
  method Sort(s: seq<Path>) returns (r: seq<Path>)
    ensures Ascending(r) && |r| == |s| && (forall p :: p in r <==> p in s) && (Distinct(s) ==> Distinct(r))
  {
    r := [];
    var i := 0;
    while i < |s|
      invariant i <= |s| == |r| + |s| - i && Ascending(r) && (forall p :: p in r <==> p in s[..i])
        && (Distinct(s) ==> Distinct(r))
    {
      var k := Place(r, s[i]);
      Inserted(r, k, s[i]);
      assert s[..i + 1] == s[..i] + [s[i]];
      r := r[..k] + [s[i]] + r[k..];
      i := i + 1;
    }
    assert s[..i] == s;
  }

  method Place(r: seq<Path>, p: Path) returns (k: nat)
    requires Ascending(r)
    ensures k <= |r| && (forall j | 0 <= j < k :: r[j] <= p) && (forall j | k <= j < |r| :: r[j] > p)
  {
    k := |r|;
    while k > 0 && r[k - 1] > p
      invariant k <= |r| && forall j | k <= j < |r| :: r[j] > p
    {
      k := k - 1;
    }
  }

  lemma Inserted(r: seq<Path>, k: nat, p: Path)
    requires k <= |r| && Ascending(r) && (forall j | 0 <= j < k :: r[j] <= p) && (forall j | k <= j < |r| :: r[j] > p)
    ensures var t := r[..k] + [p] + r[k..];
      && Ascending(t) && (forall q :: q in t <==> q in r || q == p)
      && (Distinct(r) && p !in r ==> Distinct(t))
  {
    assert r == r[..k] + r[k..];
  }

  /** sortedLocationKeys */
  method SortedKeys(m: map<Path, Row>) returns (r: seq<Path>)
    ensures Distinct(r) && Ascending(r) && forall p :: p in r <==> p in m
  {
    var keys, left := [], m.Keys;
    while left != {}
      invariant Distinct(keys) && left <= m.Keys
      invariant forall p :: p in keys <==> p in m && p !in left
      decreases |left|
    {
      var p :| p in left;
      keys, left := keys + [p], left - {p};
    }
    r := Sort(keys);
  }

  // ---------------------------------------------------------------- planning

  /** The files with a given hash, among those visited. */
  ghost predicate Grouped(fs: map<Path, Row>, visited: seq<Path>, byHash: map<Hash, seq<Path>>) {
    && (forall p | p in visited :: p in fs && fs[p].hash in byHash && p in byHash[fs[p].hash])
    && (forall h | h in byHash ::
      Ascending(byHash[h]) && forall p | p in byHash[h] :: p in visited && p in fs && fs[p].hash == h)
  }

  /** locationsByHash: the files are visited in path order, which leaves every list sorted. */
  method LocationsByHash(fs: map<Path, Row>) returns (byHash: map<Hash, seq<Path>>)
    ensures forall p | p in fs :: fs[p].hash in byHash && p in byHash[fs[p].hash]
    ensures forall h | h in byHash :: Ascending(byHash[h]) && forall p | p in byHash[h] :: p in fs && fs[p].hash == h
  {
    var keys := SortedKeys(fs);
    byHash := map[];
    var i := 0;
    while i < |keys|
      invariant i <= |keys| && Grouped(fs, keys[..i], byHash)
    {
      var p := keys[i];
      assert keys[..i + 1] == keys[..i] + [p];
      Group(fs, keys[..i], byHash, p);
      byHash := byHash[fs[p].hash := (if fs[p].hash in byHash then byHash[fs[p].hash] else []) + [p]];
      i := i + 1;
    }
    assert keys[..i] == keys;
  }

  lemma Group(fs: map<Path, Row>, visited: seq<Path>, byHash: map<Hash, seq<Path>>, p: Path)
    requires Grouped(fs, visited, byHash) && p in fs && forall q | q in visited :: q <= p
    ensures Grouped(fs, visited + [p],
      byHash[fs[p].hash := (if fs[p].hash in byHash then byHash[fs[p].hash] else []) + [p]])
  {
    var group := if fs[p].hash in byHash then byHash[fs[p].hash] else [];
    var after := byHash[fs[p].hash := group + [p]];
    forall j | 0 <= j < |group| ensures group[j] <= p { assert group[j] in byHash[fs[p].hash]; }
    forall q | q in visited + [p] ensures q in fs && fs[q].hash in after && q in after[fs[q].hash] {
      if q != p { assert q in visited && q in byHash[fs[q].hash]; }
    }
    forall h | h in after ensures Ascending(after[h]) && forall q | q in after[h] ::
      q in visited + [p] && q in fs && fs[q].hash == h {
      if h != fs[p].hash { assert h in byHash; }
    }
  }

  /** The first candidate in path order that is neither taken nor already tracked with this content. */
  method FirstMoveTarget(x: Input, candidates: seq<Path>, handled: set<Path>) returns (r: Option<Path>)
    requires forall p | p in candidates :: p in x.fs
    requires Ascending(candidates)
    ensures r.Some? ==> r.value in candidates && r.value !in handled && !Kept(x, r.value)
    ensures r.Some? ==> forall p | p in candidates && p < r.value :: p in handled || Kept(x, p)
    ensures r.None? ==> forall p | p in candidates :: p in handled || Kept(x, p)
  {
    var k := 0;
    while k < |candidates|
      invariant k <= |candidates| && forall j | 0 <= j < k :: candidates[j] in handled || Kept(x, candidates[j])
    {
      var c := candidates[k];
      if c !in handled && !(c in x.db && x.db[c].hash == x.fs[c].hash) { return Some(c); }
      k := k + 1;
    }
    r := None;
  }

  /** The first known path of the content that is out of scope, missing and not yet moved. */
  method FirstMissingOldPath(x: Input, oldPaths: seq<Path>, used: set<Path>) returns (r: Option<Path>)
    ensures r.Some? ==> r.value in oldPaths && r.value !in used && r.value !in x.db && r.value in x.missing
    ensures r.Some? ==> forall p | p in oldPaths && p < r.value :: p in used || p in x.db || p !in x.missing
    ensures r.None? ==> forall p | p in oldPaths :: p in used || p in x.db || p !in x.missing
  {
    var sorted := Sort(oldPaths);
    var k := 0;
    while k < |sorted|
      invariant k <= |sorted| && forall j | 0 <= j < k ::
        sorted[j] in used || sorted[j] in x.db || sorted[j] !in x.missing
    {
      var p := sorted[k];
      if p !in used && p !in x.db && p in x.missing { return Some(p); }
      k := k + 1;
    }
    r := None;
  }

  /** Half way: the tracked paths `done` are planned, the files in `handled` are taken or kept. */
  ghost predicate Classified(x: Input, r: Proposal, done: set<Path>, handled: set<Path>) {
    && r.adds == [] && done <= x.db.Keys && DistinctMoves(r.moves) && Distinct(r.deletes)
    && Sources(r.moves) <= done && Elements(r.deletes) <= done
    && (forall p | p in done :: PathPlanned(x, r, p))
    && (forall m | m in r.moves :: MovePlanned(x, m))
    && (forall d | d in Elements(r.deletes) :: DeletePlanned(x, r, d))
    && (forall p :: p in handled <==> p in Destinations(r.moves) || (p in done && Kept(x, p)))
    && Destinations(r.moves) == ScopeDestinations(x, r.moves)
  }

  method ClassifyTracked(x: Input) returns (r: Proposal, handled: set<Path>)
    ensures Classified(x, r, x.db.Keys, handled)
  {
    r, handled := Proposal([], [], []), {};
    var byHash := LocationsByHash(x.fs);
    var keys := SortedKeys(x.db);
    var i := 0;
    while i < |keys|
      invariant i <= |keys| && Classified(x, r, Elements(keys[..i]), handled)
    {
      var p := keys[i];
      assert keys[..i + 1] == keys[..i] + [p];
      assert Elements(keys[..i + 1]) == Elements(keys[..i]) + {p};
      if p in x.fs {
        if x.fs[p].hash == x.db[p].hash {
          Keep(x, r, Elements(keys[..i]), handled, p);
          handled := handled + {p};
        } else {
          Give(x, r, Elements(keys[..i]), handled, p);
          r := r.(deletes := r.deletes + [p]);
        }
      } else {
        var candidates := if x.db[p].hash in byHash then byHash[x.db[p].hash] else [];
        var target := FirstMoveTarget(x, candidates, handled);
        match target {
          case Some(t) =>
            MoveTo(x, r, Elements(keys[..i]), handled, p, t);
            r := r.(moves := r.moves + [Move(p, t)]);
            handled := handled + {t};
          case None =>
            Give(x, r, Elements(keys[..i]), handled, p);
            r := r.(deletes := r.deletes + [p]);
        }
      }
      i := i + 1;
    }
    assert Elements(keys[..i]) == x.db.Keys;
  }

  lemma Keep(x: Input, r: Proposal, done: set<Path>, handled: set<Path>, p: Path)
    requires Classified(x, r, done, handled) && p !in done && Kept(x, p)
    ensures Classified(x, r, done + {p}, handled + {p})
  {
  }

  lemma Give(x: Input, r: Proposal, done: set<Path>, handled: set<Path>, p: Path)
    requires Classified(x, r, done, handled) && p !in done && p in x.db && !Kept(x, p)
    requires p !in x.fs ==> forall q | q in x.fs && x.fs[q].hash == x.db[p].hash :: q in handled || Kept(x, q)
    ensures Classified(x, r.(deletes := r.deletes + [p]), done + {p}, handled)
  {
    AppendPath(r.deletes, p);
    assert forall q | q in r.deletes :: q in Elements(r.deletes);
  }

  lemma MoveTo(x: Input, r: Proposal, done: set<Path>, handled: set<Path>, p: Path, t: Path)
    requires Classified(x, r, done, handled) && p !in done && p in x.db && p !in x.fs
    requires t in x.fs && x.fs[t].hash == x.db[p].hash && t !in handled && !Kept(x, t)
    ensures Classified(x, r.(moves := r.moves + [Move(p, t)]), done + {p}, handled + {t})
  {
    var after := r.(moves := r.moves + [Move(p, t)]);
    AppendMove(x, r.moves, Move(p, t));
    DistinctAfter(r.moves, Move(p, t));
    forall q | q in done + {p} ensures PathPlanned(x, after, q) {
      if q in done { assert PathPlanned(x, r, q); }
    }
    forall m | m in after.moves ensures MovePlanned(x, m) {
      if m != Move(p, t) { assert m in r.moves; }
    }
    forall d | d in Elements(after.deletes) ensures DeletePlanned(x, after, d) { assert DeletePlanned(x, r, d); }
  }

  lemma DistinctAfter(moves: seq<Move>, m: Move)
    requires DistinctMoves(moves) && m.source !in Sources(moves) && m.target !in Destinations(moves)
    ensures DistinctMoves(moves + [m])
  {
    forall i | 0 <= i < |moves| ensures moves[i].source != m.source && moves[i].target != m.target {
      assert moves[i] in moves;
    }
  }

  /** Later: besides the tracked paths the files `visited` are planned too. */
  ghost predicate Extended(x: Input, r: Proposal, visited: set<Path>, handled: set<Path>, used: set<Path>) {
    && DistinctMoves(r.moves) && Distinct(r.adds) && Distinct(r.deletes) && Destinations(r.moves) !! Elements(r.adds)
    && (forall p | p in x.db :: PathPlanned(x, r, p))
    && (forall m | m in r.moves :: MovePlanned(x, m))
    && (forall p | p in Elements(r.adds) :: AddPlanned(x, r, p))
    && (forall d | d in Elements(r.deletes) :: DeletePlanned(x, r, d))
    && (forall p | p in visited && p in x.fs && x.fs[p].hash in x.known && !Kept(x, p) :: p in Targets(r))
    && Targets(r) <= handled + visited && used == Sources(r.moves)
    && (forall p | p in handled :: Kept(x, p) || p in Targets(r))
  }

  lemma MoveIn(x: Input, r: Proposal, visited: set<Path>, handled: set<Path>, used: set<Path>, from: Path, p: Path)
    requires Extended(x, r, visited, handled, used) && p !in visited && p !in handled && p in x.fs && !Kept(x, p)
    requires x.fs[p].hash in x.known && from in x.known[x.fs[p].hash] && from in x.missing && from !in x.db
      && from !in used
    ensures Extended(x, r.(moves := r.moves + [Move(from, p)]), visited + {p}, handled, used + {from})
  {
    var m := Move(from, p);
    var after := r.(moves := r.moves + [m]);
    AppendMove(x, r.moves, m);
    DistinctAfter(r.moves, m);
    forall q | q in x.db ensures PathPlanned(x, after, q) { assert PathPlanned(x, r, q); }
    forall n | n in after.moves ensures MovePlanned(x, n) {
      if n != m { assert n in r.moves; }
    }
    forall q | q in Elements(after.adds) ensures AddPlanned(x, after, q) { assert AddPlanned(x, r, q); }
    forall d | d in Elements(after.deletes) ensures DeletePlanned(x, after, d) { assert DeletePlanned(x, r, d); }
  }

  lemma AddHere(x: Input, r: Proposal, visited: set<Path>, handled: set<Path>, used: set<Path>, p: Path)
    requires Extended(x, r, visited, handled, used) && p !in visited && p !in handled && p in x.fs && !Kept(x, p)
    requires x.fs[p].hash in x.known
      && forall q | q in x.known[x.fs[p].hash] :: q in used || q in x.db || q !in x.missing
    ensures Extended(x, r.(adds := r.adds + [p]), visited + {p}, handled, used)
  {
    var after := r.(adds := r.adds + [p]);
    AppendPath(r.adds, p);
    forall q | q in x.db ensures PathPlanned(x, after, q) { assert PathPlanned(x, r, q); }
    forall q | q in Elements(after.adds) ensures AddPlanned(x, after, q) {
      if q != p { assert AddPlanned(x, r, q); }
    }
    forall d | d in Elements(after.deletes) ensures DeletePlanned(x, after, d) { assert DeletePlanned(x, r, d); }
    forall k | 0 <= k < |r.adds| ensures r.adds[k] != p { assert r.adds[k] in Elements(r.adds); }
  }

  lemma Skip(x: Input, r: Proposal, visited: set<Path>, handled: set<Path>, used: set<Path>, p: Path)
    requires Extended(x, r, visited, handled, used) && p in x.fs
    requires p in handled || x.fs[p].hash !in x.known
    ensures Extended(x, r, visited + {p}, handled, used)
  {
  }

  /** The dry run: a plan for every tracked path in scope and for every scanned file with known content. */
  method Plan(x: Input) returns (r: Proposal)
    ensures Planned(x, r)
  {
    var handled: set<Path>;
    r, handled := ClassifyTracked(x);
    var used := Sources(r.moves);
    var keys := SortedKeys(x.fs);
    var i := 0;
    while i < |keys|
      invariant i <= |keys| && Extended(x, r, Elements(keys[..i]), handled, used)
      invariant forall p | Kept(x, p) :: p in handled
    {
      var p := keys[i];
      assert keys[..i + 1] == keys[..i] + [p];
      AppendPath(keys[..i], p);
      if p in handled || x.fs[p].hash !in x.known {
        Skip(x, r, Elements(keys[..i]), handled, used, p);
      } else {
        var oldPath := FirstMissingOldPath(x, x.known[x.fs[p].hash], used);
        match oldPath {
          case Some(from) =>
            MoveIn(x, r, Elements(keys[..i]), handled, used, from, p);
            r := r.(moves := r.moves + [Move(from, p)]);
            used := used + {from};
          case None =>
            AddHere(x, r, Elements(keys[..i]), handled, used, p);
            r := r.(adds := r.adds + [p]);
        }
      }
      i := i + 1;
    }
    assert keys[..i] == keys && forall p | p in x.fs :: p in Elements(keys);
  }

  // ---------------------------------------------------------------- applying

  /** Some tracked location has this content. */
  predicate Known(t: map<Path, Row>, h: Hash) { exists p | p in t :: t[p].hash == h }

  function Without(t: map<Path, Row>, paths: set<Path>): map<Path, Row> { map p | p in t && p !in paths :: t[p] }

  /** The trigger on deleted locations: content without a location is deleted, and its tags with it. */
  function Remaining(contents: set<Hash>, before: map<Path, Row>, after: map<Path, Row>): set<Hash> {
    set h | h in contents && (Known(after, h) || !Known(before, h))
  }

  /** UPDATE of one row by its path: no row is no error, an occupied target is. */
  function MoveRow(t: map<Path, Row>, source: Path, target: Path, row: Row): Option<map<Path, Row>> {
    if source !in t then Some(t)
    else if target in t && target != source then None
    else Some(Without(t, {source})[target := Row(t[source].hash, row.size, row.modTime)])
  }

  function MoveRows(t: map<Path, Row>, moves: seq<Move>, fs: map<Path, Row>): Option<map<Path, Row>>
    requires forall m | m in moves :: m.target in fs
    decreases |moves|
  {
    if moves == [] then Some(t)
    else match MoveRow(t, moves[0].source, moves[0].target, fs[moves[0].target])
      case None => None
      case Some(next) => MoveRows(next, moves[1..], fs)
  }

  /** INSERT OR IGNORE: an occupied path is skipped, but a content that does not exist is an error. */
  function InsertRows(t: map<Path, Row>, contents: set<Hash>, adds: seq<Path>,
      fs: map<Path, Row>): Option<map<Path, Row>>
    requires forall p | p in adds :: p in fs
    decreases |adds|
  {
    if adds == [] then Some(t)
    else if adds[0] in t then InsertRows(t, contents, adds[1..], fs)
    else if fs[adds[0]].hash !in contents then None
    else InsertRows(t[adds[0] := fs[adds[0]]], contents, adds[1..], fs)
  }

  predicate Applicable(fs: map<Path, Row>, r: Proposal) {
    (forall m | m in r.moves :: m.target in fs) && forall p | p in r.adds :: p in fs
  }

  function PreDeleted(r: Proposal): set<Path> { Elements(r.deletes) * Targets(r) }

  /** The whole transaction; None when it fails and is rolled back. */
  function Applied(t: map<Path, Row>, contents: set<Hash>, fs: map<Path, Row>,
      r: Proposal): Option<(map<Path, Row>, set<Hash>)>
    requires Applicable(fs, r)
  {
    var t1 := Without(t, PreDeleted(r));
    var c1 := Remaining(contents, t, t1);
    match MoveRows(t1, r.moves, fs)
    case None => None
    case Some(t2) =>
      match InsertRows(t2, c1, r.adds, fs)
      case None => None
      case Some(t3) =>
        var t4 := Without(t3, Elements(r.deletes) - PreDeleted(r));
        Some((t4, Remaining(c1, t3, t4)))
  }

  class Library {
    var table: map<Path, Row>
    var contents: set<Hash>

    constructor (rows: map<Path, Row>, hashes: set<Hash>)
      ensures table == rows && contents == hashes
    {
      table, contents := rows, hashes;
    }

    /** RemoveLocationsByPathTx with the trigger firing on every row. */
    method RemoveLocations(paths: seq<Path>)
      modifies this
      ensures table == Without(old(table), Elements(paths)) && contents == Remaining(old(contents), old(table), table)
    {
      var i := 0;
      while i < |paths|
        invariant i <= |paths| && table == Without(old(table), Elements(paths[..i]))
          && contents == Remaining(old(contents), old(table), table)
      {
        assert paths[..i + 1] == paths[..i] + [paths[i]];
        AppendPath(paths[..i], paths[i]);
        ghost var before := table;
        if paths[i] in table {
          var h := table[paths[i]].hash;
          table := Without(table, {paths[i]});
          if !Known(table, h) { contents := contents - {h}; }
        }
        OneFewer(old(contents), old(table), before, table, paths[i]);
        i := i + 1;
      }
      assert paths[..i] == paths;
    }

    method UpdateRelinkedLocation(m: Move, row: Row) returns (ok: bool)
      modifies this
      ensures contents == old(contents)
      ensures match MoveRow(old(table), m.source, m.target, row)
        case None => !ok && table == old(table)
        case Some(t) => ok && table == t
    {
      if m.source !in table { return true; }
      if m.target in table && m.target != m.source { return false; }
      table := Without(table, {m.source})[m.target := Row(table[m.source].hash, row.size, row.modTime)];
      ok := true;
    }

    method ApplyRelinkAdditions(adds: seq<Path>, fs: map<Path, Row>) returns (ok: bool)
      requires forall p | p in adds :: p in fs
      modifies this
      ensures contents == old(contents)
      ensures match InsertRows(old(table), contents, adds, fs) case None => !ok case Some(t) => ok && table == t
    {
      var i := 0;
      while i < |adds|
        invariant i <= |adds| && contents == old(contents)
        invariant InsertRows(old(table), contents, adds, fs) == InsertRows(table, contents, adds[i..], fs)
      {
        if adds[i] !in table {
          if fs[adds[i]].hash !in contents { return false; }
          table := table[adds[i] := fs[adds[i]]];
        }
        i := i + 1;
      }
      ok := true;
    }

    /** Pre-deletes, moves, additions and the other deletes in one transaction. */
    method ApplyRelinkChanges(fs: map<Path, Row>, r: Proposal) returns (ok: bool)
      requires Applicable(fs, r)
      modifies this
      ensures match Applied(old(table), old(contents), fs, r)
              case None => !ok && table == old(table) && contents == old(contents)
              case Some(result) => ok && table == result.0 && contents == result.1
    {
      var table0, contents0 := table, contents;
      var targets := Targets(r);
      var pre, later := Split(r.deletes, targets);
      assert Elements(pre) == PreDeleted(r) && Elements(later) == Elements(r.deletes) - PreDeleted(r);
      RemoveLocations(pre);
      var i := 0;
      while i < |r.moves|
        invariant i <= |r.moves| && contents == Remaining(contents0, table0, Without(table0, PreDeleted(r)))
        invariant MoveRows(Without(table0, PreDeleted(r)), r.moves, fs) == MoveRows(table, r.moves[i..], fs)
      {
        ok := UpdateRelinkedLocation(r.moves[i], fs[r.moves[i].target]);
        if !ok { table, contents := table0, contents0; return; }
        i := i + 1;
      }
      ok := ApplyRelinkAdditions(r.adds, fs);
      if !ok { table, contents := table0, contents0; return; }
      RemoveLocations(later);
    }
  }

  /** relinkTargetDeletePaths and subtractPaths: the deletes that make room for a target, and the others. */
  method Split(deletes: seq<Path>, targets: set<Path>) returns (pre: seq<Path>, later: seq<Path>)
    ensures Elements(pre) == Elements(deletes) * targets && Elements(later) == Elements(deletes) - Elements(pre)
  {
    pre, later := [], [];
    var i := 0;
    while i < |deletes|
      invariant i <= |deletes| && Elements(pre) == Elements(deletes[..i]) * targets
        && Elements(later) == Elements(deletes[..i]) - targets
    {
      assert deletes[..i + 1] == deletes[..i] + [deletes[i]];
      AppendPath(deletes[..i], deletes[i]);
      AppendPath(pre, deletes[i]);
      AppendPath(later, deletes[i]);
      if deletes[i] in targets { pre := pre + [deletes[i]]; } else { later := later + [deletes[i]]; }
      i := i + 1;
    }
    assert deletes[..i] == deletes;
  }

  lemma OneFewer(contents: set<Hash>, first: map<Path, Row>, before: map<Path, Row>, after: map<Path, Row>, p: Path)
    requires after == Without(before, {p}) && forall q | q in before :: q in first && first[q] == before[q]
    ensures Remaining(contents, first, after) ==
      if p in before && !Known(after, before[p].hash) then Remaining(contents, first, before) - {before[p].hash}
        else Remaining(contents, first, before)
  {
    forall h ensures Known(after, h) ==> Known(before, h) {
      if Known(after, h) { var q :| q in after && after[q].hash == h; assert q in before; }
    }
    forall h ensures Known(before, h) ==> Known(first, h) && (Known(after, h) || (p in before && before[p].hash == h)) {
      if Known(before, h) {
        var q :| q in before && before[q].hash == h;
        assert q in first;
        if q != p { assert q in after; }
      }
    }
  }

  // ---------------------------------------------------------------- what the transaction achieves

  /** The whole locations table, the paths in scope, every file found there, and the known paths not on disk. */
  datatype Snapshot = Snapshot(table: map<Path, Row>, scope: set<Path>, files: map<Path, Row>, missing: set<Path>)

  function KnownSizes(t: map<Path, Row>): set<nat> { set p | p in t :: t[p].size }

  /** The scan reads and hashes only files of a known size. */
  function Scanned(s: Snapshot): map<Path, Row> {
    map p | p in s.files && s.files[p].size in KnownSizes(s.table) :: s.files[p]
  }

  function InScope(s: Snapshot): map<Path, Row> { map p | p in s.table && p in s.scope :: s.table[p] }

  /** The planner's input, taken from a snapshot: every scanned path is in scope, and equal content has one size. */
  ghost predicate Taken(s: Snapshot, x: Input) {
    && x.db == InScope(s) && x.fs == Scanned(s) && x.missing == s.missing
    && (forall h | h in x.known ::
      Known(s.table, h) && forall p :: p in x.known[h] <==> p in s.table && s.table[p].hash == h)
    && (forall p | p in x.fs :: x.fs[p].hash in x.known <==> Known(s.table, x.fs[p].hash))
    && (forall p | p in s.files :: p in s.scope)
    && (forall p, q | p in s.table && q in s.files && s.table[p].hash == s.files[q].hash ::
      s.table[p].size == s.files[q].size)
  }

  /** Files with known content are always scanned. */
  lemma KnownIsScanned(s: Snapshot, x: Input, q: Path)
    requires Taken(s, x) && q in s.files && Known(s.table, s.files[q].hash)
    ensures q in x.fs && x.fs[q] == s.files[q] && x.fs[q].hash in x.known
  {
    var p :| p in s.table && s.table[p].hash == s.files[q].hash;
    assert s.table[p].size in KnownSizes(s.table);
  }

  /** Moving rows from occupied to free paths, all distinct. */
  lemma {:induction false} RowsMove(t: map<Path, Row>, moves: seq<Move>, fs: map<Path, Row>)
    requires DistinctMoves(moves) && Sources(moves) !! Destinations(moves)
    requires forall m | m in moves :: m.target in fs && m.source in t && m.target !in t
    ensures var r := MoveRows(t, moves, fs);
      && r.Some?
      && (forall p :: p in r.value <==> (p in t && p !in Sources(moves)) || p in Destinations(moves))
      && (forall p | p in t && p !in Sources(moves) :: r.value[p] == t[p])
      && (forall m | m in moves :: r.value[m.target] == Row(t[m.source].hash, fs[m.target].size, fs[m.target].modTime))
    decreases |moves|
  {
    if moves != [] {
      var m, rest := moves[0], moves[1..];
      assert m in moves && moves == [m] + rest;
      var next := MoveRow(t, m.source, m.target, fs[m.target]).value;
      FirstMove(moves);
      forall n | n in rest ensures n.source in next && n.target !in next && next[n.source] == t[n.source] {
        assert n in moves && n.source != m.source && n.target != m.target;
      }
      RowsMove(next, rest, fs);
    }
  }

  lemma FirstMove(moves: seq<Move>)
    requires moves != [] && DistinctMoves(moves) && Sources(moves) !! Destinations(moves)
    ensures var m, rest := moves[0], moves[1..];
      && DistinctMoves(rest) && Sources(rest) !! Destinations(rest)
      && Sources(moves) == Sources(rest) + {m.source} && Destinations(moves) == Destinations(rest) + {m.target}
      && (forall n | n in rest :: n.source != m.source && n.target != m.target)
      && m.source !in Destinations(moves) && m.target !in Sources(moves)
  {
    var m, rest := moves[0], moves[1..];
    assert moves == [m] + rest && m in moves;
    forall n | n in rest ensures n in moves && n.source != m.source && n.target != m.target {
      var k :| 0 <= k < |rest| && rest[k] == n;
      assert moves[k + 1] == n;
    }
    assert forall n | n in moves :: n == m || n in rest;
    assert Sources(moves) == Sources(rest) + {m.source};
    assert Destinations(moves) == Destinations(rest) + {m.target};
    assert forall i | 0 <= i < |rest| :: rest[i] == moves[i + 1];
  }

  lemma {:induction false} RowsInsert(t: map<Path, Row>, contents: set<Hash>, adds: seq<Path>, fs: map<Path, Row>)
    requires Distinct(adds) && forall p | p in adds :: p in fs && p !in t
    ensures InsertRows(t, contents, adds, fs).Some? <==> forall p | p in adds :: fs[p].hash in contents
    ensures var r := InsertRows(t, contents, adds, fs); r.Some? ==>
      && (forall p :: p in r.value <==> p in t || p in Elements(adds))
      && (forall p | p in t :: r.value[p] == t[p]) && (forall p | p in adds :: r.value[p] == fs[p])
    decreases |adds|
  {
    if adds != [] {
      var p, rest := adds[0], adds[1..];
      assert adds == [p] + rest && p in adds;
      forall q | q in rest ensures q in adds && q != p {
        var k :| 0 <= k < |rest| && rest[k] == q;
        assert adds[k + 1] == q;
      }
      RowsInsert(t[p := fs[p]], contents, rest, fs);
      assert forall q | q in adds :: q == p || q in rest;
    }
  }

  ghost predicate References(t: map<Path, Row>, contents: set<Hash>) { forall p | p in t :: t[p].hash in contents }

  /** What a plan made from a snapshot means for the table of that snapshot. */
  lemma SourceFacts(s: Snapshot, x: Input, r: Proposal, m: Move)
    requires Taken(s, x) && Planned(x, r) && m in r.moves
    ensures m.source in s.table && m.target in x.fs && s.table[m.source].hash == x.fs[m.target].hash
    ensures m.source !in Elements(r.deletes) && m.source !in Targets(r)
  {
    assert MovePlanned(x, m) && m.source in Sources(r.moves);
    if m.source in x.db { assert PathPlanned(x, r, m.source); }
    if m.source in Targets(r) { TargetFacts(s, x, r, m.source); }
  }

  lemma SourceAway(s: Snapshot, x: Input, r: Proposal, m: Move)
    requires Taken(s, x) && Planned(x, r) && m in r.moves
    ensures m.source in s.table && (m.source in s.scope ==> m.source !in x.fs)
  {
    assert MovePlanned(x, m);
  }

  lemma TargetFacts(s: Snapshot, x: Input, r: Proposal, p: Path)
    requires Taken(s, x) && Planned(x, r) && p in Targets(r)
    ensures p in x.fs && p in s.scope && !Kept(x, p) && p !in Sources(r.moves)
    ensures p in s.table ==> p in PreDeleted(r)
  {
    if p in Destinations(r.moves) {
      var m :| m in r.moves && m.target == p;
      assert MovePlanned(x, m);
    } else {
      assert AddPlanned(x, r, p);
    }
    forall n | n in r.moves ensures n.source != p { SourceAway(s, x, r, n); }
    if p in s.table { assert p in x.db && PathPlanned(x, r, p); }
  }

  lemma DeleteFacts(s: Snapshot, x: Input, r: Proposal, p: Path)
    requires Taken(s, x) && Planned(x, r) && p in Elements(r.deletes)
    ensures p in x.db && !Kept(x, p) && p !in Sources(r.moves)
  {
    assert DeletePlanned(x, r, p) && PathPlanned(x, r, p);
  }

  /** After the pre-deletes every move and every addition finds its place free. */
  lemma NoPathConflict(s: Snapshot, x: Input, r: Proposal)
    requires Taken(s, x) && Planned(x, r)
    ensures Applicable(x.fs, r)
    ensures var t1 := Without(s.table, PreDeleted(r)); var t2 := MoveRows(t1, r.moves, x.fs);
      && t2.Some? && (forall p | p in r.adds :: p !in t2.value)
      && (forall p :: p in t2.value <==> (p in t1 && p !in Sources(r.moves)) || p in Destinations(r.moves))
      && (forall p | p in t1 && p !in Sources(r.moves) :: t2.value[p] == s.table[p])
      && (forall p | p in Destinations(r.moves) :: t2.value[p] == x.fs[p])
  {
    var t1 := Without(s.table, PreDeleted(r));
    forall p | p in Targets(r) ensures p in x.fs && p !in t1 && p !in Sources(r.moves) { TargetFacts(s, x, r, p); }
    forall m | m in r.moves ensures m.source in t1 && t1[m.source].hash == x.fs[m.target].hash
      && m.target in Targets(r) {
      SourceFacts(s, x, r, m);
    }
    assert forall p | p in r.adds :: p in Elements(r.adds) && p in Targets(r);
    RowsMove(t1, r.moves, x.fs);
    forall p | p in Destinations(r.moves) ensures MoveRows(t1, r.moves, x.fs).value[p] == x.fs[p] {
      var m :| m in r.moves && m.target == p;
      assert t1[m.source].hash == x.fs[p].hash;
    }
  }

  /** A tracked path in scope whose file now has other content that the library knows. */
  predicate Overwritten(s: Snapshot, p: Path) {
    p in s.table && p in s.scope && p in s.files && s.files[p].hash != s.table[p].hash
      && Known(s.table, s.files[p].hash)
  }

  /** Every known content found on disk has a tracked location that is not overwritten by other known content. */
  predicate Anchored(s: Snapshot) {
    forall q | q in s.files && Known(s.table, s.files[q].hash) ::
      exists p | p in s.table && s.table[p].hash == s.files[q].hash :: !Overwritten(s, p)
  }

  lemma PreDeletedIsOverwritten(s: Snapshot, x: Input, r: Proposal, p: Path)
    requires Taken(s, x) && Planned(x, r) && p in s.table
    ensures p in PreDeleted(r) <==> Overwritten(s, p)
  {
    if p in PreDeleted(r) {
      TargetFacts(s, x, r, p);
      DeleteFacts(s, x, r, p);
      TargetKnown(s, x, r, p);
    }
    if Overwritten(s, p) {
      KnownIsScanned(s, x, p);
      assert p in Targets(r) && PathPlanned(x, r, p);
      TargetFacts(s, x, r, p);
    }
  }

  lemma TargetKnown(s: Snapshot, x: Input, r: Proposal, p: Path)
    requires Taken(s, x) && Planned(x, r) && p in Targets(r)
    ensures p in x.fs && Known(s.table, x.fs[p].hash)
  {
    if p in Destinations(r.moves) {
      var m :| m in r.moves && m.target == p;
      SourceFacts(s, x, r, m);
    } else {
      assert AddPlanned(x, r, p);
    }
  }

  /** The content of every addition still has a location after the pre-deletes. */
  predicate Grounded(s: Snapshot, fs: map<Path, Row>, r: Proposal)
    requires Applicable(fs, r)
  {
    forall p | p in r.adds :: Known(Without(s.table, PreDeleted(r)), fs[p].hash)
  }

  lemma GroundedIfAnchored(s: Snapshot, x: Input, r: Proposal)
    requires Taken(s, x) && Planned(x, r) && Applicable(x.fs, r) && Anchored(s)
    ensures Grounded(s, x.fs, r)
  {
    forall q | q in r.adds ensures Known(Without(s.table, PreDeleted(r)), x.fs[q].hash) {
      assert q in Elements(r.adds) && AddPlanned(x, r, q);
      var p :| p in s.table && s.table[p].hash == s.files[q].hash && !Overwritten(s, p);
      PreDeletedIsOverwritten(s, x, r, p);
      assert p in Without(s.table, PreDeleted(r));
    }
  }

  lemma AnchoredIfGrounded(s: Snapshot, x: Input, r: Proposal)
    requires Taken(s, x) && Planned(x, r) && Applicable(x.fs, r) && Grounded(s, x.fs, r)
    ensures Anchored(s)
  {
    forall q | q in s.files && Known(s.table, s.files[q].hash)
      ensures exists p | p in s.table && s.table[p].hash == s.files[q].hash :: !Overwritten(s, p)
    {
      KnownIsScanned(s, x, q);
      var p := Anchor(s, x, r, q);
    }
  }

  lemma Anchor(s: Snapshot, x: Input, r: Proposal, q: Path) returns (p: Path)
    requires Taken(s, x) && Planned(x, r) && Applicable(x.fs, r) && Grounded(s, x.fs, r)
    requires q in x.fs && x.fs[q].hash in x.known
    ensures p in s.table && s.table[p].hash == x.fs[q].hash && !Overwritten(s, p)
  {
    if Kept(x, q) {
      p := q;
    } else if q in Destinations(r.moves) {
      var m :| m in r.moves && m.target == q;
      SourceFacts(s, x, r, m);
      p := m.source;
      PreDeletedIsOverwritten(s, x, r, p);
    } else {
      assert q in r.adds;
      p :| p in Without(s.table, PreDeleted(r)) && s.table[p].hash == x.fs[q].hash;
      PreDeletedIsOverwritten(s, x, r, p);
    }
  }

  /** The transaction succeeds exactly when every known content on disk keeps an anchor: the only thing that can
      go wrong is that the pre-deletes orphan, and so delete, a content that an addition still needs. */
  lemma ApplySucceedsIff(s: Snapshot, x: Input, r: Proposal, contents: set<Hash>)
    requires Taken(s, x) && Planned(x, r) && References(s.table, contents)
    ensures Applicable(x.fs, r) && (Applied(s.table, contents, x.fs, r).Some? <==> Anchored(s))
  {
    AppliedIffGrounded(s, x, r, contents);
    if Anchored(s) { GroundedIfAnchored(s, x, r); }
    if Grounded(s, x.fs, r) { AnchoredIfGrounded(s, x, r); }
  }

  lemma AppliedIffGrounded(s: Snapshot, x: Input, r: Proposal, contents: set<Hash>)
    requires Taken(s, x) && Planned(x, r) && References(s.table, contents)
    ensures Applicable(x.fs, r) && (Applied(s.table, contents, x.fs, r).Some? <==> Grounded(s, x.fs, r))
  {
    NoPathConflict(s, x, r);
    var t1 := Without(s.table, PreDeleted(r));
    var c1 := Remaining(contents, s.table, t1);
    var t2 := MoveRows(t1, r.moves, x.fs).value;
    RowsInsert(t2, c1, r.adds, x.fs);
    forall p | p in r.adds ensures x.fs[p].hash in c1 <==> Known(t1, x.fs[p].hash) {
      AddedContent(s, x, r, contents, p);
    }
  }

  lemma AddedContent(s: Snapshot, x: Input, r: Proposal, contents: set<Hash>, p: Path)
    requires Taken(s, x) && Planned(x, r) && References(s.table, contents) && p in r.adds
    ensures p in x.fs
    ensures var t1 := Without(s.table, PreDeleted(r));
      x.fs[p].hash in Remaining(contents, s.table, t1)
      <==> Known(t1, x.fs[p].hash)
  {
    assert p in Elements(r.adds) && AddPlanned(x, r, p);
    var q :| q in s.table && s.table[q].hash == x.fs[p].hash;
  }

  /** Two files that traded places, the only copies of their contents, cannot be relinked. */
  lemma TradedPlacesCannotBeRelinked(s: Snapshot, x: Input, r: Proposal, contents: set<Hash>, a: Path, b: Path)
    requires Taken(s, x) && Planned(x, r) && References(s.table, contents)
    requires a in s.table && b in s.table && s.table[a].hash != s.table[b].hash
    requires a in s.files && b in s.files && s.files[a].hash == s.table[b].hash && s.files[b].hash == s.table[a].hash
    requires forall p | p in s.table :: s.table[p].hash == s.table[a].hash ==> p == a
    ensures Applicable(x.fs, r) && Applied(s.table, contents, x.fs, r).None?
  {
    ApplySucceedsIff(s, x, r, contents);
    assert Known(s.table, s.files[a].hash) && Overwritten(s, a);
    assert Known(s.table, s.files[b].hash);
    assert forall p | p in s.table && s.table[p].hash == s.files[b].hash :: Overwritten(s, p);
  }

  /** The library agrees with the disk: in scope, exactly the files with known content are tracked, each with its
      content; out of scope, only missing paths whose file turned up in scope are gone. */
  ghost predicate Agrees(s: Snapshot, r: Proposal, t: map<Path, Row>) {
    && (forall p | p in s.scope :: p in t <==> p in s.files && Known(s.table, s.files[p].hash))
    && (forall p | p in s.scope && p in t ::
      t[p].hash == s.files[p].hash && (t[p] == s.files[p] || (p in s.table && t[p] == s.table[p])))
    && (forall p | p !in s.scope :: p in t <==> p in s.table && p !in Sources(r.moves))
    && (forall p | p !in s.scope && p in t :: t[p] == s.table[p])
    && (forall p | p in s.table && p !in s.scope && p !in t :: p in s.missing)
  }

  /** Applying a plan made from the present state leaves the library in agreement with the disk, and no content
      found there loses its record, and with it its tags, on the way. */
  lemma RelinkRestoresAgreement(s: Snapshot, x: Input, r: Proposal, contents: set<Hash>)
    requires Taken(s, x) && Planned(x, r) && References(s.table, contents) && Anchored(s)
    ensures Applicable(x.fs, r) && Applied(s.table, contents, x.fs, r).Some?
    ensures var after := Applied(s.table, contents, x.fs, r).value;
      && Agrees(s, r, after.0) && References(after.0, after.1)
      && (forall q | q in s.files && Known(s.table, s.files[q].hash) :: s.files[q].hash in after.1)
  {
    ApplySucceedsIff(s, x, r, contents);
    Locations(s, x, r, contents);
    AgreesAfter(s, x, r, Applied(s.table, contents, x.fs, r).value.0);
    ContentsKept(s, x, r, contents);
  }

  lemma AgreesAfter(s: Snapshot, x: Input, r: Proposal, t: map<Path, Row>)
    requires Taken(s, x) && Planned(x, r)
    requires forall p ::
      p in t <==> p in Targets(r) || (p in s.table && p !in Elements(r.deletes) && p !in Sources(r.moves))
    requires forall p | p in Targets(r) :: p in x.fs
    requires forall p | p in t :: t[p] == if p in Targets(r) then x.fs[p] else s.table[p]
    ensures Agrees(s, r, t)
  {
    forall p | p in s.scope
      ensures p in t <==> p in s.files && Known(s.table, s.files[p].hash)
      ensures p in t ==> t[p].hash == s.files[p].hash && (t[p] == s.files[p] || (p in s.table && t[p] == s.table[p]))
    {
      ScopeAgrees(s, x, r, p);
    }
    forall p | p !in s.scope
      ensures p in t <==> p in s.table && p !in Sources(r.moves)
      ensures p in t ==> t[p] == s.table[p]
      ensures p in s.table && p in Sources(r.moves) ==> p in s.missing
    {
      OutOfScope(s, x, r, p);
    }
  }

  /** The final table, path by path. */
  lemma Locations(s: Snapshot, x: Input, r: Proposal, contents: set<Hash>)
    requires Taken(s, x) && Planned(x, r) && Applicable(x.fs, r) && Applied(s.table, contents, x.fs, r).Some?
    ensures var t := Applied(s.table, contents, x.fs, r).value.0;
      && (forall p ::
            p in t <==> p in Targets(r) || (p in s.table && p !in Elements(r.deletes) && p !in Sources(r.moves)))
      && (forall p | p in Targets(r) :: p in x.fs)
        && (forall p | p in t :: t[p] == if p in Targets(r) then x.fs[p] else s.table[p])
  {
    NoPathConflict(s, x, r);
    var t1 := Without(s.table, PreDeleted(r));
    var t2 := MoveRows(t1, r.moves, x.fs).value;
    RowsInsert(t2, Remaining(contents, s.table, t1), r.adds, x.fs);
    forall p | p in Targets(r) ensures p in x.fs && (p in s.table ==> p in PreDeleted(r)) && p !in Sources(r.moves) {
      TargetFacts(s, x, r, p);
    }
  }

  lemma ScopeAgrees(s: Snapshot, x: Input, r: Proposal, p: Path)
    requires Taken(s, x) && Planned(x, r) && p in s.scope
    ensures p in Targets(r) ==> p in s.files && x.fs[p] == s.files[p] && Known(s.table, s.files[p].hash)
    ensures p !in Targets(r) && p in s.table && p !in Elements(r.deletes) && p !in Sources(r.moves)
      ==> p in s.files && s.files[p].hash == s.table[p].hash
    ensures p in s.files && Known(s.table, s.files[p].hash)
      ==> p in Targets(r) || (p in s.table && p !in Elements(r.deletes) && p !in Sources(r.moves))
  {
    if p in Targets(r) { TargetKnown(s, x, r, p); }
    if p in s.table { assert PathPlanned(x, r, p); }
    if p in s.files && Known(s.table, s.files[p].hash) { KnownIsScanned(s, x, p); }
  }

  lemma OutOfScope(s: Snapshot, x: Input, r: Proposal, p: Path)
    requires Taken(s, x) && Planned(x, r) && p !in s.scope
    ensures p !in Targets(r) && p !in Elements(r.deletes)
    ensures p in Sources(r.moves) ==> p in s.missing
  {
    if p in Targets(r) { TargetFacts(s, x, r, p); }
    if p in Elements(r.deletes) { DeleteFacts(s, x, r, p); }
    forall m | m in r.moves ensures m.source == p ==> p in s.missing { assert MovePlanned(x, m); }
  }

  lemma ContentsKept(s: Snapshot, x: Input, r: Proposal, contents: set<Hash>)
    requires Taken(s, x) && Planned(x, r) && References(s.table, contents) && Applicable(x.fs, r)
      && Applied(s.table, contents, x.fs, r).Some?
    ensures var after := Applied(s.table, contents, x.fs, r).value; References(after.0, after.1)
    ensures forall q | q in s.files && Known(s.table, s.files[q].hash) ::
      s.files[q].hash in Applied(s.table, contents, x.fs, r).value.1
  {
    var after := Applied(s.table, contents, x.fs, r).value;
    FinalReferences(s, x, r, contents);
    Locations(s, x, r, contents);
    forall q | q in s.files && Known(s.table, s.files[q].hash) ensures s.files[q].hash in after.1 {
      ScopeAgrees(s, x, r, q);
      assert q in after.0 && after.0[q].hash == s.files[q].hash;
    }
  }

  lemma FinalReferences(s: Snapshot, x: Input, r: Proposal, contents: set<Hash>)
    requires Taken(s, x) && Planned(x, r) && References(s.table, contents) && Applicable(x.fs, r)
      && Applied(s.table, contents, x.fs, r).Some?
    ensures var after := Applied(s.table, contents, x.fs, r).value; References(after.0, after.1)
  {
    NoPathConflict(s, x, r);
    var t1 := Without(s.table, PreDeleted(r));
    var c1 := Remaining(contents, s.table, t1);
    var t2 := MoveRows(t1, r.moves, x.fs).value;
    MovedReferences(s, x, r, contents);
    RowsInsert(t2, c1, r.adds, x.fs);
    InsertedReferences(t2, c1, r.adds, x.fs);
    var t3 := InsertRows(t2, c1, r.adds, x.fs).value;
    RemainingReferences(c1, t3, Without(t3, Elements(r.deletes) - PreDeleted(r)));
  }

  lemma MovedReferences(s: Snapshot, x: Input, r: Proposal, contents: set<Hash>)
    requires Taken(s, x) && Planned(x, r) && References(s.table, contents) && Applicable(x.fs, r)
    ensures var t1 := Without(s.table, PreDeleted(r)); var t2 := MoveRows(t1, r.moves, x.fs);
      t2.Some? && References(t2.value, Remaining(contents, s.table, t1))
  {
    NoPathConflict(s, x, r);
    var t1 := Without(s.table, PreDeleted(r));
    RemainingReferences(contents, s.table, t1);
    forall p | p in Destinations(r.moves) ensures x.fs[p].hash in Remaining(contents, s.table, t1) {
      var m :| m in r.moves && m.target == p;
      SourceFacts(s, x, r, m);
      assert m.source in t1;
    }
  }

  lemma {:induction false} InsertedReferences(t: map<Path, Row>, contents: set<Hash>, adds: seq<Path>,
      fs: map<Path, Row>)
    requires References(t, contents) && (forall p | p in adds :: p in fs) && InsertRows(t, contents, adds, fs).Some?
    ensures References(InsertRows(t, contents, adds, fs).value, contents)
    decreases |adds|
  {
    if adds != [] {
      if adds[0] in t { InsertedReferences(t, contents, adds[1..], fs); }
        else { InsertedReferences(t[adds[0] := fs[adds[0]]], contents, adds[1..], fs); }
    }
  }

  lemma RemainingReferences(contents: set<Hash>, before: map<Path, Row>, after: map<Path, Row>)
    requires References(before, contents) && forall p | p in after :: p in before && after[p] == before[p]
    ensures References(after, Remaining(contents, before, after))
  {
  }

  // ---------------------------------------------------------------- the pre-check

  /** A tracked path whose file is gone or differs; with `verify` by content, otherwise by size and time. */
  predicate Differs(s: Snapshot, verify: bool, p: Path)
    requires p in s.table
  {
    || p !in Scanned(s)
    || if verify then s.files[p].hash != s.table[p].hash
       else s.files[p].size != s.table[p].size || s.files[p].modTime != s.table[p].modTime
  }

  /** An untracked file whose size and content are those of some location. */
  predicate ExtraCopy(s: Snapshot, q: Path) {
    q in Scanned(s) && q !in InScope(s)
      && exists p | p in s.table :: s.table[p].size == s.files[q].size && s.table[p].hash == s.files[q].hash
  }

  function HashesOfSize(t: map<Path, Row>, size: nat): set<Hash> { set p | p in t && t[p].size == size :: t[p].hash }

  method NeedsRelink(s: Snapshot, verify: bool) returns (r: bool)
    ensures r <==> (exists p | p in InScope(s) :: Differs(s, verify, p)) || exists q | q in s.files :: ExtraCopy(s, q)
  {
    var knownSizes := KnownSizes(s.table);
    var fsPaths := map p | p in s.files && s.files[p].size in knownSizes :: s.files[p];
    var tracked := InScope(s);
    var left := tracked.Keys;
    while left != {}
      invariant left <= tracked.Keys && forall p | p in tracked && p !in left :: !Differs(s, verify, p)
      decreases |left|
    {
      var p :| p in left;
      if p !in fsPaths { return true; }
      if verify {
        if fsPaths[p].hash != tracked[p].hash { return true; }
      } else if fsPaths[p].size != tracked[p].size || fsPaths[p].modTime != tracked[p].modTime {
        return true;
      }
      left := left - {p};
    }
    var candidateSizes := set q | q in fsPaths && q !in tracked :: fsPaths[q].size;
    assert forall q | q in fsPaths && q !in tracked :: fsPaths[q].size in candidateSizes;
    if candidateSizes == {} { return false; }
    var hashesBySize := map size | size in candidateSizes :: HashesOfSize(s.table, size);
    left := fsPaths.Keys;
    while left != {}
      invariant left <= fsPaths.Keys && forall q | q in fsPaths && q !in left :: !ExtraCopy(s, q)
      decreases |left|
    {
      var q :| q in left;
      if q !in tracked && fsPaths[q].hash in hashesBySize[fsPaths[q].size] { return true; }
      left := left - {q};
    }
    r := false;
  }

  /** With content verification the pre-check says yes exactly when the planner would propose a change. */
  lemma NeedsRelinkIffPlanned(s: Snapshot, x: Input, r: Proposal)
    requires Taken(s, x) && Planned(x, r)
    ensures (exists p | p in InScope(s) :: Differs(s, true, p)) || (exists q | q in s.files :: ExtraCopy(s, q))
      <==> r != Proposal([], [], [])
  {
    if r == Proposal([], [], []) { EmptyPlan(s, x, r); } else { SomePlan(s, x, r); }
  }

  lemma EmptyPlan(s: Snapshot, x: Input, r: Proposal)
    requires Taken(s, x) && Planned(x, r) && r == Proposal([], [], [])
    ensures !(exists p | p in InScope(s) :: Differs(s, true, p)) && !(exists q | q in s.files :: ExtraCopy(s, q))
  {
    assert Targets(r) == {} && Sources(r.moves) == {} && Elements(r.deletes) == {};
    forall p | p in InScope(s) ensures !Differs(s, true, p) { assert PathPlanned(x, r, p); }
    forall q | q in s.files ensures !ExtraCopy(s, q) {
      if q in x.fs && Known(s.table, x.fs[q].hash) { assert q in x.fs && x.fs[q].hash in x.known; }
    }
  }

  lemma SomePlan(s: Snapshot, x: Input, r: Proposal)
    requires Taken(s, x) && Planned(x, r) && r != Proposal([], [], [])
    ensures (exists p | p in InScope(s) :: Differs(s, true, p)) || (exists q | q in s.files :: ExtraCopy(s, q))
  {
    if r.deletes != [] {
      var p := r.deletes[0];
      assert p in Elements(r.deletes);
      DeleteFacts(s, x, r, p);
      assert p in InScope(s) && Differs(s, true, p);
    } else {
      var q := if r.moves != [] then r.moves[0].target else r.adds[0];
      if r.moves != [] { assert r.moves[0] in r.moves && q in Destinations(r.moves); }
        else { assert q in Elements(r.adds); }
      TargetFacts(s, x, r, q);
      TargetKnown(s, x, r, q);
      var p :| p in s.table && s.table[p].hash == x.fs[q].hash;
      assert Elements(r.deletes) == {} && q !in s.table;
      assert ExtraCopy(s, q);
    }
  }
}
