/** Deleting managed files: a batch first renames every file to a hidden staging path beside it, then deletes the
    library rows in one transaction, and only then removes the staged files. A failed, canceled or crashed run is
    compensated by a cleanup that restores what is still tracked and purges what is not. Meanwhile other programs
    may put new files where the originals were. */
module StagedDeletion {
  import opened Basics

  /** The bytes the library tracks, or some other file put in their place. */
  datatype Content = Own | Other(id: nat)

  /** Where the library says the file is: at this original path, at another path, or nowhere. */
  datatype Row = Here | Elsewhere | Gone

  /** One file of the batch. `present`: its bytes were there when the deletion was queued. */
  datatype Slot = Slot(original: Option<Content>, staged: Option<Content>, row: Row, present: bool)

  /** How other programs behave: not at all, never between a check and the rename it guards, or at any time. */
  datatype Neighbours = Nobody | Polite | Anytime

  predicate Replacement(c: Option<Content>) { c.Some? && c.value.Other? }

  /** os.Rename(original, staged) and back; each replaces whatever is at its target. */
  function Staged(s: Slot): Slot { s.(original := None, staged := s.original) }

  function Renamed(s: Slot): Slot { s.(original := s.staged, staged := None) }

  // ---------------------------------------------------------------- the single steps

  /** `checked`: the file whose original path was found empty just before it is to be restored. */
  datatype World = World(slots: seq<Slot>, checked: Option<nat>)

  datatype Move =
    | Appears(file: nat, id: nat)    // another program creates a file at an original path
    | Stages(file: nat)
    | DeletesRows
    | Checks(file: nat)              // something is staged and the original path is empty
    | Restores(file: nat)
    | Stops                          // the restore that was checked does not take place
    | Purges(file: nat)

  function Act(w: World, m: Move): World {
    match m
    case Appears(i, id) => if i < |w.slots| then w.(slots := w.slots[i := w.slots[i].(original := Some(Other(id)))])
      else w
    case Stages(i) => World(if i < |w.slots| then w.slots[i := Staged(w.slots[i])] else w.slots, None)
    case DeletesRows => World(seq(|w.slots|, j requires 0 <= j < |w.slots| => w.slots[j].(row := Gone)), None)
    case Checks(i) => w.(checked := Some(i))
    case Restores(i) => World(if i < |w.slots| then w.slots[i := Renamed(w.slots[i])] else w.slots, None)
    case Stops => w.(checked := None)
    case Purges(i) => World(if i < |w.slots| then w.slots[i := w.slots[i].(staged := None)] else w.slots, None)
  }

  /** When each step is taken. `replayed`: a deletion may be attempted again after an attempt has committed, which
      the retry policy rules out. */
  predicate Enabled(who: Neighbours, replayed: bool, w: World, m: Move) {
    match m
    case Appears(i, _) => i < |w.slots| && w.slots[i].original.None? && who != Nobody
      && (who == Polite ==> w.checked != Some(i))
    case Stages(i) => i < |w.slots| && w.slots[i].row == Here && w.slots[i].staged.None? && w.slots[i].original.Some?
    case DeletesRows => forall j | 0 <= j < |w.slots| ::
      w.slots[j].row == Here && w.slots[j].present ==> w.slots[j].staged == Some(Own)
    case Checks(i) => i < |w.slots| && w.slots[i].staged.Some? && w.slots[i].original.None?
      && (w.slots[i].row == Gone ==> replayed)
    case Restores(i) => w.checked == Some(i)
    case Stops => true
    case Purges(i) => i < |w.slots| && w.slots[i].row == Gone && w.slots[i].staged.Some?
  }

  function After(start: seq<Slot>, moves: seq<Move>): World {
    if moves == [] then World(start, None) else Act(After(start, moves[..|moves| - 1]), moves[|moves| - 1])
  }

  predicate Legal(who: Neighbours, replayed: bool, start: seq<Slot>, moves: seq<Move>) {
    moves == [] || (Legal(who, replayed, start, moves[..|moves| - 1])
                    && Enabled(who, replayed, After(start, moves[..|moves| - 1]), moves[|moves| - 1]))
  }

  lemma OneMore(who: Neighbours, replayed: bool, start: seq<Slot>, moves: seq<Move>, m: Move)
    ensures After(start, moves + [m]) == Act(After(start, moves), m)
    ensures Legal(who, replayed, start, moves + [m])
      <==> Legal(who, replayed, start, moves) && Enabled(who, replayed, After(start, moves), m)
  {
    assert (moves + [m])[..|moves|] == moves;
  }

  lemma {:induction false} LegalPrefix(who: Neighbours, replayed: bool, start: seq<Slot>, moves: seq<Move>, k: nat)
    requires Legal(who, replayed, start, moves) && k <= |moves|
    ensures Legal(who, replayed, start, moves[..k])
    decreases |moves|
  {
    if k < |moves| {
      assert moves[..|moves| - 1][..k] == moves[..k];
      LegalPrefix(who, replayed, start, moves[..|moves| - 1], k);
    } else {
      assert moves[..k] == moves;
    }
  }

  // ---------------------------------------------------------------- what every run keeps

  predicate Kept(replayed: bool, s: Slot) {
    if !s.present then s.original != Some(Own) && s.staged != Some(Own)
    else match s.row
      case Gone =>
        if s.original == Some(Own) then replayed && s.staged.None? else s.staged.None? || s.staged == Some(Own)
      case Here => (s.original == Some(Own) && s.staged.None?) || (s.staged == Some(Own) && s.original != Some(Own))
      case Elsewhere => false
  }

  ghost predicate AllKept(replayed: bool, slots: seq<Slot>) { forall i | 0 <= i < |slots| :: Kept(replayed, slots[i]) }

  /** A checked file has something staged, and only an impolite program can have taken its place since. */
  predicate CheckedOk(who: Neighbours, replayed: bool, w: World) {
    w.checked.Some? ==>
      var i := w.checked.value;
      && i < |w.slots| && w.slots[i].staged.Some? && (w.slots[i].row == Gone ==> replayed)
      && (w.slots[i].original.None? || (who == Anytime && Replacement(w.slots[i].original)))
  }

  ghost predicate Ok(who: Neighbours, replayed: bool, w: World) {
    AllKept(replayed, w.slots) && CheckedOk(who, replayed, w)
  }

  lemma ActKeeps(who: Neighbours, replayed: bool, w: World, m: Move)
    requires Ok(who, replayed, w) && Enabled(who, replayed, w, m)
    ensures Ok(who, replayed, Act(w, m)) && |Act(w, m).slots| == |w.slots|
    ensures forall j | 0 <= j < |w.slots| :: Act(w, m).slots[j].present == w.slots[j].present
    ensures forall j | 0 <= j < |w.slots| :: Act(w, m).slots[j].row == w.slots[j].row || Act(w, m).slots[j].row == Gone
  {
  }

  lemma {:induction false} RunKeeps(who: Neighbours, replayed: bool, start: seq<Slot>, moves: seq<Move>)
    requires AllKept(replayed, start) && Legal(who, replayed, start, moves)
    ensures Ok(who, replayed, After(start, moves)) && |After(start, moves).slots| == |start|
    ensures forall j | 0 <= j < |start| :: After(start, moves).slots[j].present == start[j].present
    decreases |moves|
  {
    if moves != [] {
      RunKeeps(who, replayed, start, moves[..|moves| - 1]);
      ActKeeps(who, replayed, After(start, moves[..|moves| - 1]), moves[|moves| - 1]);
    }
  }

  /** After any run a file that was there and is still tracked has its bytes at its original or its staging path, in
      one copy. */
  lemma TrackedBytesSurvive(who: Neighbours, replayed: bool, start: seq<Slot>, moves: seq<Move>, i: nat)
    requires AllKept(replayed, start) && Legal(who, replayed, start, moves) && i < |start| && start[i].present
    ensures var w := After(start, moves);
      i < |w.slots| && (w.slots[i].row != Gone
        ==> (w.slots[i].original == Some(Own)) != (w.slots[i].staged == Some(Own)))
  {
    RunKeeps(who, replayed, start, moves);
    assert Kept(replayed, After(start, moves).slots[i]);
  }

  // ---------------------------------------------------------------- when a replacement is lost

  /** A file has appeared at this original path since the last check. */
  predicate Slipped(moves: seq<Move>, i: nat)
    decreases |moves|
  {
    moves != [] && moves[|moves| - 1].Appears? && (moves[|moves| - 1].file == i || Slipped(moves[..|moves| - 1], i))
  }

  lemma {:induction false} OccupiedIffSlipped(who: Neighbours, replayed: bool, start: seq<Slot>, moves: seq<Move>,
      i: nat)
    requires AllKept(replayed, start) && Legal(who, replayed, start, moves) && After(start, moves).checked == Some(i)
    ensures i < |After(start, moves).slots|
      && (Replacement(After(start, moves).slots[i].original) <==> Slipped(moves, i))
    decreases |moves|
  {
    RunKeeps(who, replayed, start, moves);
    var before, m := moves[..|moves| - 1], moves[|moves| - 1];
    if m.Appears? { OccupiedIffSlipped(who, replayed, start, before, i); }
  }

  /** A step takes a replacement away from the original path of a file of the batch exactly when it is the rename of a
      restore whose check found the path empty, something being staged, and a file has appeared there since. */
  lemma ReplacementLostIff(who: Neighbours, replayed: bool, start: seq<Slot>, moves: seq<Move>, m: Move, i: nat)
    requires AllKept(replayed, start) && Legal(who, replayed, start, moves + [m]) && i < |start| && start[i].present
    ensures var w, v := After(start, moves), After(start, moves + [m]);
      && i < |w.slots| == |v.slots|
      && (Replacement(w.slots[i].original) && v.slots[i].original != w.slots[i].original
        <==> m == Restores(i) && Slipped(moves, i))
      && (m == Restores(i) ==> v.slots[i].original == w.slots[i].staged && v.slots[i].original.Some?)
  {
    OneMore(who, replayed, start, moves, m);
    RunKeeps(who, replayed, start, moves);
    var w := After(start, moves);
    assert Kept(replayed, w.slots[i]);
    if m == Restores(i) { OccupiedIffSlipped(who, replayed, start, moves, i); }
  }

  /** So among polite programs a replacement stays for ever. */
  lemma {:induction false} ReplacementStays(who: Neighbours, replayed: bool, start: seq<Slot>, moves: seq<Move>,
      more: seq<Move>, i: nat)
    requires AllKept(replayed, start) && Legal(who, replayed, start, moves + more) && who != Anytime
    requires i < |start| && start[i].present && |After(start, moves).slots| == |start|
      && Replacement(After(start, moves).slots[i].original)
    ensures |After(start, moves + more).slots| == |start|
    ensures After(start, moves + more).slots[i].original == After(start, moves).slots[i].original
    decreases |more|
  {
    if more == [] {
      assert moves + more == moves;
    } else {
      var before, m := more[..|more| - 1], more[|more| - 1];
      assert moves + more == moves + before + [m];
      OneMore(who, replayed, start, moves + before, m);
      ReplacementStays(who, replayed, start, moves, before, i);
      ReplacementLostIff(who, replayed, start, moves + before, m, i);
      RunKeeps(who, replayed, start, moves + before);
      assert CheckedOk(who, replayed, After(start, moves + before));
    }
  }

  /** And among impolite ones it can be lost: a run of one file, staged, checked, taken by another, restored. */
  lemma ReplacementCanBeLost(id: nat)
    ensures var start := [Slot(Some(Own), None, Here, true)]; var moves := [Stages(0)] + [Checks(0)] + [Appears(0, id)];
      && AllKept(false, start) && Legal(Anytime, false, start, moves + [Restores(0)])
      && |After(start, moves).slots| == 1 && After(start, moves).slots[0].original == Some(Other(id))
      && After(start, moves + [Restores(0)]).slots == start
  {
    var start := [Slot(Some(Own), None, Here, true)];
    assert [] + [Stages(0)] == [Stages(0)];
    OneMore(Anytime, false, start, [], Stages(0));
    OneMore(Anytime, false, start, [Stages(0)], Checks(0));
    OneMore(Anytime, false, start, [Stages(0)] + [Checks(0)], Appears(0, id));
    OneMore(Anytime, false, start, [Stages(0)] + [Checks(0)] + [Appears(0, id)], Restores(0));
  }

  // ---------------------------------------------------------------- the operations

  /** What fails: nothing, any operation, or preparing one file for its removal. */
  datatype Fault = Never | Anywhere | At(file: nat)

  /** What other programs can do to a file: create something at its unoccupied original path. */
  predicate Disturbed(s: Slot, t: Slot) {
    t == s || (s.original.None? && Replacement(t.original) && t == s.(original := t.original))
  }

  ghost predicate Touched(more: seq<Move>, i: nat) {
    exists k | 0 <= k < |more| :: more[k].Appears? && more[k].file == i
  }

  /** Files that appeared, and where. */
  ghost predicate Disturbance(a: seq<Slot>, more: seq<Move>, b: seq<Slot>) {
    && |a| == |b| && (forall k | 0 <= k < |more| :: more[k].Appears?)
    && (forall i | 0 <= i < |a| && !Touched(more, i) :: b[i] == a[i])
    && (forall i | 0 <= i < |a| && Touched(more, i) ::
          a[i].original.None? && Replacement(b[i].original) && b[i] == a[i].(original := b[i].original))
  }

  lemma DisturbanceMeans(a: seq<Slot>, more: seq<Move>, b: seq<Slot>)
    requires Disturbance(a, more, b)
    ensures forall j | 0 <= j < |a| :: Disturbed(a[j], b[j])
  {
    forall j | 0 <= j < |a| ensures Disturbed(a[j], b[j]) {
      if Touched(more, j) {}
    }
  }

  lemma OneMoreAppears(a: seq<Slot>, more: seq<Move>, b: seq<Slot>, i: nat, id: nat)
    requires Disturbance(a, more, b) && i < |b| && b[i].original.None?
    ensures Disturbance(a, more + [Appears(i, id)], b[i := b[i].(original := Some(Other(id)))])
    ensures forall j: nat :: Touched(more + [Appears(i, id)], j) <==> Touched(more, j) || j == i
  {
    var m := more + [Appears(i, id)];
    assert m[|more|] == Appears(i, id);
    forall j: nat ensures Touched(m, j) <==> Touched(more, j) || j == i {
      if Touched(more, j) {
        var k :| 0 <= k < |more| && more[k].Appears? && more[k].file == j;
        assert m[k] == more[k];
      }
      if Touched(m, j) && j != i {
        var k :| 0 <= k < |m| && m[k].Appears? && m[k].file == j;
        assert more[k] == m[k];
      }
    }
  }

  /** What putting a file back makes of it when nothing interferes. */
  function Back(s: Slot): Slot { if s.staged.Some? && s.original.None? then Renamed(s) else s }

  /** What an attempt makes of a file up to its commit when nothing interferes. */
  function Removed(s: Slot): Slot { (if s.row == Here && s.original.Some? then Staged(s) else s).(row := Gone) }

  /** What a complete cleanup makes of a file when nothing interferes. */
  function Reconciled(s: Slot): Slot {
    match s.row
    case Gone => s.(staged := None)
    case Elsewhere => s
    case Here => Back(s)
  }

  /** The last step renamed something over a file that another program had created. */
  ghost predicate Overwritten(start: seq<Slot>, moves: seq<Move>, i: nat) {
    && moves != [] && moves[|moves| - 1] == Restores(i) && i < |After(start, moves[..|moves| - 1]).slots|
    && Replacement(After(start, moves[..|moves| - 1]).slots[i].original)
  }

  /** A file after its row is gone: its staged bytes may go, and others may create a file at its path. */
  predicate Swept(s: Slot, t: Slot) {
    s.row == Gone ==> t.row == Gone && t.present == s.present && (t.original == s.original || Replacement(t.original))
  }

  ghost predicate SameRows(a: seq<Slot>, b: seq<Slot>) {
    |a| == |b| && forall j | 0 <= j < |a| :: b[j].row == a[j].row && b[j].present == a[j].present
  }

  ghost predicate SameStaged(a: seq<Slot>, b: seq<Slot>, from: nat) {
    |a| == |b| && forall j | from <= j < |a| :: b[j].staged == a[j].staged
  }

  /** Of the first i files those still in the library have their bytes staged, and all that are staged are listed. */
  ghost predicate ReadyUpTo(slots: seq<Slot>, list: seq<nat>, i: nat) {
    forall j | 0 <= j < i && j < |slots| ::
      && (slots[j].row == Here && slots[j].present ==> slots[j].staged == Some(Own))
      && (slots[j].staged.Some? ==> j in list)
  }

  lemma ReadyNext(before: seq<Slot>, after: seq<Slot>, earlier: seq<nat>, list: seq<nat>, i: nat)
    requires SameRows(before, after) && ReadyUpTo(before, earlier, i) && i < |before|
    requires forall j | 0 <= j < |before| && j != i :: after[j].staged == before[j].staged
    requires (list == earlier || list == earlier + [i]) && (after[i].staged.Some? ==> i in list)
    requires after[i].row == Here && after[i].present ==> after[i].staged == Some(Own)
    ensures ReadyUpTo(after, list, i + 1)
  {
  }

  /** The first i files have been staged, undisturbed, and the others not yet. */
  ghost predicate PreparedUpTo(was: seq<Slot>, now: seq<Slot>, i: nat) {
    && |now| == |was|
    && (forall j | 0 <= j < i && j < |was| :: now[j].(row := Gone) == Removed(was[j]))
    && (forall j | i <= j < |was| :: now[j] == was[j])
  }

  lemma PreparedNext(was: seq<Slot>, before: seq<Slot>, after: seq<Slot>, i: nat)
    requires PreparedUpTo(was, before, i) && i < |was|
    requires after == before[i := Removed(before[i]).(row := before[i].row)]
    ensures PreparedUpTo(was, after, i + 1)
  {
  }

  /** Of the first i files those that are staged are in the list, and nothing else is. */
  ghost predicate ListedUpTo(list: seq<nat>, slots: seq<Slot>, i: nat) {
    forall j: nat | j < |slots| :: j in list <==> j < i && slots[j].staged.Some?
  }

  lemma ListedNext(list: seq<nat>, slots: seq<Slot>, i: nat)
    requires ListedUpTo(list, slots, i) && i < |slots|
    ensures ListedUpTo(if slots[i].staged.Some? then list + [i] else list, slots, i + 1)
  {
  }

  class Batch {
    var slots: seq<Slot>
    var checked: Option<nat>
    var moves: seq<Move>               // every step so far
    var fault: Fault
    const start: seq<Slot>
    const who: Neighbours
    const replayed: bool

    constructor (files: seq<Slot>, neighbours: Neighbours, replays: bool, failing: Fault)
      requires AllKept(replays, files)
      ensures Safe() && slots == start == files && moves == [] && fault == failing
      ensures who == neighbours && replayed == replays
    {
      slots, checked, moves, fault, start, who, replayed := files, None, [], failing, files, neighbours, replays;
    }

    /** The state is the one that a legal run leads to. */
    ghost predicate Safe()
      reads this
    {
      && AllKept(replayed, start) && Legal(who, replayed, start, moves) && World(slots, checked) == After(start, moves)
      && Ok(who, replayed, World(slots, checked)) && |slots| == |start|
    }

    /** The next step. */
    method Do(m: Move)
      requires Safe() && Enabled(who, replayed, World(slots, checked), m)
      modifies `slots, `checked, `moves
      ensures Safe() && moves == old(moves) + [m] && World(slots, checked) == Act(old(World(slots, checked)), m)
    {
      OneMore(who, replayed, start, moves, m);
      var w := Act(World(slots, checked), m);
      slots, checked, moves := w.slots, w.checked, moves + [m];
      RunKeeps(who, replayed, start, moves);
    }

    method Luck() returns (ok: bool)
      ensures fault != Anywhere ==> ok
    {
      ok := *;
      if fault != Anywhere { ok := true; }
    }

    /** Other programs act as their manners allow. */
    method Interfere() returns (ghost more: seq<Move>)
      requires Safe()
      modifies `slots, `checked, `moves
      ensures Safe() && moves == old(moves) + more && checked == old(checked) && Disturbance(old(slots), more, slots)
      ensures who == Nobody ==> more == []
      ensures who == Polite && checked.Some? ==> !Touched(more, checked.value)
    {
      more := [];
      var n: nat := *;
      while n > 0
        invariant Safe() && moves == old(moves) + more && checked == old(checked)
        invariant Disturbance(old(slots), more, slots)
        invariant who == Nobody ==> more == []
        invariant who == Polite && checked.Some? ==> !Touched(more, checked.value)
      {
        var i: nat, id: nat := *, *;
        if i < |slots| && slots[i].original.None? && who != Nobody && (who == Polite ==> checked != Some(i)) {
          OneMoreAppears(old(slots), more, slots, i, id);
          Do(Appears(i, id));
          more := more + [Appears(i, id)];
        }
        n := n - 1;
      }
    }

    /** The same, where it does not matter what they do. */
    method Others()
      requires Safe()
      modifies `slots, `checked, `moves
      ensures Safe() && old(moves) <= moves && |slots| == old(|slots|)
      ensures forall j | 0 <= j < |slots| :: Disturbed(old(slots)[j], slots[j])
      ensures who == Nobody ==> slots == old(slots)
    {
      ghost var more := Interfere();
      DisturbanceMeans(old(slots), more, slots);
    }

    /** The end of rollbackMissingOK, once the original path is found empty. */
    method CheckedRename(i: nat) returns (ok: bool, ghost window: seq<Move>, ghost lost: bool)
      requires Safe() && i < |slots| && slots[i].staged.Some? && slots[i].original.None?
        && (slots[i].row == Gone ==> replayed)
      modifies `slots, `checked, `moves
      ensures Safe() && |slots| == old(|slots|)
      ensures moves == old(moves) + [Checks(i)] + window + [if ok then Restores(i) else Stops]
      ensures who == Nobody ==> window == []
      ensures who == Polite ==> !Touched(window, i)
      ensures forall j | 0 <= j < |slots| && j != i :: Disturbed(old(slots)[j], slots[j])
      ensures if ok then slots[i] == Renamed(old(slots)[i]) else Disturbed(old(slots)[i], slots[i])
      ensures lost == (ok && Touched(window, i)) == Overwritten(start, moves, i)
      ensures fault != Anywhere ==> ok
      ensures who == Nobody && ok ==> slots == old(slots)[i := Renamed(old(slots)[i])]
    {
      Do(Checks(i));
      window := Interfere();
      DisturbanceMeans(old(slots), window, slots);
      assert Touched(window, i) <==> Replacement(slots[i].original);
      ok := Luck();
      lost := ok && Replacement(slots[i].original);
      ghost var so := moves;
      if ok { Do(Restores(i)); } else { Do(Stops); }
      assert moves[..|moves| - 1] == so;
    }

    /** rollbackMissingOK. `before` and `window` are what other programs create before the check that the original
        path is empty, and between this check and the rename. The rename takes a replacement from the path exactly
        when something is staged, the path was empty at the check, and a file was created there in the window. */
    method RestoreMissingOK(i: nat)
        returns (ok: bool, ghost before: seq<Move>, ghost window: seq<Move>, ghost lost: bool)
      requires Safe() && i < |slots| && (slots[i].row == Gone ==> replayed)
      modifies `slots, `checked, `moves
      ensures Safe() && old(moves) <= moves && |slots| == old(|slots|)
      ensures who == Nobody ==> before == window == []
      ensures who == Polite ==> !Touched(window, i)
      ensures forall j | 0 <= j < |slots| && j != i :: Disturbed(old(slots)[j], slots[j])
      ensures !ok || old(slots)[i].staged.None? ==> Disturbed(old(slots)[i], slots[i]) && !lost
      ensures ok && old(slots)[i].staged.Some? ==>
        && old(slots)[i].original.None? && !Touched(before, i) && slots[i] == Renamed(old(slots)[i])
        && moves == old(moves) + before + [Checks(i)] + window + [Restores(i)] && lost == Touched(window, i)
      ensures fault != Anywhere ==>
        ok == (old(slots)[i].staged.None? || (old(slots)[i].original.None? && !Touched(before, i)))
      ensures fault != Anywhere ==>
        lost == (old(slots)[i].staged.Some? && old(slots)[i].original.None? && !Touched(before, i)
          && Touched(window, i))
      ensures lost ==> Overwritten(start, moves, i)
      ensures fault != Anywhere && who == Nobody ==> slots == old(slots)[i := Back(old(slots)[i])]
    {
      before, window, lost := [], [], false;
      ok := Luck();
      if !ok || slots[i].staged.None? { return; }
      before := Interfere();
      DisturbanceMeans(old(slots), before, slots);
      ok := Luck();
      if !ok { return; }
      if slots[i].original.Some? { ok := false; return; }
      ok, window, lost := CheckedRename(i);
    }

    /** commitMissingOK, which only runs once the row is gone. */
    method PurgeMissingOK(i: nat) returns (ok: bool)
      requires Safe() && i < |slots| && slots[i].row == Gone
      modifies `slots, `checked, `moves
      ensures Safe() && old(moves) <= moves && |slots| == old(|slots|)
      ensures forall j | 0 <= j < |slots| && j != i :: Disturbed(old(slots)[j], slots[j])
      ensures Disturbed(if ok then old(slots)[i].(staged := None) else old(slots)[i], slots[i])
      ensures forall j | 0 <= j < |slots| ::
        Swept(old(slots)[j], slots[j]) && (slots[j].staged.Some? ==> old(slots)[j].staged.Some?)
      ensures ok ==> slots[i].staged.None?
      ensures fault != Anywhere ==> ok
      ensures fault != Anywhere && who == Nobody ==> slots == old(slots)[i := old(slots)[i].(staged := None)]
    {
      ok := Luck();
      if !ok || slots[i].staged.None? { return; }
      Others();
      ok := Luck();
      if ok { Do(Purges(i)); }
    }

    /** stage: a missing original is no error. */
    method Stage(i: nat) returns (ok: bool)
      requires Safe() && i < |slots| && slots[i].row == Here && slots[i].staged.None?
      modifies `slots, `checked, `moves
      ensures Safe() && old(moves) <= moves && |slots| == old(|slots|)
      ensures slots == old(slots)[i := if ok && slots[i] != old(slots)[i] then Staged(old(slots)[i]) else old(slots)[i]]
      ensures ok && old(slots)[i].original.Some? ==> slots[i] == Staged(old(slots)[i])
      ensures fault != Anywhere ==> ok
    {
      ok := Luck();
      if ok && slots[i].original.Some? { Do(Stages(i)); }
    }

    /** rollbackFlatStagedFiles: backwards through the list, whatever fails. */
    method Rollback(list: seq<nat>)
      requires Safe() && forall k | 0 <= k < |list| :: list[k] < |slots| && (slots[list[k]].row == Gone ==> replayed)
      modifies `slots, `checked, `moves
      ensures Safe() && old(moves) <= moves && |slots| == old(|slots|)
      ensures fault != Anywhere && who == Nobody ==>
        forall j | 0 <= j < |slots| :: slots[j] == if j in list then Back(old(slots)[j]) else old(slots)[j]
    {
      var index: nat := |list|;
      while index > 0
        invariant index <= |list| && Safe() && old(moves) <= moves && |slots| == old(|slots|)
        invariant forall j | 0 <= j < |slots| :: slots[j].row == old(slots)[j].row
        invariant fault != Anywhere && who == Nobody ==>
          forall j | 0 <= j < |slots| :: slots[j] == if j in list[index..] then Back(old(slots)[j]) else old(slots)[j]
      {
        index := index - 1;
        assert list[index..] == [list[index]] + list[index + 1..];
        var restored;
        ghost var before, window, lost;
        restored, before, window, lost := RestoreMissingOK(list[index]);
      }
      assert list[0..] == list;
    }

    /** One file before the database commit: staged already, unknown to the library, or staged now. */
    method StageOne(i: nat) returns (ok: bool, listed: bool)
      requires Safe() && i < |slots| && (slots[i].row == Gone && slots[i].staged.Some? ==> replayed)
      modifies `slots, `checked, `moves
      ensures Safe() && old(moves) <= moves && |slots| == old(|slots|)
      ensures forall j | 0 <= j < |slots| ::
        slots[j].row == old(slots)[j].row && slots[j].present == old(slots)[j].present
      ensures forall j | 0 <= j < |slots| && j != i :: slots[j].staged == old(slots)[j].staged
      ensures listed ==> slots[i].row == Gone ==> replayed
      ensures ok && slots[i].row == Here && slots[i].present ==> slots[i].staged == Some(Own)
      ensures ok && slots[i].staged.Some? ==> listed
      ensures fault == At(i) ==> !ok && !listed
      ensures
        && fault != Anywhere && fault != At(i) && who == Nobody && slots[i].row != Elsewhere
        && old(slots)[i].staged.None? ==>
        ok && slots == old(slots)[i := Removed(old(slots)[i]).(row := old(slots)[i].row)]
      ensures who == Nobody && old(slots)[i].row == Gone ==> slots == old(slots)
      ensures
        && fault != Anywhere && fault != At(i) && who == Nobody && old(slots)[i].staged.Some? ==>
        && slots == old(slots) && ok == listed
        && (listed <==> old(slots)[i].original.None? || old(slots)[i].row == Gone)
      ensures fault != Anywhere && fault != At(i) && who == Nobody && slots[i].row == Gone
        ==> ok && listed == slots[i].staged.Some?
    {
      listed := false;
      Others();
      ok := Luck();
      if !ok || fault == At(i) { ok := false; return; }
      if slots[i].staged.Some? {
        listed := !(slots[i].original.Some? && slots[i].row != Gone);
        return listed, listed;
      }
      match slots[i].row {
        case Gone =>
        case Elsewhere => ok := false;
        case Here =>
          ok := StageTracked(i);
          listed := ok;
      }
    }

    /** Others may still act before the rename. */
    method StageTracked(i: nat) returns (ok: bool)
      requires Safe() && i < |slots| && slots[i].row == Here && slots[i].staged.None?
      modifies `slots, `checked, `moves
      ensures Safe() && old(moves) <= moves && |slots| == old(|slots|)
      ensures forall j | 0 <= j < |slots| ::
        slots[j].row == old(slots)[j].row && slots[j].present == old(slots)[j].present
      ensures forall j | 0 <= j < |slots| && j != i :: slots[j].staged == old(slots)[j].staged
      ensures ok && slots[i].present ==> slots[i].staged == Some(Own)
      ensures !ok ==> slots[i].staged.None?
      ensures fault != Anywhere ==> ok
      ensures fault != Anywhere && who == Nobody ==>
        slots == old(slots)[i := Removed(old(slots)[i]).(row := Here)]
    {
      Others();
      ok := Stage(i);
    }

    /** One round of the loop below. `was`: the files before the loop. */
    method StageNext(list: seq<nat>, i: nat, ghost was: seq<Slot>) returns (ok: bool, more: seq<nat>)
      requires Safe() && i < |slots| && (replayed || slots[i].row != Gone || slots[i].staged.None?)
      requires SameRows(was, slots) && SameStaged(was, slots, i) && Removable(list) && ReadyUpTo(slots, list, i)
      modifies `slots, `checked, `moves
      ensures Safe() && old(moves) <= moves && |slots| == old(|slots|)
      ensures SameRows(was, slots) && SameStaged(was, slots, i + 1) && Removable(more)
      ensures if ok then ReadyUpTo(slots, more, i + 1) else more == list
      ensures fault == Never && who == Nobody && Fresh(was) && PreparedUpTo(was, old(slots), i) ==>
        ok && PreparedUpTo(was, slots, i + 1)
      ensures fault.At? && who == Nobody && AllGone(old(slots)) ==>
        && ok == (i != fault.file) && slots == old(slots)
        && (ListedUpTo(list, slots, i) && ok ==> ListedUpTo(more, slots, i + 1))
    {
      var listed: bool;
      ok, listed := StageOne(i);
      more := if ok && listed then list + [i] else list;
      if ok { ReadyNext(old(slots), slots, list, more, i); }
      if fault == Never && who == Nobody && Fresh(was) && PreparedUpTo(was, old(slots), i) {
        PreparedNext(was, old(slots), slots, i);
      }
      if ok && fault.At? && who == Nobody && AllGone(slots) && ListedUpTo(list, slots, i) {
        ListedNext(list, slots, i);
      }
    }

    /** What the rollback may be given. */
    ghost predicate Removable(list: seq<nat>)
      reads this
    {
      forall k | 0 <= k < |list| :: list[k] < |slots| && (slots[list[k]].row == Gone ==> replayed)
    }

    /** The part of an attempt before the database commit: every file that the library still has is staged. */
    method StageAll() returns (ok: bool, list: seq<nat>)
      requires Safe() && (replayed || forall i | 0 <= i < |slots| :: slots[i].row == Gone ==> slots[i].staged.None?)
      modifies `slots, `checked, `moves
      ensures Safe() && old(moves) <= moves && |slots| == old(|slots|)
      ensures Removable(list) && SameRows(old(slots), slots)
      ensures ok ==> ReadyUpTo(slots, list, |slots|)
      ensures fault == Never && who == Nobody && Fresh(old(slots)) ==>
        ok && PreparedUpTo(old(slots), slots, |slots|)
      ensures fault.At? && fault.file < |slots| && who == Nobody && AllGone(old(slots)) ==>
        !ok && slots == old(slots) && ListedUpTo(list, slots, fault.file)
    {
      list := [];
      var i := 0;
      while i < |slots|
        invariant i <= |slots| == old(|slots|) && Safe() && old(moves) <= moves
        invariant SameRows(old(slots), slots) && SameStaged(old(slots), slots, i) && Removable(list)
        invariant ReadyUpTo(slots, list, i)
        invariant fault == Never && who == Nobody && Fresh(old(slots)) ==> PreparedUpTo(old(slots), slots, i)
        invariant fault.At? && who == Nobody && AllGone(old(slots)) ==>
          (fault.file < |slots| ==> i <= fault.file) && slots == old(slots) && ListedUpTo(list, slots, i)
      {
        ok, list := StageNext(list, i, old(slots));
        if !ok { return; }
        i := i + 1;
      }
      ok := true;
    }

    /** The transaction that deletes every row of the batch: all of them or, when it fails, none. */
    method DeleteRows()
      requires Safe() && forall j | 0 <= j < |slots| ::
        slots[j].row == Here && slots[j].present ==> slots[j].staged == Some(Own)
      modifies `slots, `checked, `moves
      ensures Safe() && moves == old(moves) + [DeletesRows] && |slots| == old(|slots|)
      ensures forall j | 0 <= j < |slots| :: slots[j] == old(slots)[j].(row := Gone)
    {
      Do(DeletesRows);
    }

    /** Removing the staged files after the rows. */
    method Commit(list: seq<nat>) returns (ok: bool)
      requires Safe() && (forall k | 0 <= k < |list| :: list[k] < |slots|) && AllGone(slots)
      requires forall j | 0 <= j < |slots| :: slots[j].staged.Some? ==> j in list
      modifies `slots, `checked, `moves
      ensures Safe() && old(moves) <= moves && |slots| == old(|slots|)
      ensures forall j | 0 <= j < |slots| :: Swept(old(slots)[j], slots[j])
      ensures ok ==> forall j | 0 <= j < |slots| :: slots[j].staged.None?
      ensures fault != Anywhere ==> ok
    {
      var k := 0;
      while k < |list|
        invariant k <= |list| && Safe() && old(moves) <= moves && |slots| == old(|slots|)
        invariant forall j | 0 <= j < |slots| :: Swept(old(slots)[j], slots[j])
        invariant forall j | 0 <= j < |slots| :: slots[j].staged.Some? ==> j in list[k..]
      {
        assert list[k..] == [list[k]] + list[k + 1..];
        ok := PurgeMissingOK(list[k]);
        if !ok { return; }
        k := k + 1;
      }
      ok := true;
    }

    /** The rows and then the staged files. `at`: the number of steps up to the commit of the rows. */
    method Finish(list: seq<nat>) returns (ok: bool, at: nat)
      requires Safe() && (forall k | 0 <= k < |list| :: list[k] < |slots|)
      requires forall j | 0 <= j < |slots| :: slots[j].row == Here && slots[j].present ==> slots[j].staged == Some(Own)
      requires forall j | 0 <= j < |slots| :: slots[j].staged.Some? ==> j in list
      modifies `slots, `checked, `moves
      ensures Safe() && old(moves) <= moves && |slots| == old(|slots|)
      ensures forall j | 0 <= j < |slots| :: Swept(old(slots)[j].(row := Gone), slots[j])
      ensures ok ==> forall j | 0 <= j < |slots| :: slots[j].staged.None?
      ensures fault != Anywhere ==> ok
      ensures at <= |moves| && |After(start, moves[..at]).slots| == |slots|
      ensures forall j | 0 <= j < |slots| :: After(start, moves[..at]).slots[j] == old(slots)[j].(row := Gone)
    {
      DeleteRows();
      at := |moves|;
      ghost var committed := moves;
      ok := Commit(list);
      assert moves[..at] == committed;
    }

    /** resumeManagedFileDeletionBatch. When it succeeds the library has none of the files, no staged entry is left
        and the tracked bytes are gone. */
    method Attempt() returns (ok: bool, at: nat)
      requires Safe() && (replayed || forall i | 0 <= i < |slots| :: slots[i].row == Gone ==> slots[i].staged.None?)
      modifies `slots, `checked, `moves
      ensures Safe() && old(moves) <= moves && |slots| == old(|slots|)
      ensures ok ==> AllGone(slots) && forall j | 0 <= j < |slots| :: slots[j].staged.None?
      ensures ok ==> forall j | 0 <= j < |slots| ::
        old(slots)[j].present && old(slots)[j].row == Here ==> slots[j].original != Some(Own)
      ensures ok ==> at <= |moves| && AllGone(After(start, moves[..at]).slots)
      ensures fault == Never && who == Nobody && Fresh(old(slots)) ==>
        && ok && |After(start, moves[..at]).slots| == |slots|
        && (forall j | 0 <= j < |slots| :: After(start, moves[..at]).slots[j] == Removed(old(slots)[j]))
      ensures fault.At? && fault.file < |slots| && who == Nobody && AllGone(old(slots)) ==>
        && !ok
        && (forall j | 0 <= j < |slots| :: slots[j] == if j < fault.file then Back(old(slots)[j]) else old(slots)[j])
    {
      var list: seq<nat>;
      at := 0;
      ok, list := StageAll();
      if !ok { Rollback(list); return; }
      Others();
      ok := Luck();
      if !ok { Rollback(list); return; }
      ok, at := Finish(list);
    }

    /** reconcileCanceledStagedFileRemoval */
    method Reconcile(i: nat) returns (ok: bool)
      requires Safe() && i < |slots|
      modifies `slots, `checked, `moves
      ensures Safe() && old(moves) <= moves && |slots| == old(|slots|)
      ensures forall j | 0 <= j < |slots| && j != i :: Disturbed(old(slots)[j], slots[j])
      ensures slots[i].row == old(slots)[i].row && slots[i].present == old(slots)[i].present
      ensures ok ==> slots[i].staged.None?
      ensures fault != Anywhere && who == Nobody ==> slots == old(slots)[i := Reconciled(old(slots)[i])]
      ensures fault != Anywhere && who == Nobody ==> ok == slots[i].staged.None?
    {
      ok := Luck();
      if !ok || slots[i].staged.None? { return; }
      Others();
      ok := Luck();
      if !ok { return; }
      match slots[i].row {
        case Gone => ok := PurgeMissingOK(i);
        case Elsewhere => ok := false;
        case Here =>
          ghost var before, window, lost;
          ok, before, window, lost := RestoreMissingOK(i);
      }
    }

    /** cleanupCanceledFileRemoval. When it succeeds nothing is staged any more, and every tracked file whose
        bytes existed is back at its original path; undisturbed it does all it can for every file. */
    method Cleanup() returns (ok: bool)
      requires Safe()
      modifies `slots, `checked, `moves
      ensures Safe() && old(moves) <= moves && |slots| == old(|slots|)
      ensures forall j | 0 <= j < |slots| ::
        slots[j].row == old(slots)[j].row && slots[j].present == old(slots)[j].present
      ensures ok ==> forall j | 0 <= j < |slots| ::
        slots[j].staged.None? && (slots[j].present && slots[j].row == Here ==> slots[j].original == Some(Own))
      ensures fault != Anywhere && who == Nobody
        ==> forall j | 0 <= j < |slots| :: slots[j] == Reconciled(old(slots)[j])
    {
      ok := true;
      var i := 0;
      while i < |slots|
        invariant i <= |slots| == old(|slots|) && Safe() && old(moves) <= moves
        invariant forall j | 0 <= j < |slots| ::
          slots[j].row == old(slots)[j].row && slots[j].present == old(slots)[j].present
        invariant ok ==> forall j | 0 <= j < i :: slots[j].staged.None?
        invariant fault != Anywhere && who == Nobody ==>
          && (forall j | 0 <= j < i :: slots[j] == Reconciled(old(slots)[j]))
          && (forall j | i <= j < |slots| :: slots[j] == old(slots)[j])
      {
        var done := Reconcile(i);
        ok := ok && done;
        i := i + 1;
      }
    }

    /** The process stops after some step: what would have come later never happens. */
    method Crash(k: nat)
      requires Safe() && k <= |moves|
      modifies `slots, `checked, `moves
      ensures Safe() && moves == old(moves)[..k] + [Stops] && slots == After(start, old(moves)[..k]).slots
    {
      LegalPrefix(who, replayed, start, moves, k);
      moves := moves[..k];
      RunKeeps(who, replayed, start, moves);
      var w := After(start, moves);
      slots, checked := w.slots, w.checked;
      Do(Stops);
    }
  }

  /** Nothing is staged, and no file is tracked at another path. */
  ghost predicate Fresh(slots: seq<Slot>) {
    forall j | 0 <= j < |slots| :: slots[j].row != Elsewhere && slots[j].staged.None?
  }

  ghost predicate AllGone(slots: seq<Slot>) { forall j | 0 <= j < |slots| :: slots[j].row == Gone }

  /** Why a committed deletion must not be replayed. A batch of tracked files is deleted, undisturbed; the process
      stops just after the rows are deleted; the attempt is made again, fails on file f and rolls back; the cleanup
      finds nothing to do for the files before f. So they lie at their original paths, deleted. */
  method ReplayRevivesDeletedFiles(n: nat, f: nat) returns (final: seq<Slot>, ghost moves: seq<Move>)
    requires f < n
    ensures var start := seq(n, _ => Slot(Some(Own), None, Here, true));
      && AllKept(true, start) && Legal(Nobody, true, start, moves) && final == After(start, moves).slots && |final| == n
      && (forall j | 0 <= j < f :: final[j] == Slot(Some(Own), None, Gone, true))
      && (forall j | f <= j < n :: final[j] == Slot(None, None, Gone, true))
  {
    var batch := new Batch(seq(n, _ => Slot(Some(Own), None, Here, true)), Nobody, true, Never);
    var ok, at := batch.Attempt();
    batch.Crash(at);
    batch.fault := At(f);
    ok, at := batch.Attempt();
    batch.fault := Never;
    ok := batch.Cleanup();
    final, moves := batch.slots, batch.moves;
  }

  /** One delete attempt and then any number of cleanups (and, where the policy does not forbid them, replays), each
      cut short at any step or failing anywhere, among neighbours of any kind: all that happens is one legal run. A
      final undisturbed cleanup purges what is untracked and puts back what is tracked, except over a replacement. */
  method AnyDeletion(start: seq<Slot>, who: Neighbours, replayed: bool, rounds: nat)
    returns (final: seq<Slot>, ghost moves: seq<Move>)
    requires AllKept(replayed, start) && forall i | 0 <= i < |start| :: start[i].staged.None?
    ensures Legal(who, replayed, start, moves) && |final| == |After(start, moves).slots| == |start|
    ensures forall i | 0 <= i < |start| :: final[i] == Reconciled(After(start, moves).slots[i])
    ensures forall i | 0 <= i < |start| :: final[i].present && final[i].row == Gone ==>
      final[i].staged.None? && (!replayed ==> final[i].original != Some(Own))
    ensures forall i | 0 <= i < |start| :: final[i].present && final[i].row == Here ==>
      (final[i].original == Some(Own) && final[i].staged.None?)
        || (Replacement(final[i].original) && final[i].staged == Some(Own))
  {
    var batch := new Batch(start, who, replayed, Anywhere);
    var round := 0;
    while round < rounds
      invariant batch.Safe() && fresh(batch) && batch.who == who && batch.replayed == replayed && batch.start == start
      invariant round == 0 ==> batch.slots == start
    {
      var again, crash, k := *, *, *;
      var ok: bool;
      if round == 0 || (again && replayed) {
        var at;
        ok, at := batch.Attempt();
      } else {
        ok := batch.Cleanup();
      }
      if crash && 0 <= k <= |batch.moves| { batch.Crash(k); }
      round := round + 1;
    }
    moves := batch.moves;
    var last := new Batch(batch.slots, Nobody, replayed, Never);
    var ok := last.Cleanup();
    final := last.slots;
  }
}
