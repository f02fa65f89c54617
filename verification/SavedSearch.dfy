/** Expanding @saved: references into the queries they name. Parsing is a parameter: any function that turns
    stored text into a query or rejects it. */
module SavedSearch {
  import opened Basics
  import opened QueryAst

  datatype Error = Cycle | Unresolved | Unparsed | Malformed

  datatype Outcome<+T> = Done(value: T) | Failed(error: Error) {
    predicate IsFailure() { Failed? }
    function PropagateFailure<U>(): Outcome<U> requires Failed? { Failed(error) }
    function Extract(): T requires Done? { value }
  }

  /** The saved searches of a user by folded name, and the parser. */
  datatype Env = Env(saved: map<string, string>, parse: string -> Option<Expression>)

  /** Every file is tagged or not tagged: what an empty saved search stands for. */
  const ALL_FILES := "(@tagged | -@tagged)"

  /** Is the tag expanded? The test is on the text, before the name is trimmed. */
  predicate IsReference(tag: string) { HasPrefix(Fold(tag), "@saved:") }

  /** The folded name a reference asks for; none when it is malformed. */
  function NameOf(tag: string): Option<string>
    requires IsReference(tag)
  {
    match ParseMetaTag(tag)
    case Some(Saved(value)) => Some(Fold(TrimSpace(value)))
    case _ => None
  }

  function Body(env: Env, name: string): Option<Expression> {
    if name !in env.saved then None
    else env.parse(if TrimSpace(env.saved[name]) == "" then ALL_FILES else env.saved[name])
  }

  /** Names that may still be opened: the first part of the termination measure. */
  function Unopened(env: Env, stack: seq<string>): set<string> { set n | n in env.saved && n !in stack }

  lemma OpenedLess(env: Env, stack: seq<string>, name: string)
    requires name in env.saved && name !in stack
    ensures |Unopened(env, stack + [name])| < |Unopened(env, stack)|
  {
    assert Unopened(env, stack) == Unopened(env, stack + [name]) + {name};
  }

  function Expand(env: Env, e: Expression, stack: seq<string>): Outcome<Expression>
    decreases |Unopened(env, stack)|, e, |e.or| + 1
  {
    var or :- ExpandOr(env, e, 0, stack);
    Done(Expression(or))
  }

  function ExpandOr(env: Env, e: Expression, i: nat, stack: seq<string>): Outcome<seq<AndTerm>>
    requires i <= |e.or|
    decreases |Unopened(env, stack)|, e, |e.or| - i
  {
    if i == |e.or| then Done([])
    else
      var and :- ExpandAnd(env, e.or[i], 0, stack);
      var more :- ExpandOr(env, e, i + 1, stack);
      Done([AndTerm(and)] + more)
  }

  function ExpandAnd(env: Env, a: AndTerm, j: nat, stack: seq<string>): Outcome<seq<Term>>
    requires j <= |a.and|
    decreases |Unopened(env, stack)|, a, |a.and| - j
  {
    if j == |a.and| then Done([])
    else
      var factor :- ExpandFactor(env, a.and[j].factor, stack);
      var more :- ExpandAnd(env, a, j + 1, stack);
      Done([Term(a.and[j].not, factor)] + more)
  }

  function ExpandFactor(env: Env, f: Factor, stack: seq<string>): Outcome<Factor>
    decreases |Unopened(env, stack)|, f, 0
  {
    match f
    case Sub(e) => var x :- Expand(env, e, stack); Done(Sub(x))
    case Tag(tag) =>
      if !IsReference(tag) then Done(f)
      else
        match NameOf(tag)
        case None => Failed(Malformed)
        case Some(name) =>
          if name in stack then Failed(Cycle)
          else if name !in env.saved then Failed(Unresolved)
          else
            match Body(env, name)
            case None => Failed(Unparsed)
            case Some(body) =>
              OpenedLess(env, stack, name);
              var x :- Expand(env, body, stack + [name]);
              Done(Sub(x))
  }

  // ---------------------------------------------------------------- no reference is left

  predicate Plain(e: Expression) { forall i | 0 <= i < |e.or| :: PlainAnd(e.or[i]) }

  predicate PlainAnd(a: AndTerm) { forall j | 0 <= j < |a.and| :: PlainFactor(a.and[j].factor) }

  predicate PlainFactor(f: Factor) {
    match f case Tag(tag) => !IsReference(tag) case Sub(e) => Plain(e)
  }

  lemma {:induction false} ExpandedIsPlain(env: Env, e: Expression, stack: seq<string>)
    requires Expand(env, e, stack).Done?
    ensures Plain(Expand(env, e, stack).value)
    decreases |Unopened(env, stack)|, e, |e.or| + 1
  {
    ExpandedOrIsPlain(env, e, 0, stack);
  }

  lemma {:induction false} ExpandedOrIsPlain(env: Env, e: Expression, i: nat, stack: seq<string>)
    requires i <= |e.or| && ExpandOr(env, e, i, stack).Done?
    ensures var or := ExpandOr(env, e, i, stack).value; forall k | 0 <= k < |or| :: PlainAnd(or[k])
    decreases |Unopened(env, stack)|, e, |e.or| - i
  {
    if i < |e.or| {
      ExpandedAndIsPlain(env, e.or[i], 0, stack);
      ExpandedOrIsPlain(env, e, i + 1, stack);
    }
  }

  lemma {:induction false} ExpandedAndIsPlain(env: Env, a: AndTerm, j: nat, stack: seq<string>)
    requires j <= |a.and| && ExpandAnd(env, a, j, stack).Done?
    ensures var and := ExpandAnd(env, a, j, stack).value; forall k | 0 <= k < |and| :: PlainFactor(and[k].factor)
    decreases |Unopened(env, stack)|, a, |a.and| - j
  {
    if j < |a.and| {
      ExpandedFactorIsPlain(env, a.and[j].factor, stack);
      ExpandedAndIsPlain(env, a, j + 1, stack);
    }
  }

  lemma {:induction false} ExpandedFactorIsPlain(env: Env, f: Factor, stack: seq<string>)
    requires ExpandFactor(env, f, stack).Done?
    ensures PlainFactor(ExpandFactor(env, f, stack).value)
    decreases |Unopened(env, stack)|, f, 0
  {
    match f
    case Sub(e) => ExpandedIsPlain(env, e, stack);
    case Tag(tag) =>
      if IsReference(tag) {
        var name := NameOf(tag).value;
        OpenedLess(env, stack, name);
        ExpandedIsPlain(env, Body(env, name).value, stack + [name]);
      }
  }

  // ---------------------------------------------------------------- the meaning of references

  /** What a query with references selects, opening each reference where it stands. */
  predicate Means(env: Env, lib: Library, mode: Target, e: Expression, stack: seq<string>, x: Item)
    requires InUniverse(lib, mode, x)
    decreases |Unopened(env, stack)|, e, 1
  {
    exists i | 0 <= i < |e.or| :: MeansAll(env, lib, mode, e.or[i], stack, x)
  }

  predicate MeansAll(env: Env, lib: Library, mode: Target, a: AndTerm, stack: seq<string>, x: Item)
    requires InUniverse(lib, mode, x)
    decreases |Unopened(env, stack)|, a, 1
  {
    forall j | 0 <= j < |a.and| :: a.and[j].not != MeansFactor(env, lib, mode, a.and[j].factor, stack, x)
  }

  predicate MeansFactor(env: Env, lib: Library, mode: Target, f: Factor, stack: seq<string>, x: Item)
    requires InUniverse(lib, mode, x)
    decreases |Unopened(env, stack)|, f, 0
  {
    match f
    case Sub(e) => Means(env, lib, mode, e, stack, x)
    case Tag(tag) =>
      if IsReference(tag) then
        NameOf(tag).Some? && NameOf(tag).value in env.saved && NameOf(tag).value !in stack &&
        Body(env, NameOf(tag).value).Some? &&
        (OpenedLess(env, stack, NameOf(tag).value);
         Means(env, lib, mode, Body(env, NameOf(tag).value).value, stack + [NameOf(tag).value], x))
      else Answers(lib, mode, Asked(tag), x)
  }

  /** The expanded query selects what the references mean; grouping keeps every precedence. */
  lemma {:induction false} ExpandKeepsMeaning(env: Env, lib: Library, mode: Target, e: Expression, stack: seq<string>,
      x: Item)
    requires InUniverse(lib, mode, x) && Expand(env, e, stack).Done?
    ensures Selects(lib, mode, Expand(env, e, stack).value, x) == Means(env, lib, mode, e, stack, x)
    decreases |Unopened(env, stack)|, e, |e.or| + 1
  {
    ExpandOrKeepsMeaning(env, lib, mode, e, 0, stack, x);
    SomeSame(env, lib, mode, Expression(ExpandOr(env, e, 0, stack).value), e, stack, x);
  }

  lemma SomeSame(env: Env, lib: Library, mode: Target, d: Expression, e: Expression, stack: seq<string>, x: Item)
    requires InUniverse(lib, mode, x) && |d.or| == |e.or|
    requires forall k | 0 <= k < |d.or| ::
      SelectsAll(lib, mode, d.or[k], x) == MeansAll(env, lib, mode, e.or[0 + k], stack, x)
    ensures Selects(lib, mode, d, x) == Means(env, lib, mode, e, stack, x)
  {
    forall k | 0 <= k < |d.or|
      ensures SelectsAll(lib, mode, d.or[k], x) == MeansAll(env, lib, mode, e.or[k], stack, x) {
      assert e.or[0 + k] == e.or[k];
    }
  }

  lemma {:induction false} ExpandOrKeepsMeaning(env: Env, lib: Library, mode: Target, e: Expression, i: nat,
      stack: seq<string>, x: Item)
    requires InUniverse(lib, mode, x) && i <= |e.or| && ExpandOr(env, e, i, stack).Done?
    ensures var or := ExpandOr(env, e, i, stack).value;
      && |or| == |e.or| - i
      && forall k | 0 <= k < |or| :: SelectsAll(lib, mode, or[k], x) == MeansAll(env, lib, mode, e.or[i + k], stack, x)
    decreases |Unopened(env, stack)|, e, |e.or| - i
  {
    if i < |e.or| {
      ExpandAndKeepsMeaning(env, lib, mode, e.or[i], 0, stack, x);
      ExpandOrKeepsMeaning(env, lib, mode, e, i + 1, stack, x);
      var first, more := AndTerm(ExpandAnd(env, e.or[i], 0, stack).value), ExpandOr(env, e, i + 1, stack).value;
      SameAll(env, lib, mode, first, e.or[i], stack, x);
      OneMoreMeans(env, lib, mode, first, more, e, i, stack, x);
    }
  }

  lemma OneMoreMeans(env: Env, lib: Library, mode: Target, first: AndTerm, more: seq<AndTerm>, e: Expression, i: nat,
      stack: seq<string>, x: Item)
    requires InUniverse(lib, mode, x) && i + 1 + |more| == |e.or|
    requires SelectsAll(lib, mode, first, x) == MeansAll(env, lib, mode, e.or[i], stack, x)
    requires forall k | 0 <= k < |more| ::
      SelectsAll(lib, mode, more[k], x) == MeansAll(env, lib, mode, e.or[i + 1 + k], stack, x)
    ensures forall k | 0 <= k < |more| + 1 ::
      SelectsAll(lib, mode, ([first] + more)[k], x) == MeansAll(env, lib, mode, e.or[i + k], stack, x)
  {
    forall k | 0 <= k < |more| + 1
      ensures SelectsAll(lib, mode, ([first] + more)[k], x) == MeansAll(env, lib, mode, e.or[i + k], stack, x) {
      if k > 0 { assert e.or[i + 1 + (k - 1)] == e.or[i + k]; }
    }
  }

  lemma SameAll(env: Env, lib: Library, mode: Target, a: AndTerm, b: AndTerm, stack: seq<string>, x: Item)
    requires InUniverse(lib, mode, x) && |a.and| == |b.and|
    requires forall k | 0 <= k < |a.and| ::
      && a.and[k].not == b.and[0 + k].not
      && SelectsFactor(lib, mode, a.and[k].factor, x) == MeansFactor(env, lib, mode, b.and[0 + k].factor, stack, x)
    ensures SelectsAll(lib, mode, a, x) == MeansAll(env, lib, mode, b, stack, x)
  {
    forall k | 0 <= k < |a.and|
      ensures (a.and[k].not != SelectsFactor(lib, mode, a.and[k].factor, x))
        == (b.and[k].not != MeansFactor(env, lib, mode, b.and[k].factor, stack, x)) {
      assert b.and[0 + k] == b.and[k];
    }
  }

  lemma {:induction false} ExpandAndKeepsMeaning(env: Env, lib: Library, mode: Target, a: AndTerm, j: nat,
      stack: seq<string>, x: Item)
    requires InUniverse(lib, mode, x) && j <= |a.and| && ExpandAnd(env, a, j, stack).Done?
    ensures var and := ExpandAnd(env, a, j, stack).value;
      && |and| == |a.and| - j
      && forall k | 0 <= k < |and| ::
        && and[k].not == a.and[j + k].not
        && SelectsFactor(lib, mode, and[k].factor, x) == MeansFactor(env, lib, mode, a.and[j + k].factor, stack, x)
    decreases |Unopened(env, stack)|, a, |a.and| - j
  {
    if j < |a.and| {
      ExpandFactorKeepsMeaning(env, lib, mode, a.and[j].factor, stack, x);
      ExpandAndKeepsMeaning(env, lib, mode, a, j + 1, stack, x);
      var and, more := ExpandAnd(env, a, j, stack).value, ExpandAnd(env, a, j + 1, stack).value;
      assert and == [Term(a.and[j].not, ExpandFactor(env, a.and[j].factor, stack).value)] + more;
      OneMoreFactor(env, lib, mode, and[0], more, a, j, stack, x);
    }
  }

  lemma OneMoreFactor(env: Env, lib: Library, mode: Target, first: Term, more: seq<Term>, a: AndTerm, j: nat,
      stack: seq<string>, x: Item)
    requires InUniverse(lib, mode, x) && j + 1 + |more| == |a.and| && first.not == a.and[j].not
    requires SelectsFactor(lib, mode, first.factor, x) == MeansFactor(env, lib, mode, a.and[j].factor, stack, x)
    requires forall k | 0 <= k < |more| ::
      && more[k].not == a.and[j + 1 + k].not
      && SelectsFactor(lib, mode, more[k].factor, x) == MeansFactor(env, lib, mode, a.and[j + 1 + k].factor, stack, x)
    ensures var and := [first] + more;
      forall k | 0 <= k < |and| ::
        && and[k].not == a.and[j + k].not
        && SelectsFactor(lib, mode, and[k].factor, x) == MeansFactor(env, lib, mode, a.and[j + k].factor, stack, x)
  {
    var and := [first] + more;
    forall k | 0 <= k < |and|
      ensures and[k].not == a.and[j + k].not
      ensures SelectsFactor(lib, mode, and[k].factor, x)
        == MeansFactor(env, lib, mode, a.and[j + k].factor, stack, x) {
      if k > 0 { assert and[k] == more[k - 1] && a.and[j + 1 + (k - 1)] == a.and[j + k]; }
    }
  }

  lemma {:induction false} ExpandFactorKeepsMeaning(env: Env, lib: Library, mode: Target, f: Factor,
      stack: seq<string>, x: Item)
    requires InUniverse(lib, mode, x) && ExpandFactor(env, f, stack).Done?
    ensures SelectsFactor(lib, mode, ExpandFactor(env, f, stack).value, x) == MeansFactor(env, lib, mode, f, stack, x)
    decreases |Unopened(env, stack)|, f, 0
  {
    match f
    case Sub(e) => ExpandKeepsMeaning(env, lib, mode, e, stack, x);
    case Tag(tag) =>
      if IsReference(tag) {
        var name := NameOf(tag).value;
        OpenedLess(env, stack, name);
        ExpandKeepsMeaning(env, lib, mode, Body(env, name).value, stack + [name], x);
      }
  }

  /** An empty saved search selects every file, given that the parser reads its stand-in as written. */
  lemma EmptyMeansAll(env: Env, lib: Library, mode: Target, name: string, stack: seq<string>, x: Item)
    requires InUniverse(lib, mode, x) && name in env.saved && TrimSpace(env.saved[name]) == ""
    requires env.parse(ALL_FILES) == Some(Expression([AndTerm([Term(false, Sub(Expression([
      AndTerm([Term(false, Tag("@tagged"))]), AndTerm([Term(true, Tag("@tagged"))])])))])]))
    ensures Body(env, name).Some? && Means(env, lib, mode, Body(env, name).value, stack, x)
  {
    var yes, no := AndTerm([Term(false, Tag("@tagged"))]), AndTerm([Term(true, Tag("@tagged"))]);
    var both := Expression([yes, no]);
    var outer := AndTerm([Term(false, Sub(both))]);
    assert Fold("@tagged")[1] == 't' && !IsReference("@tagged");
    assert MeansAll(env, lib, mode, both.or[0], stack, x) || MeansAll(env, lib, mode, both.or[1], stack, x);
    assert Means(env, lib, mode, both, stack, x);
    assert MeansAll(env, lib, mode, Expression([outer]).or[0], stack, x);
  }

  // ---------------------------------------------------------------- when expansion succeeds

  /** The references written in a query; none stands for a malformed one. */
  ghost predicate Refers(e: Expression, name: Option<string>) { exists i | 0 <= i < |e.or| :: RefersAnd(e.or[i], name) }

  ghost predicate RefersAnd(a: AndTerm, name: Option<string>) {
    exists j | 0 <= j < |a.and| :: RefersFactor(a.and[j].factor, name)
  }

  ghost predicate RefersFactor(f: Factor, name: Option<string>) {
    match f case Tag(tag) => IsReference(tag) && NameOf(tag) == name case Sub(e) => Refers(e, name)
  }

  predicate Opens(env: Env, name: Option<string>) { name.Some? && Body(env, name.value).Some? }

  /** A chain of references: each one is written in the body of the one before. */
  ghost predicate Chain(env: Env, e: Expression, names: seq<Option<string>>)
    decreases |names|
  {
    |names| > 0 ==>
      && Refers(e, names[0])
      && (|names| > 1 ==> Opens(env, names[0]) && Chain(env, Body(env, names[0].value).value, names[1..]))
  }

  /** Every chain from the query ends in a reference that opens and is not already being opened. */
  ghost predicate Sound(env: Env, e: Expression, stack: seq<string>) {
    forall names: seq<Option<string>> | |names| > 0 && Chain(env, e, names) :: FreshEnd(env, names, stack)
  }

  ghost predicate FreshEnd(env: Env, names: seq<Option<string>>, stack: seq<string>)
    requires |names| > 0
  {
    var last := names[|names| - 1];
    Opens(env, last) && last.value !in stack && last !in names[..|names| - 1]
  }

  ghost predicate SoundRef(env: Env, name: Option<string>, stack: seq<string>) {
    Opens(env, name) && name.value !in stack && Sound(env, Body(env, name.value).value, stack + [name.value])
  }

  /** One reference at a time. */
  lemma SoundByRefs(env: Env, e: Expression, stack: seq<string>)
    ensures Sound(env, e, stack) <==> forall name | Refers(e, name) :: SoundRef(env, name, stack)
  {
    if Sound(env, e, stack) {
      forall name | Refers(e, name) ensures SoundRef(env, name, stack) {
        assert Chain(env, e, [name]) && FreshEnd(env, [name], stack);
        forall more: seq<Option<string>> | |more| > 0 && Chain(env, Body(env, name.value).value, more)
          ensures FreshEnd(env, more, stack + [name.value]) {
          var names := [name] + more;
          assert names[1..] == more;
          assert Chain(env, e, names) && FreshEnd(env, names, stack);
          assert names[..|names| - 1] == [name] + more[..|more| - 1];
        }
      }
    }
    if forall name | Refers(e, name) :: SoundRef(env, name, stack) {
      forall names: seq<Option<string>> | |names| > 0 && Chain(env, e, names) ensures FreshEnd(env, names, stack) {
        assert SoundRef(env, names[0], stack);
        if |names| > 1 {
          assert FreshEnd(env, names[1..], stack + [names[0].value]);
          assert names[..|names| - 1] == [names[0]] + names[1..][..|names[1..]| - 1];
        }
      }
    }
  }

  lemma {:induction false} ExpandSucceedsIff(env: Env, e: Expression, stack: seq<string>)
    ensures Expand(env, e, stack).Done? <==> Sound(env, e, stack)
    decreases |Unopened(env, stack)|, e, |e.or| + 1
  {
    ExpandOrSucceedsIff(env, e, 0, stack);
    SoundByRefs(env, e, stack);
    if forall k | 0 <= k < |e.or| :: SoundAnd(env, e.or[k], stack) {
      forall name | Refers(e, name) ensures SoundRef(env, name, stack) {
        var i :| 0 <= i < |e.or| && RefersAnd(e.or[i], name);
      }
    }
    if Sound(env, e, stack) {
      forall k | 0 <= k < |e.or| ensures SoundAnd(env, e.or[k], stack) {
        forall name | RefersAnd(e.or[k], name) ensures SoundRef(env, name, stack) { assert Refers(e, name); }
      }
    }
  }

  ghost predicate SoundAnd(env: Env, a: AndTerm, stack: seq<string>) {
    forall name | RefersAnd(a, name) :: SoundRef(env, name, stack)
  }

  ghost predicate SoundFactor(env: Env, f: Factor, stack: seq<string>) {
    forall name | RefersFactor(f, name) :: SoundRef(env, name, stack)
  }

  lemma {:induction false} ExpandOrSucceedsIff(env: Env, e: Expression, i: nat, stack: seq<string>)
    requires i <= |e.or|
    ensures ExpandOr(env, e, i, stack).Done? <==> forall k | i <= k < |e.or| :: SoundAnd(env, e.or[k], stack)
    decreases |Unopened(env, stack)|, e, |e.or| - i
  {
    if i < |e.or| {
      var a := e.or[i];
      ExpandAndSucceedsIff(env, a, 0, stack);
      ExpandOrSucceedsIff(env, e, i + 1, stack);
      if forall k | 0 <= k < |a.and| :: SoundFactor(env, a.and[k].factor, stack) {
        forall name | RefersAnd(a, name) ensures SoundRef(env, name, stack) {
          var j :| 0 <= j < |a.and| && RefersFactor(a.and[j].factor, name);
        }
      }
      if SoundAnd(env, a, stack) {
        forall k | 0 <= k < |a.and| ensures SoundFactor(env, a.and[k].factor, stack) {
          forall name | RefersFactor(a.and[k].factor, name) ensures SoundRef(env, name, stack) {
            assert RefersAnd(a, name);
          }
        }
      }
    }
  }

  lemma {:induction false} ExpandAndSucceedsIff(env: Env, a: AndTerm, j: nat, stack: seq<string>)
    requires j <= |a.and|
    ensures ExpandAnd(env, a, j, stack).Done?
      <==> forall k | j <= k < |a.and| :: SoundFactor(env, a.and[k].factor, stack)
    decreases |Unopened(env, stack)|, a, |a.and| - j
  {
    if j < |a.and| {
      ExpandFactorSucceedsIff(env, a.and[j].factor, stack);
      ExpandAndSucceedsIff(env, a, j + 1, stack);
    }
  }

  lemma {:induction false} ExpandFactorSucceedsIff(env: Env, f: Factor, stack: seq<string>)
    ensures ExpandFactor(env, f, stack).Done? <==> SoundFactor(env, f, stack)
    decreases |Unopened(env, stack)|, f, 0
  {
    match f
    case Sub(e) =>
      ExpandSucceedsIff(env, e, stack);
      SoundByRefs(env, e, stack);
    case Tag(tag) =>
      if IsReference(tag) {
        var name := NameOf(tag);
        assert RefersFactor(f, name);
        if Opens(env, name) && name.value !in stack {
          OpenedLess(env, stack, name.value);
          ExpandSucceedsIff(env, Body(env, name.value).value, stack + [name.value]);
        }
      }
  }

  /** Expansion succeeds exactly when every reference that can be reached resolves and parses, and no chain of
      references comes back to a name it is already inside of. */
  lemma ExpansionSucceedsIff(env: Env, e: Expression)
    ensures Expand(env, e, []).Done? <==>
      forall names: seq<Option<string>> | |names| > 0 && Chain(env, e, names) ::
        var last := names[|names| - 1]; Opens(env, last) && last !in names[..|names| - 1]
  {
    ExpandSucceedsIff(env, e, []);
    forall names: seq<Option<string>> | |names| > 0 && Chain(env, e, names)
      ensures FreshEnd(env, names, [])
        <==> (var last := names[|names| - 1]; Opens(env, last) && last !in names[..|names| - 1]) {
    }
  }

  /** A reference with a space before its colon is a saved-search tag to the tag parser, but is never expanded:
      it stays in the query and selects nothing. */
  lemma SpacedReferenceEscapes(env: Env, stack: seq<string>)
    ensures ParseMetaTag("@saved :x") == Some(Saved("x")) && !IsReference("@saved :x")
    ensures ExpandFactor(env, Tag("@saved :x"), stack) == Done(Tag("@saved :x")) && Asked("@saved :x") == Never
  {
    SpacedParses();
    SpacedIsNoReference("@saved :x");
    SavedAsksNothing("@saved :x", "x");
  }

  lemma SpacedIsNoReference(tag: string)
    requires tag == "@saved :x"
    ensures !IsReference(tag)
  {
    assert Fold(tag)[6] == ' ';
  }

  lemma SavedAsksNothing(tag: string, name: string)
    requires HasPrefix(tag, "@") && ParseMetaTag(tag) == Some(Saved(name))
    ensures Asked(tag) == Never
  {
  }

  lemma NamedSaved(tag: string, raw: string, value: string)
    requires tag == "@" + raw + ":" + value && CutColon(raw + ":" + value) == (raw, Some(value))
    requires TrimSpace(raw) == "saved" && TrimSpace(value) != ""
    ensures ParseMetaTag(tag) == Some(Saved(value))
  {
    assert tag[1..] == raw + ":" + value && Fold("saved") == "saved";
  }

  lemma SpacedParses()
    ensures ParseMetaTag("@saved :x") == Some(Saved("x"))
  {
    CutAt("saved ", "x");
    TrimTrailing("saved");
    TrimUnpadded("x");
    NamedSaved("@saved :x", "saved ", "x");
  }

  lemma TrimUnpadded(s: string)
    requires s != "" && !IsSpace(s[0]) && !IsSpace(s[|s| - 1])
    ensures TrimSpace(s) == s
  {
  }

  lemma TrimTrailing(s: string)
    requires s != "" && !IsSpace(s[0]) && !IsSpace(s[|s| - 1])
    ensures TrimSpace(s + " ") == s
  {
    assert (s + " ")[..|s|] == s && (s + " ")[0] == s[0];
    assert TrimRight(s) == s;
  }

  /** Without padding nothing of the kind is left: a tag that the tag parser takes for a saved-search reference
      is expanded exactly when its name stands unpadded before the colon. */
  lemma ReferenceIsExpandedIff(tag: string)
    requires ParseMetaTag(tag).Some? && ParseMetaTag(tag).value.Saved?
    ensures IsReference(tag) <==> TrimSpace(CutColon(tag[1..]).0) == CutColon(tag[1..]).0
  {
    var (raw, value) := CutColon(tag[1..]);
    var name := TrimSpace(raw);
    CutParts(tag[1..]);
    assert tag == "@" + raw + ":" + value.value;
    assert Fold(name) == "saved" && |name| == 5;
    TrimShorter(raw);
    if IsReference(tag) {
      NameLength(tag, raw, value.value);
    } else if name == raw {
      SpelledOut(tag, raw, value.value);
    }
  }

  lemma SpelledOut(tag: string, raw: string, value: string)
    requires tag == "@" + raw + ":" + value && Fold(raw) == "saved"
    ensures IsReference(tag)
  {
    assert |raw| == 5;
    forall k | 0 <= k < 5 ensures Fold(tag)[k + 1] == "saved"[k] {
      assert Fold(tag)[k + 1] == LowerChar(raw[k]) == Fold(raw)[k];
    }
    assert Fold(tag)[..7] == "@saved:" by {
      assert Fold(tag)[0] == '@' && Fold(tag)[6] == ':';
      forall k | 0 <= k < 7 ensures Fold(tag)[k] == "@saved:"[k] {
        if 1 <= k <= 5 { assert Fold(tag)[(k - 1) + 1] == "saved"[k - 1]; }
      }
    }
  }

  lemma NameLength(tag: string, raw: string, value: string)
    requires tag == "@" + raw + ":" + value && ':' !in raw && IsReference(tag)
    ensures |raw| == 5
  {
    forall k | 0 <= k < 7 ensures tag[k] == ':' <==> k == 6 {
      assert Fold(tag)[k] == Fold(tag)[..7][k] == "@saved:"[k] && Fold(tag)[k] == LowerChar(tag[k]);
    }
    forall k | 1 <= k <= |raw| ensures tag[k] != ':' { assert tag[k] == raw[k - 1]; }
    assert tag[1 + |raw|] == ':' && tag[6] == ':';
  }

  lemma {:induction false} CutParts(s: string)
    ensures var (before, after) := CutColon(s);
      ':' !in before && (after.None? ==> s == before) && (after.Some? ==> s == before + ":" + after.value)
  {
    if s != "" && s[0] != ':' {
      CutParts(s[1..]);
      assert s == [s[0]] + s[1..];
    }
  }

  lemma {:induction false} TrimShorter(s: string)
    ensures |TrimSpace(s)| <= |s| && (|TrimSpace(s)| == |s| ==> TrimSpace(s) == s)
  {
    TrimLeftShorter(s);
    TrimRightShorter(TrimLeft(s));
  }

  lemma {:induction false} TrimLeftShorter(s: string)
    ensures |TrimLeft(s)| <= |s| && (|TrimLeft(s)| == |s| ==> TrimLeft(s) == s)
  {
    if s != "" && IsSpace(s[0]) { TrimLeftShorter(s[1..]); }
  }

  lemma {:induction false} TrimRightShorter(s: string)
    ensures |TrimRight(s)| <= |s| && (|TrimRight(s)| == |s| ==> TrimRight(s) == s)
  {
    if s != "" && IsSpace(s[|s| - 1]) { TrimRightShorter(s[..|s| - 1]); }
  }
}
