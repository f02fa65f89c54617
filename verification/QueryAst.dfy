/** The query language: its syntax tree, its tags, and what they mean on a library. Text is ASCII. */
module QueryAst {
  import opened Basics

  datatype Expression = Expression(or: seq<AndTerm>)
  datatype AndTerm = AndTerm(and: seq<Term>)
  datatype Term = Term(not: bool, factor: Factor)
  datatype Factor = Tag(tag: string) | Sub(expr: Expression)

  // ---------------------------------------------------------------- text

  /** The ASCII characters that strings.TrimSpace removes. */
  predicate IsSpace(c: char) { c in " \t\n\r" || c == 11 as char || c == 12 as char }

  function TrimLeft(s: string): string { if s != "" && IsSpace(s[0]) then TrimLeft(s[1..]) else s }

  function TrimRight(s: string): string {
    if s != "" && IsSpace(s[|s| - 1]) then TrimRight(s[..|s| - 1]) else s
  }

  function TrimSpace(s: string): string { TrimRight(TrimLeft(s)) }

  /** strings.Cut at the first colon: the part before it, and the part after it when there is one. */
  function CutColon(s: string): (string, Option<string>) {
    if s == "" then ("", None)
    else if s[0] == ':' then ("", Some(s[1..]))
    else var rest := CutColon(s[1..]); ([s[0]] + rest.0, rest.1)
  }

  lemma {:induction false} CutAt(before: string, after: string)
    requires ':' !in before
    ensures CutColon(before + ":" + after) == (before, Some(after))
  {
    var s := before + ":" + after;
    if before == "" {
      assert s[1..] == after;
    } else {
      CutAt(before[1..], after);
      assert s[1..] == before[1..] + ":" + after && [before[0]] + before[1..] == before;
    }
  }

  predicate HasPrefix(s: string, p: string) { |p| <= |s| && s[..|p|] == p }

  predicate PartAt(s: string, i: nat, part: string) { i + |part| <= |s| && s[i..i + |part|] == part }

  predicate Contains(s: string, part: string) {
    exists i | 0 <= i <= |s| :: PartAt(s, i, part)
  }

  lemma ContainsIff(s: string, part: string)
    ensures Contains(s, part) <==> exists a, b :: s == a + part + b
  {
    if i :| 0 <= i <= |s| && PartAt(s, i, part) { assert s == s[..i] + part + s[i + |part|..]; }
    if a, b :| s == a + part + b { assert PartAt(s, |a|, part) && |a| <= |s|; }
  }

  // ---------------------------------------------------------------- tags

  datatype Meta = Tagged | FilenameContains(value: string) | Saved(value: string) | External | InTarget(value: string)

  /** ParseMetaTag: none stands for its errors. */
  function ParseMetaTag(raw: string): Option<Meta> {
    if !HasPrefix(raw, "@") then None
    else
      var (rawName, value) := CutColon(raw[1..]);
      var name := Fold(TrimSpace(rawName));
      var hasText := value.Some? && TrimSpace(value.value) != "";
      if name == "tagged" then (if value.Some? then None else Some(Tagged))
      else if name == "external" then (if value.Some? then None else Some(External))
      else if name == "filename_contains" then (if hasText then Some(FilenameContains(value.value)) else None)
      else if name == "saved" then (if hasText then Some(Saved(value.value)) else None)
      else if name == "in_target" then (if hasText then Some(InTarget(value.value)) else None)
      else None
  }

  /** ParseTag: key and value, the value empty without a colon. */
  function ParseTag(tag: string): (string, string) {
    var (key, value) := CutColon(tag);
    (key, Coalesce(value, ""))
  }

  function DottedExtension(value: string): string {
    if value != "" && !HasPrefix(value, ".") then "." + value else value
  }

  // ---------------------------------------------------------------- the library

  datatype Location = Location(hash: string, ext: string, filename: string, targets: set<string>)
  datatype TagRow = TagRow(key: string, value: string)

  /** `fts` is the trigram index: which filenames it offers for a phrase. */
  datatype Library = Library(locations: map<nat, Location>, tags: map<nat, TagRow>, contentTags: set<(string, nat)>,
                             mediaKind: map<string, string>, fts: (string, string) -> bool)

  /** Schema constraints (unique tags under NOCASE, foreign keys), what a trigram index promises, and that every
      tagged content has a location. */
  ghost predicate WellFormed(lib: Library) {
    && (forall s, t | s in lib.tags && t in lib.tags && s != t ::
          Fold(lib.tags[s].key) != Fold(lib.tags[t].key) || Fold(lib.tags[s].value) != Fold(lib.tags[t].value))
    && (forall p | p in lib.contentTags :: p.1 in lib.tags && HasLocation(lib, p.0))
    && (forall name, value | |value| >= 3 && Contains(Fold(name), Fold(value)) :: lib.fts(name, value))
  }

  predicate HasLocation(lib: Library, hash: string) {
    exists l | l in lib.locations :: lib.locations[l].hash == hash
  }

  predicate HasTag(lib: Library, hash: string, t: nat) { (hash, t) in lib.contentTags && t in lib.tags }

  const PHOTOS := {".jpg", ".jpeg", ".png", ".webp", ".bmp", ".tif", ".tiff", ".heic", ".heif"}
  const VIDEOS := {".mp4", ".mov", ".avi", ".mkv", ".webm", ".flv", ".wmv", ".mpeg", ".mpg"}

  /** The CASE expression of mediaTypeExpression: comics by extension, then metadata, then extension. */
  function MediaKind(lib: Library, l: Location): string {
    var ext := Fold(l.ext);
    if ext == ".cbz" then "comic"
    else if l.hash in lib.mediaKind then lib.mediaKind[l.hash]
    else if ext == ".gif" then "gif"
    else if ext in PHOTOS then "photo"
    else if ext in VIDEOS then "video"
    else "other"
  }

  // ---------------------------------------------------------------- what a tag asks for

  datatype Question =
    | Never
    | AnyTag
    | NameContains(part: string)
    | Unmanaged
    | Managed(target: Option<string>)
    | Extension(ext: string)
    | Kind(kind: string)
    | ExactTag(key: string, value: string)
    | WithKey(key: string)
    | KeyWithValue(key: string)
    | KeyWithoutValue(key: string)

  function Asked(tag: string): Question {
    if HasPrefix(tag, "@") then
      match ParseMetaTag(tag)
      case Some(Tagged) => AnyTag
      case Some(FilenameContains(v)) => NameContains(v)
      case Some(External) => Unmanaged
      case Some(InTarget(v)) => Managed(if v == "any" then None else Some(v))
      case _ => Never
    else
      var (key, value) := ParseTag(tag);
      if key == "ext" then Extension(DottedExtension(value))
      else if key == "type" then Kind(value)
      else if value == "*" then KeyWithValue(key)
      else if value != "" then ExactTag(key, value)
      else if CutColon(tag).1.Some? then KeyWithoutValue(key)
      else WithKey(key)
  }

  lemma {:induction false} CutNowhere(s: string)
    requires ':' !in s
    ensures CutColon(s) == (s, None)
  {
    if s != "" {
      CutNowhere(s[1..]);
      assert [s[0]] + s[1..] == s;
    }
  }

  /** `@tagged` and `@external`, in any case, and no other word after an @ without a value. */
  lemma AskedWithoutValue(name: string)
    requires ':' !in name
    ensures Fold(TrimSpace(name)) == "tagged" ==> Asked("@" + name) == AnyTag
    ensures Fold(TrimSpace(name)) == "external" ==> Asked("@" + name) == Unmanaged
    ensures Fold(TrimSpace(name)) !in {"tagged", "external"} ==> Asked("@" + name) == Never
  {
    assert ("@" + name)[1..] == name && ("@" + name)[..1] == "@";
    CutNowhere(name);
  }

  /** `@filename_contains:` and `@in_target:` with a value that is not blank; the target any is every target. */
  lemma AskedWithValue(name: string, value: string)
    requires ':' !in name
    ensures var q := Asked("@" + (name + ":" + value)); var n := Fold(TrimSpace(name));
      && (TrimSpace(value) == "" || n !in {"filename_contains", "in_target"} ==> q == Never)
      && (TrimSpace(value) != "" && n == "filename_contains" ==> q == NameContains(value))
      && (TrimSpace(value) != "" && n == "in_target" && value == "any" ==> q == Managed(None))
      && (TrimSpace(value) != "" && n == "in_target" && value != "any" ==> q == Managed(Some(value)))
  {
    var tag := "@" + (name + ":" + value);
    assert tag[1..] == name + ":" + value && tag[..1] == "@";
    CutAt(name, value);
  }

  /** Tags of the user: `ext:` and `type:` ask for a file, a star for any value, nothing after the colon for none. */
  lemma AskedOfUser(key: string, value: string)
    requires ':' !in key && (key != "" ==> key[0] != '@')
    ensures var q := Asked(key + ":" + value);
      && (key == "ext" ==> q == Extension(if value == "" || value[0] == '.' then value else "." + value))
      && (key == "type" ==> q == Kind(value))
      && (key !in {"ext", "type"} ==>
            q == if value == "*" then KeyWithValue(key) else if value == "" then KeyWithoutValue(key)
                 else ExactTag(key, value))
  {
    var tag := key + ":" + value;
    CutAt(key, value);
    assert tag[0] != '@';
    assert !HasPrefix(tag, "@");
    assert ParseTag(tag) == (key, value);
    assert value != "" ==> (HasPrefix(value, ".") <==> value[0] == '.');
  }

  /** Without a colon, for the key with any value or none. */
  lemma AskedOfKey(key: string)
    requires ':' !in key && (key != "" ==> key[0] != '@') && key !in {"ext", "type"}
    ensures Asked(key) == WithKey(key)
  {
    CutNowhere(key);
    assert !HasPrefix(key, "@");
  }

  predicate TagRowAnswers(row: TagRow, q: Question) {
    match q
    case AnyTag => true
    case ExactTag(k, v) => Fold(row.key) == Fold(k) && Fold(row.value) == Fold(v)
    case WithKey(k) => Fold(row.key) == Fold(k)
    case KeyWithValue(k) => Fold(row.key) == Fold(k) && row.value != ""
    case KeyWithoutValue(k) => Fold(row.key) == Fold(k) && row.value == ""
    case _ => false
  }

  predicate ByTags(q: Question) { q.AnyTag? || q.ExactTag? || q.WithKey? || q.KeyWithValue? || q.KeyWithoutValue? }

  predicate ContentAnswers(lib: Library, hash: string, q: Question) {
    exists t | t in lib.tags :: HasTag(lib, hash, t) && TagRowAnswers(lib.tags[t], q)
  }

  /** Does one file answer the question? */
  predicate LocationAnswers(lib: Library, l: nat, q: Question)
    requires l in lib.locations
  {
    var loc := lib.locations[l];
    match q
    case Never => false
    case NameContains(part) => Contains(Fold(loc.filename), Fold(part))
    case Unmanaged => loc.targets == {}
    case Managed(t) => if t.None? then loc.targets != {} else t.value in loc.targets
    case Extension(e) => Fold(loc.ext) == Fold(e)
    case Kind(k) => Fold(MediaKind(lib, loc)) == Fold(k)
    case _ => ContentAnswers(lib, loc.hash, q)
  }

  /** Queries select files by id, or contents by hash. */
  datatype Target = Ids | Hashes
  datatype Item = Id(id: nat) | Hash(hash: string)

  predicate InUniverse(lib: Library, mode: Target, x: Item) {
    match mode
    case Ids => x.Id? && x.id in lib.locations
    case Hashes => x.Hash? && HasLocation(lib, x.hash)
  }

  /** A content answers when one of its files does; it is outside managed storage when none of them is inside. */
  predicate Answers(lib: Library, mode: Target, q: Question, x: Item)
    requires InUniverse(lib, mode, x)
  {
    match mode
    case Ids => LocationAnswers(lib, x.id, q)
    case Hashes =>
      if q.Unmanaged? then forall l | l in lib.locations && lib.locations[l].hash == x.hash ::
        LocationAnswers(lib, l, q)
      else exists l | l in lib.locations && lib.locations[l].hash == x.hash :: LocationAnswers(lib, l, q)
  }

  // ---------------------------------------------------------------- what a query means

  predicate Selects(lib: Library, mode: Target, e: Expression, x: Item)
    requires InUniverse(lib, mode, x)
  {
    exists i | 0 <= i < |e.or| :: SelectsAll(lib, mode, e.or[i], x)
  }

  predicate SelectsAll(lib: Library, mode: Target, a: AndTerm, x: Item)
    requires InUniverse(lib, mode, x)
  {
    forall i | 0 <= i < |a.and| :: a.and[i].not != SelectsFactor(lib, mode, a.and[i].factor, x)
  }

  predicate SelectsFactor(lib: Library, mode: Target, f: Factor, x: Item)
    requires InUniverse(lib, mode, x)
  {
    match f
    case Tag(tag) => Answers(lib, mode, Asked(tag), x)
    case Sub(e) => Selects(lib, mode, e, x)
  }

  /** Every node that the grammar builds has children. */
  predicate Grammatical(e: Expression) {
    |e.or| > 0 && forall i | 0 <= i < |e.or| :: GrammaticalAnd(e.or[i])
  }

  predicate GrammaticalAnd(a: AndTerm) {
    |a.and| > 0 && forall j | 0 <= j < |a.and| :: GrammaticalFactor(a.and[j].factor)
  }

  predicate GrammaticalFactor(f: Factor) { f.Sub? ==> Grammatical(f.expr) }
}
