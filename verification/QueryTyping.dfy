/** Queries as people type them: words or symbols for the connectives, bare or quoted tags, any white space, and the
    shorthands for types. What each such text is read as, stated in trees, and with it what printed text is read as. */
module QueryTyping {
  import opened Basics
  import opened QueryAst
  import opened QueryText

  // ---------------------------------------------------------------- the pieces of a typed query

  datatype Kind = Bare | InQuotes | Images | Films | Or | And | Not | Open | Close

  /** What a piece is, how it is spelled, and the white space typed with it. */
  datatype Piece = Piece(kind: Kind, before: string, core: string, after: string)

  predicate Blank(s: string) { forall k | 0 <= k < |s| :: IsBlank(s[k]) }

  predicate TypeAt(s: string) {
    |s| >= 8 && s[..8] in {"type:img", "type:vid"} && (|s| == 8 || !IsWord(s[8]))
  }

  predicate WordBegins(s: string, k: nat)
    requires k < |s|
  {
    k == 0 || !IsWord(s[k - 1])
  }

  /** A tag that can be typed without quotes: the lexer takes it whole, it is not a connective, and no word in it is
      `not` at its end or a virtual type. */
  predicate BareTag(tag: string) {
    && tag != "" && TagLength(tag) == |tag| && Fold(tag) != "or" && Fold(tag) != "and"
    && forall k {:trigger tag[k..]} | 0 <= k < |tag| && WordBegins(tag, k) ::
         Fold(tag[k..]) != "not" && !TypeAt(tag[k..])
  }

  /** A disjunction is `|` or the word or, a conjunction `&`, the word and, or white space, a negation `-`, `!` or the
      word not; words in any case, and with white space around them. */
  predicate Good(p: Piece) {
    && Blank(p.before) && Blank(p.after)
    && match p.kind
       case Bare => p.before == p.after == "" && BareTag(p.core)
       case InQuotes => p.before == p.after == "" && Printable(p.core)
       case Images => p.before == p.after == "" && p.core == "type:img"
       case Films => p.before == p.after == "" && p.core == "type:vid"
       case Or => p.core == "|" || (Fold(p.core) == "or" && p.before != "" && p.after != "")
       case And =>
         || p.core == "&" || (p.core == p.after == "" && p.before != "")
         || (Fold(p.core) == "and" && p.before != "" && p.after != "")
       case Not => p.before == "" && (p.core == "-" || p.core == "!" || (Fold(p.core) == "not" && p.after != ""))
       case Open => p.before == "" && p.core == "("
       case Close => p.after == "" && p.core == ")"
  }

  /** Stands where an operand is expected. */
  predicate Begins(p: Piece) { !p.kind.Or? && !p.kind.And? && !p.kind.Close? }

  /** Leaves an operand complete. */
  predicate Completes(p: Piece) { !p.kind.Or? && !p.kind.And? && !p.kind.Not? && !p.kind.Open? }

  /** Operands and operators take turns. */
  predicate Typed(ps: List<Piece>, operand: bool) {
    ps.Cons? ==> Good(ps.head) && Begins(ps.head) == operand && Typed(ps.tail, !Completes(ps.head))
  }

  function Show(p: Piece, rest: string): string {
    if p.kind.InQuotes? then "\"" + Escaped(p.core, "\"" + rest) else p.before + (p.core + (p.after + rest))
  }

  function Text(ps: List<Piece>, rest: string): string {
    match ps case Nil => rest case Cons(p, more) => Show(p, Text(more, rest))
  }

  /** What a typed piece is for the grammar: one token, none for a conjunction, a group of alternatives for a type. */
  function Meaning(p: Piece, rest: List<Token>): List<Token> {
    match p.kind
    case Bare => Cons(Word(p.core), rest)
    case InQuotes => Cons(Quoted(p.core), rest)
    case Images => Cons(Op('('), AlternativeTokens(IMAGE_EXTENSIONS, rest))
    case Films => Cons(Op('('), AlternativeTokens(VIDEO_EXTENSIONS, rest))
    case Or => Cons(Op('|'), rest)
    case And => rest
    case Not => Cons(Op('-'), rest)
    case Open => Cons(Op('('), rest)
    case Close => Cons(Op(')'), rest)
  }

  function AlternativeTokens(extensions: List<string>, rest: List<Token>): List<Token> {
    match extensions
    case Nil => Cons(Op(')'), rest)
    case Cons(ext, more) =>
      Cons(Word("ext:" + ext),
           if more.Nil? then Cons(Op(')'), rest) else Cons(Op('|'), AlternativeTokens(more, rest)))
  }

  function Meant(ps: List<Piece>, rest: List<Token>): List<Token> {
    match ps case Nil => rest case Cons(p, more) => Meaning(p, Meant(more, rest))
  }

  // ---------------------------------------------------------------- the normalizer on one piece of text

  lemma {:induction false} SpacesOf(b: string, rest: string)
    requires Blank(b) && (rest != "" ==> !IsBlank(rest[0]))
    ensures Spaces(b + rest) == |b|
    decreases |b|
  {
    if b == "" {
      assert b + rest == rest;
    } else {
      assert (b + rest)[0] == b[0] && (b + rest)[1..] == b[1..] + rest;
      SpacesOf(b[1..], rest);
    }
  }

  /** No white space here, and not the word followed by white space. */
  predicate NoKeyword(s: string, word: string) {
    s != "" ==> !IsBlank(s[0]) && !(StartsWithWord(s, word) && |s| > |word| && IsBlank(s[|word|]))
  }

  lemma OneMore(s: string, rest: string)
    requires s != ""
    ensures [s[0]] + (s[1..] + rest) == s + rest
  {
  }

  lemma {:induction false} KeepsUnspaced(c: string, rest: string, word: string, sub: string)
    requires forall k | 0 <= k < |c| :: !IsBlank(c[k])
    ensures ReplaceSpaced(c + rest, word, sub) == c + ReplaceSpaced(rest, word, sub)
    decreases |c|
  {
    if c == "" {
      assert c + rest == rest && "" + ReplaceSpaced(rest, word, sub) == ReplaceSpaced(rest, word, sub);
    } else {
      assert (c + rest)[0] == c[0] && (c + rest)[1..] == c[1..] + rest;
      KeepsUnspaced(c[1..], rest, word, sub);
      OneMore(c, ReplaceSpaced(rest, word, sub));
    }
  }

  lemma {:induction false} KeepsBlanks(b: string, rest: string, word: string, sub: string)
    requires Blank(b) && NoKeyword(rest, word)
    ensures ReplaceSpaced(b + rest, word, sub) == b + ReplaceSpaced(rest, word, sub)
    decreases |b|
  {
    if b == "" {
      assert b + rest == rest && "" + ReplaceSpaced(rest, word, sub) == ReplaceSpaced(rest, word, sub);
    } else {
      SpacesOf(b, rest);
      SpacesFit(b + rest);
      assert (b + rest)[|b|..] == rest;
      NoSpacedWord(b + rest, word, |b|);
      assert (b + rest)[0] == b[0] && (b + rest)[1..] == b[1..] + rest;
      KeepsBlanks(b[1..], rest, word, sub);
      OneMore(b, ReplaceSpaced(rest, word, sub));
    }
  }

  lemma NoSpacedWord(s: string, word: string, a: nat)
    requires a <= |s| && Spaces(s) == a && NoKeyword(s[a..], word)
    ensures SpacedWord(s, word) == 0
  {
    var rest := s[a..];
    if StartsWithWord(rest, word) {
      assert s[a + |word|..] == rest[|word|..];
    }
  }

  lemma MeasuresSpaced(a: string, w: string, b: string, rest: string, word: string)
    requires Blank(a) && Blank(b) && a != "" && b != "" && w != "" && !IsBlank(w[0]) && Fold(w) == word
    requires rest != "" ==> !IsBlank(rest[0])
    ensures SpacedWord(a + (w + (b + rest)), word) == |a| + |w| + |b|
  {
    var s := a + (w + (b + rest));
    SpacesOf(a, w + (b + rest));
    SpacesOf(b, rest);
    assert s[|a|..] == w + (b + rest) && (w + (b + rest))[..|word|] == w;
    assert s[|a| + |word|..] == b + rest;
  }

  lemma ReplacesSpaced(a: string, w: string, b: string, rest: string, word: string, sub: string)
    requires Blank(a) && Blank(b) && a != "" && b != "" && w != "" && !IsBlank(w[0]) && Fold(w) == word
    requires rest != "" ==> !IsBlank(rest[0])
    ensures ReplaceSpaced(a + (w + (b + rest)), word, sub) == sub + ReplaceSpaced(rest, word, sub)
  {
    MeasuresSpaced(a, w, b, rest, word);
    assert (a + (w + (b + rest)))[|a| + |w| + |b|..] == rest;
  }

  lemma {:induction false} ReplaceCharJoins(s: string, t: string, c: char, d: char)
    ensures ReplaceChar(s + t, c, d) == ReplaceChar(s, c, d) + ReplaceChar(t, c, d)
    decreases |s|
  {
    if s == "" {
      assert s + t == t && "" + ReplaceChar(t, c, d) == ReplaceChar(t, c, d);
    } else {
      assert (s + t)[0] == s[0] && (s + t)[1..] == s[1..] + t;
      ReplaceCharJoins(s[1..], t, c, d);
      var one := [if s[0] == c then d else s[0]];
      assert one + (ReplaceChar(s[1..], c, d) + ReplaceChar(t, c, d)) == ReplaceChar(s, c, d) + ReplaceChar(t, c, d);
    }
  }

  lemma {:induction false} ReplaceCharKeeps(s: string, c: char, d: char)
    requires c !in s
    ensures ReplaceChar(s, c, d) == s
    decreases |s|
  {
    if s != "" {
      ReplaceCharKeeps(s[1..], c, d);
      assert [s[0]] + s[1..] == s;
    }
  }

  predicate NotAt(s: string) { |s| > 3 && StartsWithWord(s, "not") && IsBlank(s[3]) }

  /** Is the character before a position a word character? */
  predicate AfterWord(c: string, k: nat, after: bool)
    requires k <= |c|
  {
    if k == 0 then after else IsWord(c[k - 1])
  }

  lemma {:induction false} NotsKept(c: string, rest: string, after: bool)
    requires forall k | 0 <= k < |c| && !AfterWord(c, k, after) :: !NotAt(c[k..] + rest)
    ensures ReplaceNot(c + rest, after) == c + ReplaceNot(rest, AfterWord(c, |c|, after))
    decreases |c|
  {
    if c == "" {
      assert c + rest == rest && "" + ReplaceNot(rest, after) == ReplaceNot(rest, after);
    } else {
      assert c[0..] == c && (c + rest)[0] == c[0] && (c + rest)[1..] == c[1..] + rest;
      if !after { assert !AfterWord(c, 0, after) && !NotAt(c[0..] + rest); }
      forall k | 0 <= k < |c[1..]| && !AfterWord(c[1..], k, IsWord(c[0])) ensures !NotAt(c[1..][k..] + rest) {
        assert c[1..][k..] == c[k + 1..] && !AfterWord(c, k + 1, after);
      }
      NotsKept(c[1..], rest, IsWord(c[0]));
      OneMore(c, ReplaceNot(rest, AfterWord(c, |c|, after)));
    }
  }

  lemma NoTypeHere(s: string, after: bool)
    requires s != "" && (after || !TypeAt(s))
    ensures ExpandTypes(s, after) == [s[0]] + ExpandTypes(s[1..], IsWord(s[0]))
  {
  }

  lemma {:induction false} TypesKept(c: string, rest: string, after: bool)
    requires forall k | 0 <= k < |c| && !AfterWord(c, k, after) :: !TypeAt(c[k..] + rest)
    ensures ExpandTypes(c + rest, after) == c + ExpandTypes(rest, AfterWord(c, |c|, after))
    decreases |c|
  {
    if c == "" {
      assert c + rest == rest && "" + ExpandTypes(rest, after) == ExpandTypes(rest, after);
    } else {
      assert c[0..] == c && (c + rest)[0] == c[0] && (c + rest)[1..] == c[1..] + rest;
      if !after { assert !AfterWord(c, 0, after) && !TypeAt(c[0..] + rest); }
      NoTypeHere(c + rest, after);
      forall k | 0 <= k < |c[1..]| && !AfterWord(c[1..], k, IsWord(c[0])) ensures !TypeAt(c[1..][k..] + rest) {
        assert c[1..][k..] == c[k + 1..] && !AfterWord(c, k + 1, after);
      }
      TypesKept(c[1..], rest, IsWord(c[0]));
      OneMore(c, ExpandTypes(rest, AfterWord(c, |c|, after)));
    }
  }

  // ---------------------------------------------------------------- bare tags

  lemma {:induction false} RunAppend(x: string, s: string, p: char -> bool)
    requires s != "" ==> !p(s[0])
    ensures Run(x + s, p) == Run(x, p)
    decreases |x|
  {
    if x == "" {
      assert x + s == s;
    } else {
      assert (x + s)[0] == x[0] && (x + s)[1..] == x[1..] + s;
      RunAppend(x[1..], s, p);
    }
  }

  lemma {:induction false} RunHolds(s: string, p: char -> bool)
    ensures forall k | 0 <= k < Run(s, p) :: p(s[k])
    decreases |s|
  {
    if s != "" && p(s[0]) {
      RunHolds(s[1..], p);
      forall k | 0 < k < Run(s, p) ensures p(s[k]) { assert s[k] == s[1..][k - 1]; }
    }
  }

  lemma BareChars(tag: string)
    requires tag != "" && TagLength(tag) == |tag|
    ensures forall k | 0 <= k < |tag| :: TagChar(tag[k]) || tag[k] == '@'
  {
    RunHolds(tag[1..], NameChar);
    RunHolds(tag[1..], TagChar);
    if tag[0] == '@' {
      var name := Run(tag[1..], NameChar);
      var rest := tag[1 + name..];
      if rest != "" { RunHolds(rest[1..], TagChar); }
      forall k | 0 < k < |tag| ensures TagChar(tag[k]) {
        if k <= name { assert tag[k] == tag[1..][k - 1]; }
        else if k > 1 + name { assert tag[k] == rest[1..][k - name - 2]; }
        else { assert tag[k] == rest[0]; }
      }
    } else {
      forall k | 0 < k < |tag| ensures TagChar(tag[k]) { assert tag[k] == tag[1..][k - 1]; }
    }
  }

  predicate Alphanumeric(c: char) { 'a' <= c <= 'z' || 'A' <= c <= 'Z' || '0' <= c <= '9' || c == '_' }

  /** A word of tag characters that does not begin with a colon, a star or a hyphen. */
  predicate PlainTag(t: string) {
    && t != "" && t[0] !in ":*-"
    && forall k | 0 <= k < |t| :: Alphanumeric(t[k]) || t[k] in "./\\:*-"
  }

  /** `@`, a name of letters, digits and underscores up to `n`, and optionally a colon and a value. */
  predicate MetaTag(t: string, n: nat) {
    && 1 < n <= |t| && t[0] == '@' && (forall k | 1 <= k < n :: Alphanumeric(t[k]))
    && (n < |t| ==> t[n] == ':' && n + 1 < |t| && forall k | n < k < |t| :: Alphanumeric(t[k]) || t[k] in "./\\:*-")
  }

  ghost predicate IsTag(t: string) { PlainTag(t) || exists n: nat :: MetaTag(t, n) }

  lemma {:induction false} RunStops(s: string, p: char -> bool)
    ensures Run(s, p) < |s| ==> !p(s[Run(s, p)])
    decreases |s|
  {
    if s != "" && p(s[0]) { RunStops(s[1..], p); }
  }

  /** The lexer takes the longest tag that begins here, and nothing when none does. */
  lemma TagLengthIsLongest(s: string)
    ensures TagLength(s) > 0 ==> IsTag(s[..TagLength(s)])
    ensures forall m | TagLength(s) < m <= |s| :: !IsTag(s[..m])
  {
    if s != "" && s[0] == '@' { LongestMetaTag(s); }
    else if s != "" { LongestPlainTag(s); }
  }

  lemma LongestPlainTag(s: string)
    requires s != "" && s[0] != '@'
    ensures TagLength(s) > 0 ==> PlainTag(s[..TagLength(s)])
    ensures forall m | TagLength(s) < m <= |s| :: !IsTag(s[..m])
  {
    var n := TagLength(s);
    RunHolds(s[1..], TagChar);
    RunStops(s[1..], TagChar);
    if n > 0 {
      forall k | 0 < k < n ensures TagChar(s[k]) { assert s[k] == s[1..][k - 1]; }
    }
    forall m | n < m <= |s| ensures !IsTag(s[..m]) {
      if 0 < n { assert s[..m][n] == s[1..][n - 1]; }
      assert s[..m][0] == s[0];
    }
  }

  lemma LongestMetaTag(s: string)
    requires s != "" && s[0] == '@'
    ensures TagLength(s) > 0 ==> exists n: nat :: MetaTag(s[..TagLength(s)], n)
    ensures forall m | TagLength(s) < m <= |s| :: !IsTag(s[..m])
  {
    var name := Run(s[1..], NameChar);
    var rest := s[1 + name..];
    RunHolds(s[1..], NameChar);
    RunStops(s[1..], NameChar);
    forall k | 1 <= k <= name ensures Alphanumeric(s[k]) { assert s[k] == s[1..][k - 1]; }
    if rest != "" {
      RunHolds(rest[1..], TagChar);
      RunStops(rest[1..], TagChar);
      assert rest[0] == s[1 + name] == s[1..][name];
    }
    if name > 0 { MetaTagTaken(s, name); }
    forall m | TagLength(s) < m <= |s| ensures !IsTag(s[..m]) {
      forall n: nat ensures !MetaTag(s[..m], n) { LongerIsNoMetaTag(s, name, m, n); }
      assert s[..m][0] == '@';
    }
  }

  lemma MetaTagTaken(s: string, name: nat)
    requires s != "" && s[0] == '@' && name == Run(s[1..], NameChar) > 0
    requires forall k | 1 <= k <= name :: Alphanumeric(s[k])
    ensures MetaTag(s[..TagLength(s)], 1 + name)
  {
    var rest, t := s[1 + name..], s[..TagLength(s)];
    if rest != "" { RunHolds(rest[1..], TagChar); }
    forall k | 1 + name < k < |t| ensures TagChar(t[k]) { assert t[k] == rest[1..][k - name - 2]; }
  }

  lemma LongerIsNoMetaTag(s: string, name: nat, m: nat, n: nat)
    requires s != "" && s[0] == '@' && name == Run(s[1..], NameChar) && TagLength(s) < m <= |s|
    requires forall k | 1 <= k <= name :: Alphanumeric(s[k])
    requires 1 + name < |s| ==> !NameChar(s[1 + name])
    ensures !MetaTag(s[..m], n)
  {
    var t, rest := s[..m], s[1 + name..];
    if n <= name { assert n >= 1 ==> n < |t| ==> t[n] == s[n] && s[n] != ':'; }
    else if n > 1 + name { assert 1 + name < |t| ==> t[1 + name] == s[1 + name]; }
    else if rest != "" {
      var value := Run(rest[1..], TagChar);
      RunStops(rest[1..], TagChar);
      assert rest[0] == s[1 + name];
      assert value < |rest[1..]| ==> s[2 + name + value] == rest[1..][value];
      if rest[0] == ':' && name > 0 { assert TagLength(s) == 1 + name + if value > 0 then 1 + value else 0; }
      assert 2 + name + value < |t| ==> t[2 + name + value] == s[2 + name + value];
      assert n < |t| ==> t[n] == rest[0];
    }
  }

  lemma MetaLength(tag: string, s: string)
    requires tag != "" && tag[0] == '@' && TagLength(tag) == |tag| && (s != "" ==> !TagChar(s[0]))
    ensures TagLength(tag + s) == |tag|
  {
    var text, name := tag + s, Run(tag[1..], NameChar);
    var rest := tag[1 + name..];
    assert text[0] == '@' && text[1..] == tag[1..] + s;
    RunAppend(tag[1..], s, NameChar);
    assert text[1 + name..] == rest + s;
    if rest != "" {
      assert (rest + s)[0] == rest[0] && (rest + s)[1..] == rest[1..] + s;
      RunAppend(rest[1..], s, TagChar);
    }
  }

  lemma BareLength(tag: string, s: string)
    requires tag != "" && TagLength(tag) == |tag| && (s != "" ==> !TagChar(s[0]))
    ensures TagLength(tag + s) == |tag|
  {
    if tag[0] == '@' {
      MetaLength(tag, s);
    } else {
      assert (tag + s)[0] == tag[0] && (tag + s)[1..] == tag[1..] + s;
      RunAppend(tag[1..], s, TagChar);
    }
  }

  lemma LexBare(tag: string, s: string, ts: List<Token>)
    requires BareTag(tag) && (s != "" ==> !TagChar(s[0])) && Lex(s) == Some(ts)
    ensures Lex(tag + s) == Some(Cons(Word(tag), ts))
  {
    BareLength(tag, s);
    BareChars(tag);
    assert (tag + s)[0] == tag[0] && (tag + s)[..|tag|] == tag && (tag + s)[|tag|..] == s;
  }

  // ---------------------------------------------------------------- what may follow what

  predicate NoQuotes(ps: List<Piece>) { ps.Cons? ==> !ps.head.kind.InQuotes? && NoQuotes(ps.tail) }

  predicate NoTypes(ps: List<Piece>) { ps.Cons? ==> !ps.head.kind.Images? && !ps.head.kind.Films? && NoTypes(ps.tail) }

  predicate Letters(s: string) { forall k | 0 <= k < |s| :: 'a' <= LowerChar(s[k]) <= 'z' }

  lemma FoldedLetters(s: string, word: string)
    requires Fold(s) == word && word in {"or", "and", "not"}
    ensures Letters(s) && |s| == |word| && s != ""
  {
    forall k | 0 <= k < |s| ensures 'a' <= LowerChar(s[k]) <= 'z' { assert Fold(s)[k] == word[k]; }
  }

  lemma CoreIsUnspaced(p: Piece)
    requires Good(p) && !p.kind.InQuotes?
    ensures forall k | 0 <= k < |p.core| :: !IsBlank(p.core[k])
  {
    if p.kind.Bare? { BareChars(p.core); }
    if Fold(p.core) in {"or", "and", "not"} { FoldedLetters(p.core, Fold(p.core)); }
  }

  lemma OperatorFirst(ps: List<Piece>)
    requires Typed(ps, false)
    ensures Text(ps, "") != "" ==> !TagChar(Text(ps, "")[0])
  {
  }

  /** A bare tag and what follows it never begin with a connective that is a word of its own. */
  lemma BareIsNoKeyword(tag: string, rest: string, word: string)
    requires BareTag(tag) && (rest != "" ==> !TagChar(rest[0])) && word in {"or", "and"}
    ensures NoKeyword(tag + rest, word)
  {
    var s := tag + rest;
    BareChars(tag);
    if |s| > |word| {
      if |tag| < |word| { assert Fold(s[..|word|])[|tag|] == LowerChar(rest[0]); }
      else if |tag| == |word| { assert s[..|word|] == tag; }
      else { assert s[|word|] == tag[|word|]; }
    }
  }

  lemma OperandFirst(ps: List<Piece>, word: string)
    requires Typed(ps, true) && NoQuotes(ps) && word in {"or", "and"}
    ensures NoKeyword(Text(ps, ""), word)
  {
    if ps.Cons? {
      var p, rest := ps.head, Text(ps.tail, "");
      CoreIsUnspaced(p);
      assert Text(ps, "") == p.core + (p.after + rest);
      if p.kind.Bare? {
        OperatorFirst(ps.tail);
        assert p.after + rest == rest;
        BareIsNoKeyword(p.core, rest, word);
      } else {
        if Fold(p.core) == "not" { assert Fold(p.core)[0] == LowerChar(p.core[0]); }
        NoWord(Text(ps, ""), word);
      }
    }
  }

  // ---------------------------------------------------------------- the rules of the normalizer on the pieces

  datatype Rule = OrRule | AndRule | AmpersandRule | NotRule | BangRule

  const BAR := Piece(Or, " ", "|", " ")
  const GAP := Piece(And, " ", "", "")
  const MINUS := Piece(Not, "", "-", "")
  const OPENING := Piece(Open, "", "(", "")
  const CLOSING := Piece(Close, "", ")", "")

  function Rewrite(rule: Rule, p: Piece): Piece {
    match rule
    case OrRule => if p.kind.Or? && p.core != "|" then BAR else p
    case AndRule => if p.kind.And? && Fold(p.core) == "and" then GAP else p
    case AmpersandRule => if p.kind.And? && p.core == "&" then Piece(And, p.before + " " + p.after, "", "") else p
    case NotRule => if p.kind.Not? && Fold(p.core) == "not" then MINUS else p
    case BangRule => if p.kind.Not? && p.core == "!" then p.(core := "-") else p
  }

  function Rewritten(rule: Rule, ps: List<Piece>): List<Piece> {
    match ps case Nil => Nil case Cons(p, more) => Cons(Rewrite(rule, p), Rewritten(rule, more))
  }

  function Apply(rule: Rule, s: string, after: bool): string {
    match rule
    case OrRule => ReplaceSpaced(s, "or", " | ")
    case AndRule => ReplaceSpaced(s, "and", " ")
    case AmpersandRule => ReplaceChar(s, '&', ' ')
    case NotRule => ReplaceNot(s, after)
    case BangRule => ReplaceChar(s, '!', '-')
  }

  lemma {:induction false} RewrittenIsTyped(rule: Rule, ps: List<Piece>, operand: bool)
    requires Typed(ps, operand) && NoQuotes(ps) && NoTypes(ps)
    ensures Typed(Rewritten(rule, ps), operand) && NoQuotes(Rewritten(rule, ps)) && NoTypes(Rewritten(rule, ps))
    decreases ps
  {
    if ps.Cons? { RewrittenIsTyped(rule, ps.tail, !Completes(ps.head)); }
  }

  /** What may stand behind a piece: an operand that is no connective, or an operator. */
  predicate Behind(p: Piece, rest: string) {
    if Completes(p) then rest != "" ==> !TagChar(rest[0]) else NoKeyword(rest, "or") && NoKeyword(rest, "and")
  }

  predicate EndsWord(p: Piece) { p.kind.Bare? && p.core != "" && IsWord(p.core[|p.core| - 1]) }

  lemma SpacedKept(p: Piece, rest: string, word: string, sub: string)
    requires Good(p) && !p.kind.InQuotes?
    requires p.before != "" ==> NoKeyword(p.core + (p.after + rest), word)
    requires p.after != "" ==> NoKeyword(rest, word)
    ensures ReplaceSpaced(Show(p, rest), word, sub) == Show(p, ReplaceSpaced(rest, word, sub))
  {
    CoreIsUnspaced(p);
    if p.after != "" { KeepsBlanks(p.after, rest, word, sub); }
    else { EmptyPrefix(rest, ReplaceSpaced(rest, word, sub)); }
    KeepsUnspaced(p.core, p.after + rest, word, sub);
    if p.before != "" { KeepsBlanks(p.before, p.core + (p.after + rest), word, sub); }
    else { EmptyPrefix(p.core + (p.after + rest), ReplaceSpaced(p.core + (p.after + rest), word, sub)); }
  }

  lemma EmptyPrefix(s: string, t: string)
    ensures "" + s == s && "" + t == t
  {
  }

  lemma OrPiece(p: Piece, rest: string)
    requires Good(p) && !p.kind.InQuotes? && Behind(p, rest)
    ensures ReplaceSpaced(Show(p, rest), "or", " | ") == Show(Rewrite(OrRule, p), ReplaceSpaced(rest, "or", " | "))
  {
    if p.kind.Or? && p.core != "|" {
      FoldedLetters(p.core, "or");
      ReplacesSpaced(p.before, p.core, p.after, rest, "or", " | ");
      BarShown(ReplaceSpaced(rest, "or", " | "));
    } else {
      if p.before != "" { NotThisWord(p, rest, "or"); }
      SpacedKept(p, rest, "or", " | ");
    }
  }

  lemma BarShown(rest: string)
    ensures Show(BAR, rest) == " | " + rest
  {
    assert " | " + rest == " " + ("|" + (" " + rest));
  }

  /** An operator that is not the word itself. */
  lemma NotThisWord(p: Piece, rest: string, word: string)
    requires Good(p) && (p.kind.Or? || p.kind.And? || p.kind.Close?) && Behind(p, rest) && word in {"or", "and"}
    requires Fold(p.core) != word
    ensures NoKeyword(p.core + (p.after + rest), word)
  {
    var s := p.core + (p.after + rest);
    if p.core == "" {
      assert s == rest;
    } else {
      if Fold(p.core) in {"or", "and"} {
        FoldedLetters(p.core, Fold(p.core));
        assert Fold(p.core)[0] == LowerChar(p.core[0]);
      }
      NoWord(s, word);
    }
  }

  lemma AndPiece(p: Piece, rest: string)
    requires Good(p) && !p.kind.InQuotes? && Behind(p, rest)
    ensures ReplaceSpaced(Show(p, rest), "and", " ") == Show(Rewrite(AndRule, p), ReplaceSpaced(rest, "and", " "))
  {
    if p.kind.And? && Fold(p.core) == "and" {
      FoldedLetters(p.core, "and");
      ReplacesSpaced(p.before, p.core, p.after, rest, "and", " ");
      EmptyPrefix(ReplaceSpaced(rest, "and", " "), ReplaceSpaced(rest, "and", " "));
    } else {
      if p.before != "" { NotThisWord(p, rest, "and"); }
      SpacedKept(p, rest, "and", " ");
    }
  }

  lemma SymbolPiece(p: Piece, rest: string, rule: Rule)
    requires Good(p) && !p.kind.InQuotes? && rule in {AmpersandRule, BangRule}
    ensures Apply(rule, Show(p, rest), false) == Show(Rewrite(rule, p), Apply(rule, rest, false))
  {
    var (c, d) := if rule.BangRule? then ('!', '-') else ('&', ' ');
    SymbolInPiece(p, rest, c, d);
    if p.core == [c] {
      SymbolReplaced(p, c, d, ReplaceChar(rest, c, d));
      SymbolMeansOperator(p, c);
    } else {
      CoreHasNoSymbol(p, c);
      ReplaceCharKeeps(p.core, c, d);
      assert Rewrite(rule, p) == p;
    }
  }

  lemma SymbolMeansOperator(p: Piece, c: char)
    requires Good(p) && !p.kind.InQuotes? && p.core == [c] && (c == '&' || c == '!')
    ensures if c == '&' then p.kind.And? else p.kind.Not? && p.before == ""
  {
    if p.kind.Bare? { BareChars(p.core); }
  }

  lemma SymbolInPiece(p: Piece, rest: string, c: char, d: char)
    requires Blank(p.before) && Blank(p.after) && !p.kind.InQuotes? && (c == '&' || c == '!')
    ensures ReplaceChar(Show(p, rest), c, d)
      == p.before + (ReplaceChar(p.core, c, d) + (p.after + ReplaceChar(rest, c, d)))
  {
    ReplaceCharJoins(p.before, p.core + (p.after + rest), c, d);
    ReplaceCharJoins(p.core, p.after + rest, c, d);
    ReplaceCharJoins(p.after, rest, c, d);
    ReplaceCharKeeps(p.before, c, d);
    ReplaceCharKeeps(p.after, c, d);
  }

  lemma SymbolReplaced(p: Piece, c: char, d: char, tail: string)
    requires p.core == [c]
    ensures ReplaceChar(p.core, c, d) == [d]
    ensures p.before + ([d] + (p.after + tail)) == (p.before + [d] + p.after) + ("" + ("" + tail))
  {
    assert p.core[1..] == "";
  }

  lemma CoreHasNoSymbol(p: Piece, c: char)
    requires Good(p) && !p.kind.InQuotes? && (c == '&' || c == '!') && p.core != [c]
    ensures c !in p.core
  {
    if p.kind.Bare? { BareChars(p.core); }
    if Fold(p.core) in {"or", "and", "not"} { FoldedLetters(p.core, Fold(p.core)); }
  }

  // ---------------------------------------------------------------- not

  lemma BareKeepsNot(tag: string, rest: string, k: nat)
    requires BareTag(tag) && (rest != "" ==> !TagChar(rest[0])) && k < |tag| && WordBegins(tag, k)
    ensures !NotAt(tag[k..] + rest)
  {
    var s := tag[k..] + rest;
    BareChars(tag);
    if |s| > 3 {
      if k + 3 < |tag| { assert s[3] == tag[k + 3]; }
      else if k + 3 == |tag| { assert s[..3] == tag[k..]; }
      else { assert Fold(s[..3])[|tag| - k] == LowerChar(rest[0]); }
    }
  }

  /** Text in which no word begins with an n. */
  predicate NoN(c: string) { forall k | 0 <= k < |c| :: LowerChar(c[k]) != 'n' || (k > 0 && IsWord(c[k - 1])) }

  lemma NotPiece(p: Piece, rest: string, after: bool)
    requires Good(p) && !p.kind.InQuotes? && !p.kind.Images? && !p.kind.Films? && Behind(p, rest)
    requires Begins(p) ==> !after
    ensures ReplaceNot(Show(p, rest), after) == Show(Rewrite(NotRule, p), ReplaceNot(rest, EndsWord(p)))
  {
    if p.kind.Not? && Fold(p.core) == "not" {
      NotReplaced(p.core, p.after, rest);
      EmptyPrefix(p.core + (p.after + rest), ReplaceNot(rest, false));
      EmptyPrefix(ReplaceNot(rest, false), "-" + ReplaceNot(rest, false));
    } else {
      var c := p.before + p.core + p.after;
      if p.kind.Bare? { BareHasNoNot(p.core, rest, after); EmptyPrefix(p.core, p.core); assert c == p.core; }
      else { OperatorHasNoNot(p, rest, after); }
      NotKept(p, c, rest, after);
    }
  }

  lemma BareHasNoNot(tag: string, rest: string, after: bool)
    requires BareTag(tag) && (rest != "" ==> !TagChar(rest[0])) && !after
    ensures forall k | 0 <= k < |tag| && !AfterWord(tag, k, after) :: !NotAt(tag[k..] + rest)
  {
    forall k | 0 <= k < |tag| && !AfterWord(tag, k, after) ensures !NotAt(tag[k..] + rest) {
      BareKeepsNot(tag, rest, k);
    }
  }

  lemma OperatorHasNoNot(p: Piece, rest: string, after: bool)
    requires Good(p) && !(p.kind in {Bare, InQuotes, Images, Films}) && !(p.kind.Not? && Fold(p.core) == "not")
    ensures var c := p.before + p.core + p.after;
      forall k | 0 <= k < |c| && !AfterWord(c, k, after) :: !NotAt(c[k..] + rest)
  {
    var c := p.before + p.core + p.after;
    OperatorHasNoN(p);
    forall k | 0 <= k < |c| && !AfterWord(c, k, after) ensures !NotAt(c[k..] + rest) {
      NoWord(c[k..] + rest, "not");
    }
  }

  lemma NotKept(p: Piece, c: string, rest: string, after: bool)
    requires Good(p) && !p.kind.InQuotes? && !p.kind.Images? && !p.kind.Films? && c == p.before + p.core + p.after
    requires forall k | 0 <= k < |c| && !AfterWord(c, k, after) :: !NotAt(c[k..] + rest)
    ensures ReplaceNot(Show(p, rest), after) == Show(p, ReplaceNot(rest, EndsWord(p)))
  {
    NotsKept(c, rest, after);
    LastOfPiece(p, after);
    ShowJoins(p, c, rest);
    ShowJoins(p, c, ReplaceNot(rest, EndsWord(p)));
  }

  lemma ShowJoins(p: Piece, c: string, rest: string)
    requires !p.kind.InQuotes? && c == p.before + p.core + p.after
    ensures Show(p, rest) == c + rest
  {
  }

  lemma LastOfPiece(p: Piece, after: bool)
    requires Good(p) && !p.kind.InQuotes? && !p.kind.Images? && !p.kind.Films?
    ensures var c := p.before + p.core + p.after; c != "" && AfterWord(c, |c|, after) == EndsWord(p)
  {
  }

  lemma OperatorHasNoN(p: Piece)
    requires Good(p) && !(p.kind in {Bare, InQuotes, Images, Films}) && !(p.kind.Not? && Fold(p.core) == "not")
    ensures NoN(p.before + p.core + p.after)
  {
    var c := p.before + p.core + p.after;
    var a := |p.before|;
    if Fold(p.core) in {"or", "and"} {
      FoldedLetters(p.core, Fold(p.core));
      forall k | 0 <= k < |p.core| ensures c[a + k] == p.core[k] && LowerChar(p.core[k]) == Fold(p.core)[k] { }
      assert IsWord(c[a]);
    }
    forall k | 0 <= k < |c| ensures LowerChar(c[k]) != 'n' || (k > 0 && IsWord(c[k - 1])) {
      if k < a { assert c[k] == p.before[k]; }
      else if k < a + |p.core| { assert c[k] == p.core[k - a]; }
      else { assert c[k] == p.after[k - a - |p.core|]; }
    }
  }

  lemma NotReplaced(w: string, b: string, rest: string)
    requires Fold(w) == "not" && Blank(b) && b != "" && (rest != "" ==> !IsBlank(rest[0]))
    ensures ReplaceNot(w + (b + rest), false) == "-" + ReplaceNot(rest, false)
  {
    var s := w + (b + rest);
    SpacesOf(b, rest);
    assert s[..3] == w && s[3..] == b + rest && s[3 + |b|..] == rest;
  }

  // ---------------------------------------------------------------- one rule over a whole segment

  lemma PiecePass(rule: Rule, p: Piece, rest: string, after: bool)
    requires Good(p) && !p.kind.InQuotes? && !p.kind.Images? && !p.kind.Films? && Behind(p, rest)
    requires Begins(p) ==> !after
    ensures Apply(rule, Show(p, rest), after) == Show(Rewrite(rule, p), Apply(rule, rest, EndsWord(p)))
  {
    match rule
    case OrRule => OrPiece(p, rest);
    case AndRule => AndPiece(p, rest);
    case NotRule => NotPiece(p, rest, after);
    case _ => SymbolPiece(p, rest, rule);
  }

  lemma {:induction false} Pass(rule: Rule, ps: List<Piece>, operand: bool, after: bool)
    requires Typed(ps, operand) && NoQuotes(ps) && NoTypes(ps) && (operand ==> !after)
    ensures Apply(rule, Text(ps, ""), after) == Text(Rewritten(rule, ps), "")
    decreases ps
  {
    if ps.Cons? {
      var p, rest := ps.head, Text(ps.tail, "");
      BehindPiece(ps, operand);
      PiecePass(rule, p, rest, after);
      Pass(rule, ps.tail, !Completes(p), EndsWord(p));
    }
  }

  lemma BehindPiece(ps: List<Piece>, operand: bool)
    requires Typed(ps, operand) && NoQuotes(ps) && ps.Cons?
    ensures Behind(ps.head, Text(ps.tail, ""))
  {
    if Completes(ps.head) { OperatorFirst(ps.tail); }
    else { OperandFirst(ps.tail, "or"); OperandFirst(ps.tail, "and"); }
  }

  // ---------------------------------------------------------------- virtual types

  function GroupPieces(extensions: List<string>, rest: List<Piece>): List<Piece> {
    Cons(OPENING, AlternativePieces(extensions, rest))
  }

  function AlternativePieces(extensions: List<string>, rest: List<Piece>): List<Piece> {
    match extensions
    case Nil => Cons(CLOSING, rest)
    case Cons(ext, more) =>
      Cons(Piece(Bare, "", "ext:" + ext, ""),
           if more.Nil? then Cons(CLOSING, rest) else Cons(BAR, AlternativePieces(more, rest)))
  }

  function Expanded(ps: List<Piece>): List<Piece> {
    match ps
    case Nil => Nil
    case Cons(p, more) =>
      if p.kind.Images? then GroupPieces(IMAGE_EXTENSIONS, Expanded(more))
      else if p.kind.Films? then GroupPieces(VIDEO_EXTENSIONS, Expanded(more))
      else Cons(p, Expanded(more))
  }

  /** Short, of small letters, digits and dots, and not ending in a t. */
  predicate PlainExtension(e: string) {
    0 < |e| <= 5 && e[|e| - 1] != 't'
    && forall k | 0 <= k < |e| :: 'a' <= e[k] <= 'z' || '0' <= e[k] <= '9' || e[k] == '.'
  }

  predicate PlainExtensions(extensions: List<string>) {
    extensions.Cons? ==> PlainExtension(extensions.head) && PlainExtensions(extensions.tail)
  }

  lemma {:induction false} WholeRun(s: string, p: char -> bool)
    requires forall k | 0 <= k < |s| :: p(s[k])
    ensures Run(s, p) == |s|
    decreases |s|
  {
    if s != "" { WholeRun(s[1..], p); }
  }

  lemma ExtensionIsBare(e: string)
    requires PlainExtension(e)
    ensures BareTag("ext:" + e)
  {
    var tag := "ext:" + e;
    assert tag[1..] == "xt:" + e;
    WholeRun(tag[1..], TagChar);
    forall k | 0 <= k < |tag| && WordBegins(tag, k) ensures Fold(tag[k..]) != "not" && !TypeAt(tag[k..]) {
      var end := tag[k..];
      assert end[|end| - 1] == e[|e| - 1] && Fold(end)[|end| - 1] == LowerChar(e[|e| - 1]);
      if k == 0 && |end| >= 8 { assert end[..8][0] == 'e'; }
    }
  }

  lemma {:induction false} ExtensionsAreTyped(extensions: List<string>, rest: List<Piece>)
    requires extensions.Cons? && PlainExtensions(extensions) && Typed(rest, false) && NoQuotes(rest) && NoTypes(rest)
    ensures var ps := AlternativePieces(extensions, rest); Typed(ps, true) && NoQuotes(ps) && NoTypes(ps)
    decreases extensions
  {
    ExtensionIsBare(extensions.head);
    if extensions.tail.Cons? { ExtensionsAreTyped(extensions.tail, rest); }
  }

  lemma PlainThree(a: string, b: string, c: string, rest: List<string>)
    requires PlainExtension(a) && PlainExtension(b) && PlainExtension(c) && PlainExtensions(rest)
    ensures PlainExtensions(Cons(a, Cons(b, Cons(c, rest))))
  {
    assert PlainExtensions(Cons(c, rest));
  }

  lemma KnownImages()
    ensures IMAGE_EXTENSIONS.Cons? && PlainExtensions(IMAGE_EXTENSIONS)
  {
    LaterImagesKnown();
    PlainThree("gif", "webp", ".ico", Drop(IMAGE_EXTENSIONS, 6));
    PlainThree("jpg", "jpeg", "png", Drop(IMAGE_EXTENSIONS, 3));
  }

  lemma LaterImagesKnown()
    ensures PlainExtensions(Drop(IMAGE_EXTENSIONS, 6))
  {
    PlainThree("nef", "arw", "orf", Nil);
    PlainThree("tiff", "raw", "cr2", Drop(IMAGE_EXTENSIONS, 12));
    PlainThree("heic", "heif", "bmp", Drop(IMAGE_EXTENSIONS, 9));
  }

  lemma KnownVideos()
    ensures VIDEO_EXTENSIONS.Cons? && PlainExtensions(VIDEO_EXTENSIONS)
  {
    PlainThree("wmv", "mpeg", "mpg", Nil);
    PlainThree("mkv", "webm", "flv", Drop(VIDEO_EXTENSIONS, 6));
    PlainThree("mp4", "mov", "avi", Drop(VIDEO_EXTENSIONS, 3));
  }

  predicate Unquoted(ps: List<Piece>, operand: bool) { Typed(ps, operand) && NoQuotes(ps) && NoTypes(ps) }

  lemma ImagesAreTyped(rest: List<Piece>)
    requires Unquoted(rest, false)
    ensures Unquoted(GroupPieces(IMAGE_EXTENSIONS, rest), true)
  {
    KnownImages();
    ExtensionsAreTyped(IMAGE_EXTENSIONS, rest);
  }

  lemma VideosAreTyped(rest: List<Piece>)
    requires Unquoted(rest, false)
    ensures Unquoted(GroupPieces(VIDEO_EXTENSIONS, rest), true)
  {
    KnownVideos();
    ExtensionsAreTyped(VIDEO_EXTENSIONS, rest);
  }

  lemma {:induction false} ExpandedIsTyped(ps: List<Piece>, operand: bool)
    requires Typed(ps, operand) && NoQuotes(ps)
    ensures Unquoted(Expanded(ps), operand)
    decreases ps
  {
    if ps.Cons? {
      ExpandedIsTyped(ps.tail, !Completes(ps.head));
      if ps.head.kind.Images? { ImagesAreTyped(Expanded(ps.tail)); }
      else if ps.head.kind.Films? { VideosAreTyped(Expanded(ps.tail)); }
    }
  }

  lemma {:induction false} AlternativesShown(extensions: List<string>, ps: List<Piece>, rest: string)
    requires extensions.Cons?
    ensures Text(AlternativePieces(extensions, ps), rest) == Alternatives(extensions) + (")" + Text(ps, rest))
    decreases extensions
  {
    var one, closing := "ext:" + extensions.head, ")" + Text(ps, rest);
    if extensions.tail.Nil? {
      assert one + "" + "" + closing == "" + (one + ("" + ("" + (")" + ("" + Text(ps, rest))))));
    } else {
      AlternativesShown(extensions.tail, ps, rest);
      var more := Alternatives(extensions.tail);
      assert one + " | " + more + closing == "" + (one + ("" + (" " + ("|" + (" " + (more + closing))))));
    }
  }

  lemma GroupShown(extensions: List<string>, ps: List<Piece>, rest: string)
    requires extensions.Cons?
    ensures Text(GroupPieces(extensions, ps), rest) == TypeGroup(extensions) + Text(ps, rest)
  {
    AlternativesShown(extensions, ps, rest);
    var inner := Alternatives(extensions);
    assert "" + ("(" + ("" + (inner + (")" + Text(ps, rest))))) == "(" + inner + ")" + Text(ps, rest);
  }

  lemma TypeReplaced(s: string, rest: string, after: bool)
    requires s in {"type:img", "type:vid"} && !after && (rest != "" ==> !IsWord(rest[0]))
    ensures ExpandTypes(s + rest, after) ==
      TypeGroup(if s == "type:img" then IMAGE_EXTENSIONS else VIDEO_EXTENSIONS) + ExpandTypes(rest, true)
  {
    assert (s + rest)[..8] == s && (s + rest)[8..] == rest;
  }

  lemma BareKeepsType(tag: string, rest: string, k: nat)
    requires BareTag(tag) && (rest != "" ==> !TagChar(rest[0])) && k < |tag| && WordBegins(tag, k)
    ensures !TypeAt(tag[k..] + rest)
  {
    var s, n := tag[k..] + rest, |tag| - k;
    assert !TypeAt(tag[k..]);
    if |s| >= 8 {
      if n >= 8 { assert s[..8] == tag[k..][..8]; }
      else { assert s[..8][n] == rest[0] && TypeLetters(); }
    }
  }

  /** All characters of the virtual types are tag characters. */
  predicate TypeLetters()
    ensures TypeLetters()
  {
    assert forall k | 0 <= k < 8 :: TagChar("type:img"[k]) && TagChar("type:vid"[k]);
    true
  }

  /** Text in which no t is followed by a y. */
  predicate NoTy(c: string) { forall k | 0 <= k < |c| && c[k] == 't' :: k + 1 < |c| && c[k + 1] != 'y' }

  lemma OperatorHasNoTy(p: Piece)
    requires Good(p) && !(p.kind in {Bare, InQuotes, Images, Films})
    ensures NoTy(p.before + p.core + p.after)
  {
    var c, a, b := p.before + p.core + p.after, |p.before|, |p.before| + |p.core|;
    if Fold(p.core) in {"or", "and", "not"} {
      FoldedLetters(p.core, Fold(p.core));
      forall k | 0 <= k < |p.core| ensures LowerChar(p.core[k]) == Fold(p.core)[k] { }
    }
    forall k | 0 <= k < |c| ensures c[k] == 't' ==> k + 1 < |c| && c[k + 1] != 'y' {
      if k < a { assert c[k] == p.before[k]; }
      else if k >= b { assert c[k] == p.after[k - b]; }
      else { assert c[k] == p.core[k - a] && (p.after != "" ==> c[b] == p.after[0]); }
    }
  }

  lemma TypePiece(p: Piece, rest: string, after: bool)
    requires Good(p) && !(p.kind in {InQuotes, Images, Films}) && Behind(p, rest) && (Begins(p) ==> !after)
    ensures ExpandTypes(Show(p, rest), after) == Show(p, ExpandTypes(rest, EndsWord(p)))
  {
    var c := p.before + p.core + p.after;
    if p.kind.Bare? {
      assert c == p.core;
      forall k | 0 <= k < |c| && !AfterWord(c, k, after) ensures !TypeAt(c[k..] + rest) { BareKeepsType(c, rest, k); }
    } else {
      OperatorHasNoTy(p);
      forall k | 0 <= k < |c| && !AfterWord(c, k, after) ensures !TypeAt(c[k..] + rest) { NoTypeWithoutTy(c, rest, k); }
    }
    TypesKept(c, rest, after);
    LastOfPiece(p, after);
    ShowJoins(p, c, rest);
    ShowJoins(p, c, ExpandTypes(rest, EndsWord(p)));
  }

  lemma NoTypeWithoutTy(c: string, rest: string, k: nat)
    requires NoTy(c) && k < |c|
    ensures !TypeAt(c[k..] + rest)
  {
    var s := c[k..] + rest;
    if |s| >= 8 {
      assert s[..8][0] == c[k];
      if c[k] == 't' { assert s[..8][1] == c[k + 1]; }
    }
  }

  lemma {:induction false} TypePass(ps: List<Piece>, operand: bool, after: bool)
    requires Typed(ps, operand) && NoQuotes(ps) && (operand ==> !after)
    ensures ExpandTypes(Text(ps, ""), after) == Text(Expanded(ps), "")
    decreases ps
  {
    if ps.Cons? {
      var p, rest := ps.head, Text(ps.tail, "");
      BehindPiece(ps, operand);
      if p.kind.Images? || p.kind.Films? {
        TypePass(ps.tail, false, true);
        TypeExpands(p, rest, Expanded(ps.tail), after);
      } else {
        TypePass(ps.tail, !Completes(p), EndsWord(p));
        TypePiece(p, rest, after);
      }
    }
  }

  lemma TypeExpands(p: Piece, rest: string, expanded: List<Piece>, after: bool)
    requires Good(p) && (p.kind.Images? || p.kind.Films?) && Behind(p, rest) && !after
    requires ExpandTypes(rest, true) == Text(expanded, "")
    ensures ExpandTypes(Show(p, rest), after) ==
      Text(GroupPieces(if p.kind.Images? then IMAGE_EXTENSIONS else VIDEO_EXTENSIONS, expanded), "")
  {
    EmptyPrefix(p.core + rest, rest);
    TypeReplaced(p.core, rest, after);
    GroupShown(if p.kind.Images? then IMAGE_EXTENSIONS else VIDEO_EXTENSIONS, expanded, "");
  }

  // ---------------------------------------------------------------- one segment

  /** The piece as the normalizer leaves it. */
  function Settle(p: Piece): Piece {
    match p.kind
    case Or => if p.core == "|" then p else BAR
    case And =>
      if Fold(p.core) == "and" then GAP else if p.core == "&" then Piece(And, p.before + " " + p.after, "", "") else p
    case Not => if Fold(p.core) == "not" then MINUS else p.(core := "-")
    case _ => p
  }

  function Settled(ps: List<Piece>): List<Piece> {
    match ps
    case Nil => Nil
    case Cons(p, more) =>
      if p.kind.Images? then GroupPieces(IMAGE_EXTENSIONS, Settled(more))
      else if p.kind.Films? then GroupPieces(VIDEO_EXTENSIONS, Settled(more))
      else Cons(Settle(p), Settled(more))
  }

  function AllRules(ps: List<Piece>): List<Piece> {
    Rewritten(BangRule, Rewritten(NotRule, Rewritten(AmpersandRule, Rewritten(AndRule, Rewritten(OrRule, ps)))))
  }

  lemma RulesSettle(p: Piece)
    requires Good(p) && !(p.kind in {InQuotes, Images, Films})
    ensures Settle(p)
      == Rewrite(BangRule, Rewrite(NotRule, Rewrite(AmpersandRule, Rewrite(AndRule, Rewrite(OrRule, p)))))
  {
    assert Fold("&") != "and" by { assert |Fold("&")| == 1; }
    assert Fold("-") != "not" by { assert |Fold("-")| == 1; }
    assert Fold("!") != "not" by { assert |Fold("!")| == 1; }
  }

  lemma {:induction false} RuleKeepsAlternatives(rule: Rule, extensions: List<string>, ps: List<Piece>)
    ensures Rewritten(rule, AlternativePieces(extensions, ps)) == AlternativePieces(extensions, Rewritten(rule, ps))
    decreases extensions
  {
    if extensions.Cons? && extensions.tail.Cons? { RuleKeepsAlternatives(rule, extensions.tail, ps); }
  }

  lemma RulesKeepGroup(extensions: List<string>, ps: List<Piece>)
    ensures AllRules(GroupPieces(extensions, ps)) == GroupPieces(extensions, AllRules(ps))
  {
    var ps1 := Rewritten(OrRule, ps);
    var ps2 := Rewritten(AndRule, ps1);
    var ps3 := Rewritten(AmpersandRule, ps2);
    var ps4 := Rewritten(NotRule, ps3);
    RuleKeepsAlternatives(OrRule, extensions, ps);
    RuleKeepsAlternatives(AndRule, extensions, ps1);
    RuleKeepsAlternatives(AmpersandRule, extensions, ps2);
    RuleKeepsAlternatives(NotRule, extensions, ps3);
    RuleKeepsAlternatives(BangRule, extensions, ps4);
  }

  lemma RulesOnFirst(p: Piece, ps: List<Piece>)
    ensures AllRules(Cons(p, ps)) == Cons(
      Rewrite(BangRule, Rewrite(NotRule, Rewrite(AmpersandRule, Rewrite(AndRule, Rewrite(OrRule, p))))), AllRules(ps))
  {
    var p1 := Rewrite(OrRule, p);
    var p2 := Rewrite(AndRule, p1);
    var p3 := Rewrite(AmpersandRule, p2);
    assert Rewritten(AndRule, Cons(p1, Rewritten(OrRule, ps))) == Cons(p2, Rewritten(AndRule, Rewritten(OrRule, ps)));
  }

  lemma {:induction false} ExpandedSettles(ps: List<Piece>, operand: bool)
    requires Typed(ps, operand) && NoQuotes(ps)
    ensures AllRules(Expanded(ps)) == Settled(ps)
    decreases ps
  {
    if ps.Cons? {
      var p := ps.head;
      ExpandedSettles(ps.tail, !Completes(p));
      if p.kind.Images? { RulesKeepGroup(IMAGE_EXTENSIONS, Expanded(ps.tail)); }
      else if p.kind.Films? { RulesKeepGroup(VIDEO_EXTENSIONS, Expanded(ps.tail)); }
      else {
        RulesOnFirst(p, Expanded(ps.tail));
        RulesSettle(p);
      }
    }
  }

  lemma RulePasses(rule: Rule, ps: List<Piece>, operand: bool)
    requires Typed(ps, operand) && NoQuotes(ps) && NoTypes(ps)
    ensures Apply(rule, Text(ps, ""), false) == Text(Rewritten(rule, ps), "")
    ensures Typed(Rewritten(rule, ps), operand) && NoQuotes(Rewritten(rule, ps)) && NoTypes(Rewritten(rule, ps))
  {
    Pass(rule, ps, operand, false);
    RewrittenIsTyped(rule, ps, operand);
  }

  lemma SegmentIsSettled(ps: List<Piece>, operand: bool)
    requires Typed(ps, operand) && NoQuotes(ps)
    ensures NormalizeUnquoted(Text(ps, "")) == Text(Settled(ps), "")
  {
    var ps0 := Expanded(ps);
    var ps1 := Rewritten(OrRule, ps0);
    var ps2 := Rewritten(AndRule, ps1);
    var ps3 := Rewritten(AmpersandRule, ps2);
    var ps4 := Rewritten(NotRule, ps3);
    TypePass(ps, operand, false);
    ExpandedIsTyped(ps, operand);
    ExpandedSettles(ps, operand);
    RulePasses(OrRule, ps0, operand);
    RulePasses(AndRule, ps1, operand);
    RulePasses(AmpersandRule, ps2, operand);
    RulePasses(NotRule, ps3, operand);
    RulePasses(BangRule, ps4, operand);
    InRuleOrder(Text(ps, ""), Text(ps0, ""), Text(ps1, ""), Text(ps2, ""), Text(ps3, ""), Text(ps4, ""));
  }

  lemma InRuleOrder(s: string, s0: string, s1: string, s2: string, s3: string, s4: string)
    requires ExpandTypes(s, false) == s0 && Apply(OrRule, s0, false) == s1 && Apply(AndRule, s1, false) == s2
    requires Apply(AmpersandRule, s2, false) == s3 && Apply(NotRule, s3, false) == s4
    ensures NormalizeUnquoted(s) == Apply(BangRule, s4, false)
  {
  }

  // ---------------------------------------------------------------- the whole text

  function UpToQuote(ps: List<Piece>): List<Piece> {
    match ps
    case Nil => Nil
    case Cons(p, more) => if p.kind.InQuotes? then Nil else Cons(p, UpToQuote(more))
  }

  function FromQuote(ps: List<Piece>): (r: List<Piece>)
    ensures Length(r) <= Length(ps)
  {
    match ps
    case Nil => Nil
    case Cons(p, more) => if p.kind.InQuotes? then ps else FromQuote(more)
  }

  lemma ShowAppend(p: Piece, s: string, t: string)
    requires !p.kind.InQuotes?
    ensures Show(p, s + t) == Show(p, s) + t
  {
    assert p.before + (p.core + (p.after + (s + t))) == (p.before + (p.core + (p.after + s))) + t;
  }

  lemma {:induction false} CutJoins(ps: List<Piece>)
    ensures Text(ps, "") == Text(UpToQuote(ps), "") + Text(FromQuote(ps), "")
    decreases ps
  {
    if ps.Cons? && !ps.head.kind.InQuotes? {
      CutJoins(ps.tail);
      ShowAppend(ps.head, Text(UpToQuote(ps.tail), ""), Text(FromQuote(ps.tail), ""));
    } else {
      EmptyPrefix(Text(ps, ""), Text(ps, ""));
    }
  }

  lemma {:induction false} CutIsTyped(ps: List<Piece>, operand: bool)
    requires Typed(ps, operand)
    ensures Typed(UpToQuote(ps), operand) && NoQuotes(UpToQuote(ps))
    ensures FromQuote(ps).Cons? ==> FromQuote(ps).head.kind.InQuotes? && Typed(FromQuote(ps), true)
    decreases ps
  {
    if ps.Cons? && !ps.head.kind.InQuotes? { CutIsTyped(ps.tail, !Completes(ps.head)); }
  }

  lemma {:induction false} CutEndsPlainly(ps: List<Piece>, operand: bool)
    requires Typed(ps, operand) && FromQuote(ps).Cons? && UpToQuote(ps).Cons?
    ensures NoBackslashLast(Text(UpToQuote(ps), ""))
    decreases ps
  {
    var p := ps.head;
    if UpToQuote(ps.tail).Nil? {
      OperatorEndsPlainly(p);
    } else {
      CutEndsPlainly(ps.tail, !Completes(p));
      ShowAppend(p, "", Text(UpToQuote(ps.tail), ""));
      EmptyPrefix(Text(UpToQuote(ps.tail), ""), "");
    }
  }

  predicate NoBackslashLast(s: string) { s != "" && s[|s| - 1] != '\\' }

  lemma OperatorEndsPlainly(p: Piece)
    requires Good(p) && !Completes(p)
    ensures NoBackslashLast(Show(p, ""))
  {
    if Fold(p.core) in {"or", "and", "not"} { FoldedLetters(p.core, Fold(p.core)); }
  }

  lemma {:induction false} SettledSplits(ps: List<Piece>)
    ensures Text(Settled(ps), "") == Text(Settled(UpToQuote(ps)), "") + Text(Settled(FromQuote(ps)), "")
    decreases ps
  {
    if ps.Cons? && !ps.head.kind.InQuotes? {
      var run, from := Settled(UpToQuote(ps.tail)), Text(Settled(FromQuote(ps.tail)), "");
      SettledSplits(ps.tail);
      SettledFirst(ps.head, ps.tail);
      SettledFirst(ps.head, UpToQuote(ps.tail));
      ShowsAppend(ps.head, Text(run, ""), from);
    } else {
      EmptyPrefix(Text(Settled(ps), ""), Text(Settled(ps), ""));
    }
  }

  /** The settled piece, or the group of its type, in front of some text. */
  function Shows(p: Piece, rest: string): string {
    if p.kind.Images? then TypeGroup(IMAGE_EXTENSIONS) + rest
    else if p.kind.Films? then TypeGroup(VIDEO_EXTENSIONS) + rest
    else Show(Settle(p), rest)
  }

  lemma SettledFirst(p: Piece, ps: List<Piece>)
    ensures Text(Settled(Cons(p, ps)), "") == Shows(p, Text(Settled(ps), ""))
  {
    if p.kind.Images? {
      GroupShown(IMAGE_EXTENSIONS, Settled(ps), "");
    } else if p.kind.Films? {
      GroupShown(VIDEO_EXTENSIONS, Settled(ps), "");
    } else {
      assert Settled(Cons(p, ps)) == Cons(Settle(p), Settled(ps));
    }
  }

  lemma ShowsAppend(p: Piece, s: string, t: string)
    requires !p.kind.InQuotes?
    ensures Shows(p, s + t) == Shows(p, s) + t
  {
    if p.kind.Images? { Regroup(TypeGroup(IMAGE_EXTENSIONS), s, t); }
    else if p.kind.Films? { Regroup(TypeGroup(VIDEO_EXTENSIONS), s, t); }
    else { ShowAppend(Settle(p), s, t); }
  }

  lemma {:induction false} OutsideSkips(c: string, rest: string, segment: string)
    requires '"' !in c
    ensures Outside(c + rest, segment) == Outside(rest, segment + c)
    decreases |c|
  {
    if c == "" {
      assert c + rest == rest && segment + "" == segment;
    } else {
      OutsideSkips(c[1..], rest, segment + [c[0]]);
      OneMore(c, rest);
      OutsideSkipsOne(c + rest, c[0], c[1..] + rest, segment);
      SegmentGrows(segment, c);
    }
  }

  lemma SegmentGrows(segment: string, c: string)
    requires c != ""
    ensures segment + [c[0]] + c[1..] == segment + c
  {
  }

  lemma OutsideSkipsOne(s: string, c: char, rest: string, segment: string)
    requires s == [c] + rest && c != '"'
    ensures Outside(s, segment) == Outside(rest, segment + [c])
  {
    assert s[0] == c && s[1..] == rest;
  }

  lemma PieceHasNoQuote(p: Piece)
    requires Good(p) && !p.kind.InQuotes?
    ensures '"' !in p.before + p.core + p.after
  {
    if p.kind.Bare? { BareChars(p.core); }
    if Fold(p.core) in {"or", "and", "not"} { FoldedLetters(p.core, Fold(p.core)); }
    assert '"' !in p.before && '"' !in p.core && '"' !in p.after;
  }

  lemma {:induction false} UnquotedHasNoQuote(ps: List<Piece>, operand: bool)
    requires Typed(ps, operand) && NoQuotes(ps)
    ensures '"' !in Text(ps, "")
    decreases ps
  {
    if ps.Cons? {
      var p := ps.head;
      UnquotedHasNoQuote(ps.tail, !Completes(p));
      PieceHasNoQuote(p);
      ShowJoins(p, p.before + p.core + p.after, Text(ps.tail, ""));
    }
  }

  /** The normalizer settles every piece and copies every quoted tag. */
  lemma {:induction false} TypedIsSettled(ps: List<Piece>, operand: bool)
    requires Typed(ps, operand)
    ensures Outside(Text(ps, ""), "") == Text(Settled(ps), "")
    decreases Length(ps)
  {
    var run, from := UpToQuote(ps), FromQuote(ps);
    var segment := Text(run, "");
    CutJoins(ps);
    CutIsTyped(ps, operand);
    SettledSplits(ps);
    UnquotedHasNoQuote(run, operand);
    OutsideSkips(segment, Text(from, ""), "");
    EmptyPrefix(segment, segment);
    SegmentIsSettled(run, operand);
    if from.Nil? {
      assert Text(Settled(run), "") + "" == Text(Settled(run), "");
    } else {
      var tag, more := from.head.core, from.tail;
      TypedIsSettled(more, false);
      if run.Cons? { CutEndsPlainly(ps, operand); }
      OutsideQuoted(tag, Text(more, ""), segment);
    }
  }

  lemma OutsideQuoted(tag: string, s: string, segment: string)
    requires Printable(tag) && !Escaping(segment)
    ensures Outside("\"" + Escaped(tag, "\"" + s), segment)
      == NormalizeUnquoted(segment) + ("\"" + Escaped(tag, "\"" + Outside(s, "")))
  {
    var text := "\"" + Escaped(tag, "\"" + s);
    assert text[0] == '"' && text[1..] == Escaped(tag, "\"" + s);
    InsideEscaped(tag, s, "\"");
  }

  // ---------------------------------------------------------------- the tokens

  lemma LexBlank(text: string, c: char, s: string)
    requires text == [c] + s && IsBlank(c)
    ensures Lex(text) == Lex(s)
  {
    assert text[0] == c && text[1..] == s && !TagStart(c) && !OperatorChar(c) && c != '"' && c != '@';
    assert TagLength(text) == 0;
  }

  lemma {:induction false} LexBlanks(b: string, s: string)
    requires Blank(b)
    ensures Lex(b + s) == Lex(s)
    decreases |b|
  {
    if b == "" {
      assert b + s == s;
    } else {
      LexBlanks(b[1..], s);
      OneMore(b, s);
      LexBlank(b + s, b[0], b[1..] + s);
    }
  }

  lemma ShownAlone(p: Piece, s: string)
    requires !p.kind.InQuotes? && p.after == "" && (p.before == "" || p.core == "")
    ensures Show(p, s) == (if p.core == "" then p.before else p.core) + s
  {
    EmptyPrefix(s, p.core + s);
  }

  lemma LexPiece(p: Piece, s: string, ts: List<Token>)
    requires Good(p) && !p.kind.Images? && !p.kind.Films? && Settle(p) == p && Lex(s) == Some(ts)
    requires p.kind.Bare? && s != "" ==> !TagChar(s[0])
    ensures Lex(Show(p, s)) == Some(Meaning(p, ts))
  {
    if p.kind.InQuotes? {
      LexQuoted(p.core, s);
    } else if p.kind.Bare? {
      LexBarePiece(p, s, ts);
    } else if p.kind.And? {
      SettledConjunction(p);
      LexGap(p, s);
    } else {
      SettledOperator(p, ts);
      LexOperatorPiece(p, s, ts);
    }
  }

  lemma LexBarePiece(p: Piece, s: string, ts: List<Token>)
    requires p.kind.Bare? && p.before == p.after == "" && BareTag(p.core) && (s != "" ==> !TagChar(s[0]))
    requires Lex(s) == Some(ts)
    ensures Lex(Show(p, s)) == Some(Cons(Word(p.core), ts))
  {
    ShownAlone(p, s);
    LexBare(p.core, s, ts);
  }

  lemma LexGap(p: Piece, s: string)
    requires Blank(p.before) && p.core == p.after == "" && !p.kind.InQuotes?
    ensures Lex(Show(p, s)) == Lex(s)
  {
    ShownAlone(p, s);
    LexBlanks(p.before, s);
  }

  lemma LexOperatorPiece(p: Piece, s: string, ts: List<Token>)
    requires Blank(p.before) && Blank(p.after) && !p.kind.InQuotes? && Lex(s) == Some(ts)
    requires |p.core| == 1 && OperatorChar(p.core[0]) && p.core == [p.core[0]]
    ensures Lex(Show(p, s)) == Some(Cons(Op(p.core[0]), ts))
  {
    LexBlanks(p.after, s);
    LexOperator(p.core[0], p.after + s);
    LexBlanks(p.before, p.core + (p.after + s));
  }

  lemma SettledConjunction(p: Piece)
    requires Good(p) && p.kind.And? && Settle(p) == p
    ensures p.core == "" && p.after == ""
  {
    assert Fold("&") != "and" by { assert |Fold("&")| == 1; }
  }

  lemma SettledOperator(p: Piece, ts: List<Token>)
    requires Good(p) && (p.kind.Or? || p.kind.Not? || p.kind.Open? || p.kind.Close?) && Settle(p) == p
    ensures |p.core| == 1 && OperatorChar(p.core[0]) && p.core == [p.core[0]]
    ensures Meaning(p, ts) == Cons(Op(p.core[0]), ts)
  {
  }

  lemma SettleAgain(p: Piece)
    requires Good(p)
    ensures Good(Settle(p)) && Settle(Settle(p)) == Settle(p) && Settle(p).kind == p.kind
    ensures forall ts :: Meaning(Settle(p), ts) == Meaning(p, ts)
  {
    assert Fold("-") != "not" by { assert |Fold("-")| == 1; }
    assert Fold("") != "and" by { assert |Fold("")| == 0; }
  }

  lemma {:induction false} SettledLexes(ps: List<Piece>, operand: bool)
    requires Typed(ps, operand)
    ensures Lex(Text(Settled(ps), "")) == Some(Meant(ps, Nil))
    decreases ps
  {
    if ps.Cons? {
      var p := ps.head;
      SettledLexes(ps.tail, !Completes(p));
      if p.kind.Images? {
        KnownImages();
        GroupLexes(IMAGE_EXTENSIONS, Settled(ps.tail), Meant(ps.tail, Nil));
      } else if p.kind.Films? {
        KnownVideos();
        GroupLexes(VIDEO_EXTENSIONS, Settled(ps.tail), Meant(ps.tail, Nil));
      } else {
        SettleAgain(p);
        if Completes(p) { SettledOperatorFirst(ps.tail); }
        LexPiece(Settle(p), Text(Settled(ps.tail), ""), Meant(ps.tail, Nil));
      }
    }
  }

  lemma OperatorShownFirst(p: Piece, rest: string)
    requires Good(p) && !Begins(p)
    ensures Show(p, rest) != "" && !TagChar(Show(p, rest)[0])
  {
  }

  lemma SettledOperatorFirst(ps: List<Piece>)
    requires Typed(ps, false)
    ensures Text(Settled(ps), "") != "" ==> !TagChar(Text(Settled(ps), "")[0])
  {
    if ps.Cons? {
      SettleAgain(ps.head);
      OperatorShownFirst(Settle(ps.head), Text(Settled(ps.tail), ""));
    }
  }

  lemma GroupLexes(extensions: List<string>, ps: List<Piece>, ts: List<Token>)
    requires extensions.Cons? && PlainExtensions(extensions) && Lex(Text(ps, "")) == Some(ts)
    ensures Lex(Text(GroupPieces(extensions, ps), "")) == Some(Cons(Op('('), AlternativeTokens(extensions, ts)))
  {
    AlternativesLex(extensions, ps, ts);
    LexPiece(OPENING, Text(AlternativePieces(extensions, ps), ""), AlternativeTokens(extensions, ts));
  }

  lemma {:induction false} AlternativesLex(extensions: List<string>, ps: List<Piece>, ts: List<Token>)
    requires extensions.Cons? && PlainExtensions(extensions) && Lex(Text(ps, "")) == Some(ts)
    ensures Lex(Text(AlternativePieces(extensions, ps), "")) == Some(AlternativeTokens(extensions, ts))
    decreases extensions
  {
    var p := Piece(Bare, "", "ext:" + extensions.head, "");
    ExtensionIsBare(extensions.head);
    if extensions.tail.Nil? {
      LexPiece(CLOSING, Text(ps, ""), ts);
      LexPiece(p, Text(Cons(CLOSING, ps), ""), Cons(Op(')'), ts));
    } else {
      var more := AlternativePieces(extensions.tail, ps);
      AlternativesLex(extensions.tail, ps, ts);
      LexPiece(BAR, Text(more, ""), AlternativeTokens(extensions.tail, ts));
      LexPiece(p, Text(Cons(BAR, more), ""), Cons(Op('|'), AlternativeTokens(extensions.tail, ts)));
    }
  }

  /** Typed text is read as the tokens its pieces stand for, however they are spelled. */
  lemma TypedTokens(ps: List<Piece>, operand: bool)
    requires Typed(ps, operand)
    ensures Lex(Normalized(Text(ps, ""))) == Some(Meant(ps, Nil))
  {
    TypedIsSettled(ps, operand);
    SettledLexes(ps, operand);
  }
}
