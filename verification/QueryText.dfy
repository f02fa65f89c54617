/** Query text: the normalizer, the lexer, the grammar and the printer, and which printed tokens the grammar reads
    back. */
module QueryText {
  import opened Basics
  import opened QueryAst

  // ---------------------------------------------------------------- shorthand outside quotes

  predicate IsWord(c: char) { 'a' <= c <= 'z' || 'A' <= c <= 'Z' || '0' <= c <= '9' || c == '_' }

  /** \s of Go's regular expressions, which unlike strings.TrimSpace leaves out the vertical tab. */
  predicate IsBlank(c: char) { c in " \t\n\r" || c == 12 as char }

  function Spaces(s: string): nat { if s != "" && IsBlank(s[0]) then 1 + Spaces(s[1..]) else 0 }

  lemma {:induction false} SpacesFit(s: string)
    ensures Spaces(s) <= |s|
  {
    if s != "" && IsBlank(s[0]) { SpacesFit(s[1..]); }
  }

  predicate StartsWithWord(s: string, word: string) { |word| <= |s| && Fold(s[..|word|]) == word }

  /** How much of the text `\s+word\s+` matches at the front. */
  function SpacedWord(s: string, word: string): (n: nat)
    ensures n <= |s|
  {
    SpacesFit(s);
    var a := Spaces(s);
    if a == 0 || !StartsWithWord(s[a..], word) then 0
    else
      SpacesFit(s[a + |word|..]);
      var b := Spaces(s[a + |word|..]);
      if b == 0 then 0 else a + |word| + b
  }

  function ReplaceSpaced(s: string, word: string, sub: string): string
    decreases |s|
  {
    if s == "" then ""
    else
      var n := SpacedWord(s, word);
      if n > 0 then sub + ReplaceSpaced(s[n..], word, sub) else [s[0]] + ReplaceSpaced(s[1..], word, sub)
  }

  /** `\bnot\s+` becomes a hyphen; `after` tells whether the character before is a word character. */
  function ReplaceNot(s: string, after: bool): string
    decreases |s|
  {
    if s == "" then ""
    else
      var n := if |s| > 3 then Spaces(s[3..]) else 0;
      if !after && StartsWithWord(s, "not") && n > 0
      then (SpacesFit(s[3..]); "-" + ReplaceNot(s[3 + n..], false))
      else [s[0]] + ReplaceNot(s[1..], IsWord(s[0]))
  }

  function ReplaceChar(s: string, c: char, d: char): string {
    if s == "" then "" else [if s[0] == c then d else s[0]] + ReplaceChar(s[1..], c, d)
  }

  const IMAGE_EXTENSIONS: List<string> :=
    Cons("jpg", Cons("jpeg", Cons("png", Cons("gif", Cons("webp", Cons(".ico", Cons("heic", Cons("heif",
    Cons("bmp", Cons("tiff", Cons("raw", Cons("cr2", Cons("nef", Cons("arw", Cons("orf", Nil)))))))))))))))
  const VIDEO_EXTENSIONS: List<string> :=
    Cons("mp4", Cons("mov", Cons("avi", Cons("mkv", Cons("webm", Cons("flv", Cons("wmv", Cons("mpeg",
    Cons("mpg", Nil)))))))))

  function Alternatives(extensions: List<string>): string {
    match extensions
    case Nil => ""
    case Cons(ext, rest) => "ext:" + ext + (if rest.Nil? then "" else " | ") + Alternatives(rest)
  }

  /** The group of alternatives a virtual type stands for. */
  function TypeGroup(extensions: List<string>): string { "(" + Alternatives(extensions) + ")" }

  /** `\btype:(img|vid)\b` becomes the group of its extensions. */
  function ExpandTypes(s: string, after: bool): string
    decreases |s|
  {
    if s == "" then ""
    else if !after && |s| >= 8 && s[..8] in {"type:img", "type:vid"} && (|s| == 8 || !IsWord(s[8]))
    then TypeGroup(if s[..8] == "type:img" then IMAGE_EXTENSIONS else VIDEO_EXTENSIONS) + ExpandTypes(s[8..], true)
    else [s[0]] + ExpandTypes(s[1..], IsWord(s[0]))
  }

  function NormalizeUnquoted(s: string): string {
    var a := ReplaceSpaced(ExpandTypes(s, false), "or", " | ");
    var b := ReplaceChar(ReplaceSpaced(a, "and", " "), '&', ' ');
    ReplaceChar(ReplaceNot(b, false), '!', '-')
  }

  // ---------------------------------------------------------------- the normalizer

  /** An odd number of backslashes at the end. */
  predicate Escaping(s: string) { s != "" && s[|s| - 1] == '\\' && !Escaping(s[..|s| - 1]) }

  /** Outside quotes: the segment so far, and the rest of the text. */
  function Outside(s: string, segment: string): string
    decreases |s|
  {
    if s == "" then NormalizeUnquoted(segment)
    else if s[0] == '"' && !Escaping(segment) then NormalizeUnquoted(segment) + Inside(s[1..], "\"")
    else Outside(s[1..], segment + [s[0]])
  }

  /** Inside quotes everything is copied; an unterminated segment too. */
  function Inside(s: string, segment: string): string
    decreases |s|
  {
    if s == "" then segment
    else if s[0] == '"' && !Escaping(segment) then segment + "\"" + Outside(s[1..], "")
    else Inside(s[1..], segment + [s[0]])
  }

  function Normalized(s: string): string { Outside(s, "") }

  /** What the text from a position on contributes, in either state of the scan. */
  function Remaining(inQuote: bool, s: string, start: nat, i: nat): string
    requires start <= i <= |s|
  {
    if inQuote then Inside(s[i..], s[start..i]) else Outside(s[i..], s[start..i])
  }

  /** The segment begins at the start of the text, right after a quote, or at an opening quote. */
  predicate SegmentAt(inQuote: bool, s: string, start: nat, i: nat)
    requires start <= i <= |s|
  {
    if inQuote then start < i && s[start] == '"' else start == 0 || s[start - 1] == '"'
  }

  /** The output the scan ends with, from what it has written and where it is. */
  function Scan(out: string, inQuote: bool, s: string, start: nat, i: nat): string
    requires start <= i <= |s|
    decreases |s| - i
  {
    if i == |s| then out + (if inQuote then s[start..] else NormalizeUnquoted(s[start..]))
    else if s[i] != '"' || Escaping(s[..i]) then Scan(out, inQuote, s, start, i + 1)
    else if inQuote then Scan(out + s[start..i + 1], false, s, i + 1, i + 1)
    else Scan(out + NormalizeUnquoted(s[start..i]), true, s, i, i + 1)
  }

  /** The scanning loop, with the segment and quote state it keeps. */
  method NormalizeQuerySyntax(expression: string) returns (out: string)
    ensures out == Normalized(expression)
  {
    out := "";
    var segmentStart, inQuote, i := 0, false, 0;
    while i < |expression|
      invariant 0 <= segmentStart <= i <= |expression|
      invariant Scan("", false, expression, 0, 0) == Scan(out, inQuote, expression, segmentStart, i)
    {
      var escaped := OddBackslashes(expression, i);
      if expression[i] == '"' && !escaped {
        if !inQuote {
          out := out + NormalizeUnquoted(expression[segmentStart..i]);
          segmentStart, inQuote := i, true;
        } else {
          out := out + expression[segmentStart..i + 1];
          segmentStart, inQuote := i + 1, false;
        }
      }
      i := i + 1;
    }
    if inQuote { out := out + expression[segmentStart..]; }
      else { out := out + NormalizeUnquoted(expression[segmentStart..]); }
    ScanNormalizes(expression);
  }

  lemma ScanNormalizes(s: string)
    ensures Scan("", false, s, 0, 0) == Normalized(s)
  {
    ScanAppends("", false, s, 0, 0);
    assert s[0..] == s && s[0..0] == "";
  }

  /** The scan appends the normal form of the rest of the text, quotes kept as they are. */
  lemma {:induction false} ScanAppends(out: string, inQuote: bool, s: string, start: nat, i: nat)
    requires start <= i <= |s| && SegmentAt(inQuote, s, start, i)
    ensures Scan(out, inQuote, s, start, i) == out + Remaining(inQuote, s, start, i)
    decreases |s| - i
  {
    if i == |s| {
      assert s[|s|..] == "" && s[start..|s|] == s[start..];
    } else if s[i] != '"' || Escaping(s[..i]) {
      ScanOther(inQuote, s, start, i);
      ScanAppends(out, inQuote, s, start, i + 1);
    } else {
      ScanQuote(inQuote, s, start, i);
      if inQuote {
        ScanAppends(out + s[start..i + 1], false, s, i + 1, i + 1);
        Regroup(out, s[start..i + 1], Remaining(false, s, i + 1, i + 1));
      } else {
        ScanAppends(out + NormalizeUnquoted(s[start..i]), true, s, i, i + 1);
        Regroup(out, NormalizeUnquoted(s[start..i]), Remaining(true, s, i, i + 1));
      }
    }
  }

  lemma Regroup(a: string, b: string, c: string)
    ensures a + (b + c) == (a + b) + c
  {}

  lemma ScanOther(inQuote: bool, s: string, start: nat, i: nat)
    requires start <= i < |s| && SegmentAt(inQuote, s, start, i)
    requires s[i] != '"' || Escaping(s[..i])
    ensures Remaining(inQuote, s, start, i) == Remaining(inQuote, s, start, i + 1)
  {
    BackslashesStay(s, start, i);
    var text, segment := s[i..], s[start..i];
    assert text[0] == s[i] && text[1..] == s[i + 1..];
    assert segment + [s[i]] == s[start..i + 1];
  }

  lemma ScanQuote(inQuote: bool, s: string, start: nat, i: nat)
    requires start <= i < |s| && SegmentAt(inQuote, s, start, i)
    requires s[i] == '"' && !Escaping(s[..i])
    ensures !inQuote ==>
      Remaining(inQuote, s, start, i) == NormalizeUnquoted(s[start..i]) + Remaining(true, s, i, i + 1)
    ensures inQuote ==> Remaining(inQuote, s, start, i) == s[start..i + 1] + Remaining(false, s, i + 1, i + 1)
  {
    BackslashesStay(s, start, i);
    var text, segment := s[i..], s[start..i];
    assert text[0] == s[i] && text[1..] == s[i + 1..];
    assert segment + "\"" == s[start..i + 1];
    assert s[i..i + 1] == "\"" && s[i + 1..i + 1] == "";
  }

  method OddBackslashes(s: string, i: nat) returns (escaped: bool)
    requires i <= |s|
    ensures escaped == Escaping(s[..i])
  {
    escaped := false;
    var j := i - 1;
    while j >= 0 && s[j] == '\\'
      invariant -1 <= j < i
      invariant Escaping(s[..i]) == (escaped != Escaping(s[..j + 1]))
    {
      assert s[..j + 1][..j] == s[..j];
      escaped := !escaped;
      j := j - 1;
    }
    if j >= 0 { assert s[..j + 1][j] == s[j]; }
  }

  /** The backslashes before a position never reach across the start of its segment, which a quote marks. */
  lemma {:induction false} BackslashesStay(s: string, start: nat, i: nat)
    requires start <= i <= |s|
    requires (start > 0 && s[start - 1] == '"') || start == 0 || (start < i && s[start] == '"')
    ensures Escaping(s[..i]) == Escaping(s[start..i])
    decreases i - start
  {
    if start < i && s[i - 1] == '\\' {
      assert s[..i][..i - 1] == s[..i - 1] && s[start..i][..i - 1 - start] == s[start..i - 1];
      if start == i - 1 {
        assert s[start..i - 1] == "";
        if start > 0 { assert s[..start][start - 1] == s[start - 1]; }
      } else {
        BackslashesStay(s, start, i - 1);
      }
    }
  }

  // ---------------------------------------------------------------- the lexer

  datatype Token = Word(text: string) | Quoted(text: string) | Op(c: char)

  /** How much of `(\\"|[^"])*"` matches at the front, trying the escaped quote first. */
  function QuotedRest(s: string): (n: Option<nat>)
    ensures n.Some? ==> 0 < n.value <= |s|
    decreases |s|
  {
    if s == "" then None
    else if s[0] == '"' then Some(1)
    else if |s| >= 2 && s[0] == '\\' && s[1] == '"' && QuotedRest(s[2..]).Some? then Some(2 + QuotedRest(s[2..]).value)
    else match QuotedRest(s[1..]) case None => None case Some(n) => Some(1 + n)
  }

  predicate NameChar(c: char) { IsWord(c) }
  predicate TagStart(c: char) { IsWord(c) || c == '.' || c == '/' || c == '\\' }
  predicate TagChar(c: char) { TagStart(c) || c == ':' || c == '*' || c == '-' }
  predicate OperatorChar(c: char) { c == '|' || c == '(' || c == ')' || c == '&' || c == '!' || c == '-' }

  function Run(s: string, p: char -> bool): (n: nat)
    ensures n <= |s|
  {
    if s != "" && p(s[0]) then 1 + Run(s[1..], p) else 0
  }

  /** How much a tag token takes; 0 for no match. */
  function TagLength(s: string): (n: nat)
    ensures n <= |s|
  {
    if s == "" then 0
    else if s[0] == '@' then
      var name := Run(s[1..], NameChar);
      if name == 0 then 0
      else
        var rest := s[1 + name..];
        if rest != "" && rest[0] == ':'
          && Run(rest[1..], TagChar) > 0 then 1 + name + 1 + Run(rest[1..], TagChar) else 1 + name
    else if TagStart(s[0]) then 1 + Run(s[1..], TagChar)
    else 0
  }

  /** strconv.Unquote of the text between the quotes, for the one-character escapes. */
  function Unescape(s: string): Option<string>
    decreases |s|
  {
    if s == "" then Some("")
    else if s[0] == '\\' then
      if |s| == 1 then None
      else
        var c := match s[1]
          case '"' => Some('"') case '\\' => Some('\\') case 'n' => Some('\n') case 't' => Some('\t')
            case 'r' => Some('\r')
          case 'a' => Some(7 as char) case 'b' => Some(8 as char) case 'f' => Some(12 as char)
            case 'v' => Some(11 as char)
          case _ => None;
        if c.None? then None
        else match Unescape(s[2..]) case None => None case Some(rest) => Some([c.value] + rest)
    else if s[0] == '\n' then None
    else match Unescape(s[1..]) case None => None case Some(rest) => Some([s[0]] + rest)
  }

  function Push(t: Token, rest: Option<List<Token>>): Option<List<Token>> {
    match rest case None => None case Some(ts) => Some(Cons(t, ts))
  }

  /** The rules in their order; white space is dropped. */
  function Lex(s: string): Option<List<Token>>
    decreases |s|
  {
    if s == "" then Some(Nil)
    else if s[0] == '"' && QuotedRest(s[1..]).Some? then
      var n := QuotedRest(s[1..]).value;
      (match Unescape(s[1..n])
       case None => None
       case Some(text) => Push(Quoted(text), Lex(s[1 + n..])))
    else if TagLength(s) > 0 then Push(Word(s[..TagLength(s)]), Lex(s[TagLength(s)..]))
    else if OperatorChar(s[0]) then Push(Op(s[0]), Lex(s[1..]))
    else if IsBlank(s[0]) then Lex(s[1..])
    else None
  }

  // ---------------------------------------------------------------- the grammar

  /** The parser library compares a literal with a token's text, whatever the token's kind: a quoted hyphen
      passes for the operator. */
  predicate Literal(ts: List<Token>, c: char) {
    ts.Cons? && match ts.head case Op(d) => d == c case Quoted(text) => text == [c] case Word(text) => text == [c]
  }

  /** May a term begin here? */
  predicate Starts(ts: List<Token>) { ts.Cons? && (ts.head.Op? ==> ts.head.c == '-' || ts.head.c == '(') }

  function ParseExpression(ts: List<Token>): (r: Option<(Expression, List<Token>)>)
    ensures r.Some? ==> Length(r.value.1) < Length(ts)
    decreases Length(ts), 4
  {
    match ParseAnds(ts)
    case None => None
    case Some(p) => Some((Expression(p.0), p.1))
  }

  function ParseAnds(ts: List<Token>): (r: Option<(seq<AndTerm>, List<Token>)>)
    ensures r.Some? ==> Length(r.value.1) < Length(ts) && |r.value.0| > 0
    decreases Length(ts), 3
  {
    match ParseTerms(ts)
    case None => None
    case Some(first) =>
      if Literal(first.1, '|') then
        match ParseAnds(first.1.tail)
        case None => None
        case Some(more) => Some(([AndTerm(first.0)] + more.0, more.1))
      else Some(([AndTerm(first.0)], first.1))
  }

  function ParseTerms(ts: List<Token>): (r: Option<(seq<Term>, List<Token>)>)
    ensures r.Some? ==> Length(r.value.1) < Length(ts) && |r.value.0| > 0
    decreases Length(ts), 2
  {
    match ParseTerm(ts)
    case None => None
    case Some(first) =>
      if Starts(first.1) then
        match ParseTerms(first.1)
        case None => None
        case Some(more) => Some(([first.0] + more.0, more.1))
      else Some(([first.0], first.1))
  }

  function ParseTerm(ts: List<Token>): (r: Option<(Term, List<Token>)>)
    ensures r.Some? ==> Length(r.value.1) < Length(ts)
    decreases Length(ts), 1
  {
    var not := Literal(ts, '-');
    match ParseFactor(if not then ts.tail else ts)
    case None => None
    case Some(f) => Some((Term(not, f.0), f.1))
  }

  function ParseFactor(ts: List<Token>): (r: Option<(Factor, List<Token>)>)
    ensures r.Some? ==> Length(r.value.1) < Length(ts)
    decreases Length(ts), 0
  {
    if ts.Nil? then None
    else
      match ts.head
      case Word(text) => Some((Tag(text), ts.tail))
      case Quoted(text) => Some((Tag(text), ts.tail))
      case Op(c) =>
        if c != '(' then None
        else
          match ParseExpression(ts.tail)
          case None => None
          case Some(e) => if Literal(e.1, ')') then Some((Sub(e.0), e.1.tail)) else None
  }

  function Parse(s: string): Option<Expression> {
    match Lex(Normalized(s))
    case None => None
    case Some(ts) =>
      match ParseExpression(ts)
      case Some((e, Nil)) => Some(e)
      case _ => None
  }

  // ---------------------------------------------------------------- the printer

  /** strconv.Quote of printable text, up to the closing quote, followed by `rest`. */
  function Escaped(tag: string, rest: string): string {
    if tag == "" then rest
    else (if tag[0] == '"' then "\\\"" else if tag[0] == '\\' then "\\\\" else [tag[0]]) + Escaped(tag[1..], rest)
  }

  function FormatExpression(e: Expression, i: nat, rest: string): string
    requires i <= |e.or|
    decreases e, |e.or| - i + 1
  {
    if i == |e.or| then rest
    else FormatAnd(e.or[i], 0, if i + 1 < |e.or| then " | " + FormatExpression(e, i + 1, rest) else rest)
  }

  function FormatAnd(a: AndTerm, j: nat, rest: string): string
    requires j <= |a.and|
    decreases a, |a.and| - j + 1
  {
    if j == |a.and| then rest
    else FormatTerm(a.and[j], if j + 1 < |a.and| then " " + FormatAnd(a, j + 1, rest) else rest)
  }

  function FormatTerm(t: Term, rest: string): string
    decreases t, 0
  {
    (if t.not then "-" else "") +
    match t.factor
    case Tag(tag) => "\"" + Escaped(tag, "\"" + rest)
    case Sub(e) => "(" + FormatExpression(e, 0, ")" + rest)
  }

  function Format(e: Expression): string { FormatExpression(e, 0, "") }

  // ---------------------------------------------------------------- the tokens of printed text

  function Tokens(e: Expression, i: nat, rest: List<Token>): List<Token>
    requires i <= |e.or|
    decreases e, |e.or| - i + 1
  {
    if i == |e.or| then rest
    else TokensAnd(e.or[i], 0, if i + 1 < |e.or| then Cons(Op('|'), Tokens(e, i + 1, rest)) else rest)
  }

  function TokensAnd(a: AndTerm, j: nat, rest: List<Token>): List<Token>
    requires j <= |a.and|
    decreases a, |a.and| - j + 1
  {
    if j == |a.and| then rest else TokensTerm(a.and[j], TokensAnd(a, j + 1, rest))
  }

  function TokensTerm(t: Term, rest: List<Token>): List<Token>
    decreases t, 0
  {
    var factor := match t.factor
      case Tag(tag) => Cons(Quoted(tag), rest)
      case Sub(e) => Cons(Op('('), Tokens(e, 0, Cons(Op(')'), rest)));
    if t.not then Cons(Op('-'), factor) else factor
  }

  /** Tags that strconv.Quote escapes only for their quotes: printable ASCII without a backslash. */
  predicate Printable(tag: string) { forall k | 0 <= k < |tag| :: ' ' <= tag[k] <= '~' && tag[k] != '\\' }

  predicate PrintableTags(e: Expression) { forall i | 0 <= i < |e.or| :: PrintableAnd(e.or[i]) }

  predicate PrintableAnd(a: AndTerm) { forall j | 0 <= j < |a.and| :: PrintableFactor(a.and[j].factor) }

  predicate PrintableFactor(f: Factor) {
    match f case Tag(tag) => Printable(tag) case Sub(e) => PrintableTags(e)
  }

  // ---------------------------------------------------------------- quoted tags and operators in text

  lemma {:induction false} QuotedLength(tag: string, s: string)
    requires Printable(tag)
    ensures QuotedRest(Escaped(tag, "\"" + s)) == Some(|Escaped(tag, "")| + 1)
    decreases |tag|
  {
    if tag != "" {
      QuotedLength(tag[1..], s);
      var rest := Escaped(tag[1..], "\"" + s);
      if tag[0] == '"' { assert ("\\\"" + rest)[2..] == rest; } else { assert ([tag[0]] + rest)[1..] == rest; }
    }
  }

  lemma {:induction false} EscapedSplits(tag: string, s: string)
    ensures Escaped(tag, s) == Escaped(tag, "") + s
    decreases |tag|
  {
    if tag != "" {
      EscapedSplits(tag[1..], s);
      var first := if tag[0] == '"' then "\\\"" else if tag[0] == '\\' then "\\\\" else [tag[0]];
      assert first + (Escaped(tag[1..], "") + s) == first + Escaped(tag[1..], "") + s;
    }
  }

  lemma {:induction false} UnescapeEscaped(tag: string)
    requires Printable(tag)
    ensures Unescape(Escaped(tag, "")) == Some(tag)
    decreases |tag|
  {
    if tag != "" {
      UnescapeEscaped(tag[1..]);
      var body := Escaped(tag[1..], "");
      if tag[0] == '"' { assert ("\\\"" + body)[2..] == body; } else { assert ([tag[0]] + body)[1..] == body; }
      assert [tag[0]] + tag[1..] == tag;
    }
  }

  lemma LexQuoted(tag: string, s: string)
    requires Printable(tag)
    ensures Lex("\"" + Escaped(tag, "\"" + s)) == Push(Quoted(tag), Lex(s))
  {
    QuotedLength(tag, s);
    EscapedSplits(tag, "\"" + s);
    UnescapeEscaped(tag);
    LexLiteral("\"" + Escaped(tag, "\"" + s), Escaped(tag, ""), tag, s);
  }

  lemma LexLiteral(text: string, body: string, tag: string, s: string)
    requires text == "\"" + (body + ("\"" + s)) && QuotedRest(body + ("\"" + s)) == Some(|body| + 1)
      && Unescape(body) == Some(tag)
    ensures Lex(text) == Push(Quoted(tag), Lex(s))
  {
    assert text[1..] == body + ("\"" + s);
    assert text[1..|body| + 1] == body && text[1 + (|body| + 1)..] == s;
  }

  lemma LexOperator(c: char, s: string)
    requires OperatorChar(c)
    ensures Lex([c] + s) == Push(Op(c), Lex(s))
  {
    LexOneChar([c] + s, c, s);
  }

  lemma LexOneChar(text: string, c: char, s: string)
    requires OperatorChar(c) && text != "" && text[0] == c && text[1..] == s
    ensures Lex(text) == Push(Op(c), Lex(s))
  {}

  lemma LexSpace(s: string)
    ensures Lex(" " + s) == Lex(s)
  {
    assert (" " + s)[1..] == s;
  }

  lemma NoWord(s: string, word: string)
    requires word != "" && (s != "" ==> LowerChar(s[0]) != word[0])
    ensures !StartsWithWord(s, word)
  {
    if |word| <= |s| { assert Fold(s[..|word|])[0] == LowerChar(s[0]); }
  }

  /** A quoted tag is copied, and what follows it is outside again. */
  lemma {:induction false} InsideEscaped(tag: string, s: string, segment: string)
    requires Printable(tag) && !Escaping(segment)
    ensures Inside(Escaped(tag, "\"" + s), segment) == segment + Escaped(tag, "\"" + Outside(s, ""))
    decreases |tag|
  {
    var normal := Outside(s, "");
    if tag == "" {
      assert ("\"" + s)[1..] == s;
      assert segment + "\"" + normal == segment + ("\"" + normal);
    } else if tag[0] == '"' {
      var one := segment + ['\\'];
      assert one[..|one| - 1] == segment;
      InsideEscaped(tag[1..], s, one + ['"']);
      InsideQuote(segment, Escaped(tag[1..], "\"" + s), Escaped(tag[1..], "\"" + normal));
    } else {
      InsideEscaped(tag[1..], s, segment + [tag[0]]);
      InsideChar(tag[0], segment, Escaped(tag[1..], "\"" + s), Escaped(tag[1..], "\"" + normal));
    }
  }

  lemma InsideQuote(segment: string, rest: string, normal: string)
    requires !Escaping(segment)
    requires Inside(rest, segment + ['\\'] + ['"']) == segment + ['\\'] + ['"'] + normal
    ensures Inside("\\\"" + rest, segment) == segment + ("\\\"" + normal)
  {
    var text, one := "\\\"" + rest, segment + ['\\'];
    assert text[1..][0] == '"' && text[1..][1..] == rest;
    assert one[..|one| - 1] == segment && Escaping(one);
    assert Inside(text[1..], one) == Inside(rest, one + ['"']);
    assert segment + ['\\'] + ['"'] + normal == segment + ("\\\"" + normal);
  }

  lemma InsideChar(c: char, segment: string, rest: string, normal: string)
    requires c != '"' && Inside(rest, segment + [c]) == segment + [c] + normal
    ensures Inside([c] + rest, segment) == segment + ([c] + normal)
  {
    assert ([c] + rest)[1..] == rest;
    assert segment + [c] + normal == segment + ([c] + normal);
  }

  // ---------------------------------------------------------------- the grammar reads printed tokens

  /** A bare tag "-" is printed as a quoted hyphen, which the grammar takes for the operator. */
  predicate BareHyphen(t: Term) { !t.not && t.factor == Tag("-") }

  predicate Readable(e: Expression) { forall i | 0 <= i < |e.or| :: ReadableAnd(e.or[i]) }

  predicate ReadableAnd(a: AndTerm) { forall j | 0 <= j < |a.and| :: ReadableTerm(a.and[j]) }

  predicate ReadableTerm(t: Term) { !BareHyphen(t) && (t.factor.Sub? ==> Readable(t.factor.expr)) }

  /** What ends an expression: neither another term nor another alternative. */
  predicate Stops(rest: List<Token>) { !Starts(rest) && !Literal(rest, '|') }

  lemma {:induction false} ParseTermTokens(t: Term, rest: List<Token>)
    requires GrammaticalFactor(t.factor) && ReadableTerm(t)
    ensures Starts(TokensTerm(t, rest)) && ParseTerm(TokensTerm(t, rest)) == Some((t, rest))
    decreases t, 0
  {
    if t.factor.Sub? { ParseExpressionTokens(t.factor.expr, Cons(Op(')'), rest)); }
  }

  lemma {:induction false} ParseTermsTokens(a: AndTerm, j: nat, rest: List<Token>)
    requires GrammaticalAnd(a) && ReadableAnd(a) && j < |a.and| && !Starts(rest)
    ensures ParseTerms(TokensAnd(a, j, rest)) == Some((a.and[j..], rest))
    decreases a, |a.and| - j
  {
    ParseTermTokens(a.and[j], TokensAnd(a, j + 1, rest));
    if j + 1 < |a.and| {
      ParseTermsTokens(a, j + 1, rest);
      ParseTermTokens(a.and[j + 1], TokensAnd(a, j + 2, rest));
      assert [a.and[j]] + a.and[j + 1..] == a.and[j..];
    } else {
      assert TokensAnd(a, j + 1, rest) == rest && a.and[j..] == [a.and[j]];
    }
  }

  lemma {:induction false} ParseAndsTokens(e: Expression, i: nat, rest: List<Token>)
    requires Grammatical(e) && Readable(e) && i < |e.or| && Stops(rest)
    ensures ParseAnds(Tokens(e, i, rest)) == Some((e.or[i..], rest))
    decreases e, |e.or| - i
  {
    assert e.or[i].and[0..] == e.or[i].and;
    if i + 1 < |e.or| {
      ParseTermsTokens(e.or[i], 0, Cons(Op('|'), Tokens(e, i + 1, rest)));
      ParseAndsTokens(e, i + 1, rest);
      assert [e.or[i]] + e.or[i + 1..] == e.or[i..];
    } else {
      ParseTermsTokens(e.or[i], 0, rest);
      assert e.or[i..] == [e.or[i]];
    }
  }

  lemma {:induction false} ParseExpressionTokens(e: Expression, rest: List<Token>)
    requires Grammatical(e) && Readable(e) && Stops(rest)
    ensures ParseExpression(Tokens(e, 0, rest)) == Some((e, rest))
    decreases e, |e.or| + 1
  {
    ParseAndsTokens(e, 0, rest);
    assert e.or[0..] == e.or;
  }

  // ---------------------------------------------------------------- and misreads a bare hyphen

  function SizeTerm(t: Term): nat
    decreases t, 0
  {
    (if t.not then 1 else 0) + (if t.factor.Sub? then 2 + SizeAnds(t.factor.expr.or) else 1)
  }

  function SizeTerms(ts: seq<Term>): nat { if ts == [] then 0 else SizeTerm(ts[0]) + SizeTerms(ts[1..]) }

  function SizeAnds(ands: seq<AndTerm>): nat {
    if ands == [] then 0 else SizeTerms(ands[0].and) + (if |ands| > 1 then 1 + SizeAnds(ands[1..]) else 0)
  }

  function Drop<T>(s: List<T>, n: nat): List<T> { if n == 0 || s.Nil? then s else Drop(s.tail, n - 1) }

  lemma {:induction false} DropTwice<T>(s: List<T>, m: nat, n: nat)
    ensures Drop(Drop(s, m), n) == Drop(s, m + n)
  {
    if m > 0 && s.Cons? { DropTwice(s.tail, m - 1, n); }
  }

  // What the parser returns determines how many tokens it took.

  lemma {:induction false} FactorTakes(ts: List<Token>)
    requires ParseFactor(ts).Some?
    ensures ParseFactor(ts).value.1 == Drop(ts, SizeTerm(Term(false, ParseFactor(ts).value.0)))
    decreases Length(ts), 0
  {
    if ts.head.Op? {
      ExpressionTakes(ts.tail);
      var e := ParseExpression(ts.tail).value;
      DropTwice(ts.tail, SizeAnds(e.0.or), 1);
    }
  }

  lemma {:induction false} TermTakes(ts: List<Token>)
    requires ParseTerm(ts).Some?
    ensures ParseTerm(ts).value.1 == Drop(ts, SizeTerm(ParseTerm(ts).value.0))
    decreases Length(ts), 1
  {
    FactorTakes(if Literal(ts, '-') then ts.tail else ts);
  }

  lemma {:induction false} TermsTake(ts: List<Token>)
    requires ParseTerms(ts).Some?
    ensures ParseTerms(ts).value.1 == Drop(ts, SizeTerms(ParseTerms(ts).value.0))
    decreases Length(ts), 2
  {
    TermTakes(ts);
    var first := ParseTerm(ts).value;
    if Starts(first.1) {
      TermsTake(first.1);
      var more := ParseTerms(first.1).value;
      assert ([first.0] + more.0)[1..] == more.0;
      DropTwice(ts, SizeTerm(first.0), SizeTerms(more.0));
    } else {
      assert [first.0][1..] == [];
    }
  }

  lemma {:induction false} AndsTake(ts: List<Token>)
    requires ParseAnds(ts).Some?
    ensures ParseAnds(ts).value.1 == Drop(ts, SizeAnds(ParseAnds(ts).value.0))
    decreases Length(ts), 3
  {
    TermsTake(ts);
    var first := ParseTerms(ts).value;
    if Literal(first.1, '|') {
      AndsTake(first.1.tail);
      var more := ParseAnds(first.1.tail).value;
      assert ([AndTerm(first.0)] + more.0)[1..] == more.0;
      DropTwice(ts, SizeTerms(first.0), 1 + SizeAnds(more.0));
    }
  }

  lemma {:induction false} ExpressionTakes(ts: List<Token>)
    requires ParseExpression(ts).Some?
    ensures ParseExpression(ts).value.1 == Drop(ts, SizeAnds(ParseExpression(ts).value.0.or))
    decreases Length(ts), 4
  {
    AndsTake(ts);
  }

  // How many tokens the printer's text has.

  lemma {:induction false} TermSize(t: Term, rest: List<Token>)
    ensures Drop(TokensTerm(t, rest), SizeTerm(t)) == rest
    decreases t, 0
  {
    if t.factor.Sub? {
      var e := t.factor.expr;
      var tokens := Tokens(e, 0, Cons(Op(')'), rest));
      ExpressionSize(e, 0, Cons(Op(')'), rest));
      assert e.or[0..] == e.or;
      DropTwice(tokens, SizeAnds(e.or), 1);
      assert Drop(Cons(Op(')'), rest), 1) == rest;
      assert Drop(Cons(Op('('), tokens), 2 + SizeAnds(e.or)) == rest;
    } else {
      assert Drop(Cons(Quoted(t.factor.tag), rest), 1) == rest;
    }
  }

  lemma {:induction false} AndSize(a: AndTerm, j: nat, rest: List<Token>)
    requires j <= |a.and|
    ensures Drop(TokensAnd(a, j, rest), SizeTerms(a.and[j..])) == rest
    decreases a, |a.and| - j + 1
  {
    if j < |a.and| {
      TermSize(a.and[j], TokensAnd(a, j + 1, rest));
      AndSize(a, j + 1, rest);
      assert a.and[j..][1..] == a.and[j + 1..];
      DropTwice(TokensAnd(a, j, rest), SizeTerm(a.and[j]), SizeTerms(a.and[j + 1..]));
    }
  }

  lemma {:induction false} ExpressionSize(e: Expression, i: nat, rest: List<Token>)
    requires i <= |e.or|
    ensures Drop(Tokens(e, i, rest), SizeAnds(e.or[i..])) == rest
    decreases e, |e.or| - i + 1
  {
    if i < |e.or| {
      assert e.or[i].and[0..] == e.or[i].and && e.or[i..][1..] == e.or[i + 1..];
      if i + 1 < |e.or| {
        AndSize(e.or[i], 0, Cons(Op('|'), Tokens(e, i + 1, rest)));
        ExpressionSize(e, i + 1, rest);
        DropTwice(Tokens(e, i, rest), SizeTerms(e.or[i].and), 1 + SizeAnds(e.or[i + 1..]));
      } else {
        AndSize(e.or[i], 0, rest);
      }
    }
  }

  lemma {:induction false} TermReadBack(t: Term, rest: List<Token>)
    requires ParseTerm(TokensTerm(t, rest)).Some? && ParseTerm(TokensTerm(t, rest)).value.0 == t
    ensures ReadableTerm(t)
    decreases t, 0
  {
    if t.factor.Sub? { ExpressionReadBack(t.factor.expr, Cons(Op(')'), rest)); }
  }

  lemma {:induction false} TermsReadBack(a: AndTerm, j: nat, rest: List<Token>)
    requires j < |a.and|
    requires var r := ParseTerms(TokensAnd(a, j, rest)); r.Some? && r.value.0 == a.and[j..]
    ensures forall k | j <= k < |a.and| :: ReadableTerm(a.and[k])
    decreases a, |a.and| - j
  {
    var ts := TokensAnd(a, j, rest);
    assert a.and[j..][0] == a.and[j] && a.and[j..][1..] == a.and[j + 1..];
    TermReadBack(a.and[j], TokensAnd(a, j + 1, rest));
    TermTakes(ts);
    TermSize(a.and[j], TokensAnd(a, j + 1, rest));
    var first := ParseTerm(ts).value;
    if Starts(first.1) {
      var more := ParseTerms(first.1).value;
      assert ([first.0] + more.0)[1..] == more.0;
      if j + 1 < |a.and| { TermsReadBack(a, j + 1, rest); }
    } else {
      assert |[first.0]| == |a.and[j..]|;
    }
  }

  lemma {:induction false} AndsReadBack(e: Expression, i: nat, rest: List<Token>)
    requires i < |e.or|
    requires var r := ParseAnds(Tokens(e, i, rest));
      && r.Some? && r.value.0 == e.or[i..]
      && forall k | i <= k < |e.or| :: |e.or[k].and| > 0
    ensures forall k | i <= k < |e.or| :: ReadableAnd(e.or[k])
    decreases e, |e.or| - i
  {
    var ts := Tokens(e, i, rest);
    var after := if i + 1 < |e.or| then Cons(Op('|'), Tokens(e, i + 1, rest)) else rest;
    var a := e.or[i];
    var first := ParseTerms(ts).value;
    assert e.or[i..][0] == a && e.or[i..][1..] == e.or[i + 1..] && a.and[0..] == a.and;
    assert AndTerm(first.0) == a;
    TermsReadBack(a, 0, after);
    TermsTake(ts);
    AndSize(a, 0, after);
    if Literal(first.1, '|') {
      var more := ParseAnds(first.1.tail).value;
      assert ([AndTerm(first.0)] + more.0)[1..] == more.0;
      if i + 1 < |e.or| { AndsReadBack(e, i + 1, rest); }
    } else {
      assert |[AndTerm(first.0)]| == |e.or[i..]|;
    }
  }

  lemma {:induction false} ExpressionReadBack(e: Expression, rest: List<Token>)
    requires var r := ParseExpression(Tokens(e, 0, rest)); r.Some? && r.value.0 == e
    ensures Readable(e)
    decreases e, |e.or| + 1
  {
    assert e.or[0..] == e.or;
    ParsedIsFull(Tokens(e, 0, rest));
    AndsReadBack(e, 0, rest);
  }

  lemma {:induction false} ParsedIsFull(ts: List<Token>)
    requires ParseAnds(ts).Some?
    ensures var ands := ParseAnds(ts).value.0; forall k | 0 <= k < |ands| :: |ands[k].and| > 0
    decreases Length(ts)
  {
    var first := ParseTerms(ts).value;
    if Literal(first.1, '|') { ParsedIsFull(first.1.tail); }
  }

  /** What the grammar builds has no bare hyphen tag: a hyphen token, quoted or not, is taken for the negation first. */
  lemma {:induction false} ParsedFactorIsReadable(ts: List<Token>)
    requires ParseFactor(ts).Some?
    ensures var f := ParseFactor(ts).value.0;
      && GrammaticalFactor(f) && (f.Sub? ==> Readable(f.expr))
      && (f == Tag("-") ==> Literal(ts, '-'))
    decreases Length(ts), 0
  {
    if ts.head.Op? { ParsedExpressionIsReadable(ts.tail); }
  }

  lemma {:induction false} ParsedTermIsReadable(ts: List<Token>)
    requires ParseTerm(ts).Some?
    ensures var t := ParseTerm(ts).value.0; GrammaticalFactor(t.factor) && ReadableTerm(t)
    decreases Length(ts), 1
  {
    ParsedFactorIsReadable(if Literal(ts, '-') then ts.tail else ts);
  }

  lemma {:induction false} ParsedTermsAreReadable(ts: List<Token>)
    requires ParseTerms(ts).Some?
    ensures var and := ParseTerms(ts).value.0;
      forall j | 0 <= j < |and| :: GrammaticalFactor(and[j].factor) && ReadableTerm(and[j])
    decreases Length(ts), 2
  {
    ParsedTermIsReadable(ts);
    var first := ParseTerm(ts).value;
    if Starts(first.1) { ParsedTermsAreReadable(first.1); }
  }

  lemma {:induction false} ParsedAndsAreReadable(ts: List<Token>)
    requires ParseAnds(ts).Some?
    ensures var or := ParseAnds(ts).value.0; forall i | 0 <= i < |or| :: GrammaticalAnd(or[i]) && ReadableAnd(or[i])
    decreases Length(ts), 3
  {
    ParsedTermsAreReadable(ts);
    var first := ParseTerms(ts).value;
    assert GrammaticalAnd(AndTerm(first.0)) && ReadableAnd(AndTerm(first.0));
    if Literal(first.1, '|') { ParsedAndsAreReadable(first.1.tail); }
  }

  lemma {:induction false} ParsedExpressionIsReadable(ts: List<Token>)
    requires ParseExpression(ts).Some?
    ensures var e := ParseExpression(ts).value.0; Grammatical(e) && Readable(e)
    decreases Length(ts), 4
  {
    ParsedAndsAreReadable(ts);
  }

  /** Every query that comes from the parser can be read back: no tree with a bare hyphen tag is ever built. */
  lemma ParsedIsReadable(text: string)
    requires Parse(text).Some?
    ensures Grammatical(Parse(text).value) && Readable(Parse(text).value)
  {
    ParsedExpressionIsReadable(Lex(Normalized(text)).value);
  }
}
