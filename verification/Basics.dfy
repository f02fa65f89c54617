/** Vocabulary shared by every component: optional values, lists, lower case and the byte-wise order SQLite and
    Go both use on ASCII text. */
module Basics {

  datatype Option<+T> = None | Some(value: T)

  datatype List<T> = Nil | Cons(head: T, tail: List<T>)

  function Length<T>(s: List<T>): nat { if s.Nil? then 0 else 1 + Length(s.tail) }

  /** COALESCE(x, y) of SQL. */
  function Coalesce<T>(x: Option<T>, y: T): T {
    match x case None => y case Some(v) => v
  }

  function LowerChar(c: char): char { if 'A' <= c <= 'Z' then c + ' ' else c }

  /** lower() and the NOCASE collation of SQLite, and strings.ToLower on ASCII. */
  function Fold(s: string): (r: string)
    ensures |r| == |s| && forall i | 0 <= i < |s| :: r[i] == LowerChar(s[i])
  {
    seq(|s|, i requires 0 <= i < |s| => LowerChar(s[i]))
  }

  /** Strict lexicographic order of strings. */
  predicate StrLess(a: string, b: string) {
    if |b| == 0 then false
    else if |a| == 0 then true
    else a[0] < b[0] || (a[0] == b[0] && StrLess(a[1..], b[1..]))
  }

  lemma {:induction false} StrLessIrreflexive(a: string)
    ensures !StrLess(a, a)
  {
    if |a| > 0 { StrLessIrreflexive(a[1..]); }
  }

  lemma {:induction false} StrLessTransitive(a: string, b: string, c: string)
    requires StrLess(a, b) && StrLess(b, c)
    ensures StrLess(a, c)
  {
    if |a| > 0 && a[0] == b[0] && b[0] == c[0] { StrLessTransitive(a[1..], b[1..], c[1..]); }
  }

  lemma {:induction false} StrLessTotal(a: string, b: string)
    ensures StrLess(a, b) || a == b || StrLess(b, a)
  {
    if |a| > 0 && |b| > 0 && a[0] == b[0] {
      StrLessTotal(a[1..], b[1..]);
      assert a == [a[0]] + a[1..] && b == [b[0]] + b[1..];
    }
  }

  /** The first `n` characters agree, and then `a` ends or has the smaller character. */
  predicate DiffersAt(a: string, b: string, n: nat) {
    n <= |a| && n < |b| && a[..n] == b[..n] && (n == |a| || (a[n] as int) < (b[n] as int))
  }

  lemma {:induction false} StrLessAtDifference(a: string, b: string)
    ensures StrLess(a, b) <==> exists n: nat :: DiffersAt(a, b, n)
  {
    if |a| > 0 && |b| > 0 && a[0] == b[0] {
      StrLessAtDifference(a[1..], b[1..]);
      assert a == [a[0]] + a[1..] && b == [b[0]] + b[1..];
      if n: nat :| DiffersAt(a[1..], b[1..], n) {
        assert a[..n + 1] == [a[0]] + a[1..][..n] && b[..n + 1] == [b[0]] + b[1..][..n];
        assert DiffersAt(a, b, n + 1);
      }
      if n: nat :| DiffersAt(a, b, n) {
        assert n > 0 && a[1..][..n - 1] == a[..n][1..] && b[1..][..n - 1] == b[..n][1..];
        assert DiffersAt(a[1..], b[1..], n - 1);
      }
    } else if |b| > 0 {
      if StrLess(a, b) { assert DiffersAt(a, b, 0); }
      if n: nat :| DiffersAt(a, b, n) && n > 0 { assert a[..n][0] == b[..n][0]; }
    }
  }

  /** Folding changes the 26 capitals and nothing else, and folding again changes nothing. */
  lemma FoldIsLower(s: string)
    ensures Fold("ABCDEFGHIJKLMNOPQRSTUVWXYZ") == "abcdefghijklmnopqrstuvwxyz"
    ensures (forall k | 0 <= k < |s| :: !('A' <= s[k] <= 'Z')) <==> Fold(s) == s
    ensures Fold(Fold(s)) == Fold(s)
  {
    forall k | 0 <= k < |s| ensures Fold(s)[k] == s[k] <==> !('A' <= s[k] <= 'Z') { }
  }
}
