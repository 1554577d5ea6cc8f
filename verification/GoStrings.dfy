/** The parts of Go's `strings` package that the key-ring, keyset and audit code is built on.
    A Go string is modelled as a sequence of Unicode code points. */
module GoStrings {

  datatype Option<+T> = None | Some(value: T)

  datatype Result<+T, +E> = Ok(value: T) | Err(error: E)

  /** `unicode.IsSpace`. */
  predicate IsSpace(c: char) {
    '\t' <= c <= '\r' || c == ' ' || c == '\U{85}' || c == '\U{A0}' || c == '\U{1680}'
    || '\U{2000}' <= c <= '\U{200A}' || c == '\U{2028}' || c == '\U{2029}'
    || c == '\U{202F}' || c == '\U{205F}' || c == '\U{3000}'
  }

  /** Below the code point 128 the space characters are these six. */
  lemma AsciiSpace(c: char)
    requires c as int < 128
    ensures IsSpace(c) <==> c as int in {9, 10, 11, 12, 13, 32}
  {
  }

  predicate AllSpace(s: string) {
    forall i :: 0 <= i < |s| ==> IsSpace(s[i])
  }

  predicate Trimmed(s: string) {
    s == "" || (!IsSpace(s[0]) && !IsSpace(s[|s| - 1]))
  }

  function TrimLeft(s: string): string {
    if s != "" && IsSpace(s[0]) then TrimLeft(s[1..]) else s
  }

  function TrimRight(s: string): string {
    if s != "" && IsSpace(s[|s| - 1]) then TrimRight(s[..|s| - 1]) else s
  }

  /** `strings.TrimSpace`. */
  function Trim(s: string): string {
    TrimRight(TrimLeft(s))
  }

  predicate Blank(s: string) {
    Trim(s) == ""
  }

  lemma {:induction false} TrimLeftParts(s: string) returns (l: string)
    ensures s == l + TrimLeft(s) && AllSpace(l)
    ensures TrimLeft(s) == "" || !IsSpace(TrimLeft(s)[0])
  {
    if s != "" && IsSpace(s[0]) {
      l := TrimLeftParts(s[1..]);
      l := [s[0]] + l;
    } else {
      l := "";
    }
  }

  lemma {:induction false} TrimRightParts(s: string) returns (r: string)
    ensures s == TrimRight(s) + r && AllSpace(r)
    ensures TrimRight(s) == "" || !IsSpace(TrimRight(s)[|TrimRight(s)| - 1])
  {
    if s != "" && IsSpace(s[|s| - 1]) {
      r := TrimRightParts(s[..|s| - 1]);
      assert s == s[..|s| - 1] + [s[|s| - 1]];
      r := r + [s[|s| - 1]];
    } else {
      r := "";
    }
  }

  /** Trimming only removes white space at the two ends, and all of it. */
  lemma TrimParts(s: string) returns (l: string, r: string)
    ensures s == l + Trim(s) + r
    ensures AllSpace(l) && AllSpace(r) && Trimmed(Trim(s))
  {
    l := TrimLeftParts(s);
    r := TrimRightParts(TrimLeft(s));
    var m := TrimLeft(s);
    assert s == l + m && m == Trim(s) + r;
    if Trim(s) != "" {
      assert m[0] == Trim(s)[0];
    }
  }

  lemma {:induction false} TrimLeftSpaces(l: string, s: string)
    requires AllSpace(l)
    ensures TrimLeft(l + s) == TrimLeft(s)
  {
    if l == "" {
      assert l + s == s;
    } else {
      assert (l + s)[1..] == l[1..] + s;
      TrimLeftSpaces(l[1..], s);
    }
  }

  lemma {:induction false} TrimRightSpaces(s: string, r: string)
    requires AllSpace(r)
    ensures TrimRight(s + r) == TrimRight(s)
  {
    if r == "" {
      assert s + r == s;
    } else {
      assert (s + r)[..|s + r| - 1] == s + r[..|r| - 1];
      TrimRightSpaces(s, r[..|r| - 1]);
    }
  }

  /** ... so what trimming returns is determined by those two facts. */
  lemma TrimUnique(l: string, t: string, r: string)
    requires AllSpace(l) && AllSpace(r) && Trimmed(t)
    ensures Trim(l + t + r) == t
  {
    assert l + t + r == l + (t + r);
    TrimLeftSpaces(l, t + r);
    if t == "" {
      assert t + r == r;
      TrimLeftSpaces(r, "");
      assert r + "" == r;
    } else {
      assert (t + r)[0] == t[0];
      TrimRightSpaces(t, r);
    }
  }

  lemma TrimTrimmed(t: string)
    requires Trimmed(t)
    ensures Trim(t) == t
  {
    TrimUnique("", t, "");
    assert "" + t + "" == t;
  }

  lemma TrimIdempotent(s: string)
    ensures Trimmed(Trim(s)) && Trim(Trim(s)) == Trim(s)
  {
    var l, r := TrimParts(s);
    TrimTrimmed(Trim(s));
  }

  lemma TrimKeeps(s: string, c: char)
    requires !IsSpace(c)
    ensures c in Trim(s) <==> c in s
  {
    var l, r := TrimParts(s);
  }

  /** `strings.IndexByte`: the first position of `c`, or -1. */
  function Index(s: string, c: char): (i: int)
    ensures -1 <= i < |s|
    ensures i == -1 <==> c !in s
    ensures i >= 0 ==> s[i] == c && c !in s[..i]
  {
    if s == "" then -1
    else if s[0] == c then 0
    else
      var j := Index(s[1..], c);
      assert s == [s[0]] + s[1..];
      if j == -1 then -1 else
      assert s[..j + 1] == [s[0]] + s[1..][..j];
      j + 1
  }

  lemma IndexAfter(a: string, c: char, b: string)
    requires c !in a
    ensures Index(a + [c] + b, c) == |a|
  {
    var s := a + [c] + b;
    assert s[|a|] == c;
    assert forall j :: 0 <= j < |a| ==> s[j] == a[j];
    forall j | |a| < j <= |s| ensures c in s[..j] {
      assert s[..j][|a|] == c;
    }
  }

  /** `strings.Split` on a one-character separator. */
  function Split(s: string, sep: char): (parts: seq<string>)
    ensures parts != []
    decreases |s|
  {
    var i := Index(s, sep);
    if i < 0 then [s] else [s[..i]] + Split(s[i + 1..], sep)
  }

  function Join(parts: seq<string>, sep: char): string
    requires parts != []
  {
    if |parts| == 1 then parts[0] else parts[0] + [sep] + Join(parts[1..], sep)
  }

  predicate Free(parts: seq<string>, sep: char) {
    forall i :: 0 <= i < |parts| ==> sep !in parts[i]
  }

  lemma {:induction false} JoinSplit(s: string, sep: char)
    ensures Free(Split(s, sep), sep)
    ensures Join(Split(s, sep), sep) == s
    decreases |s|
  {
    var i := Index(s, sep);
    if i >= 0 {
      JoinSplit(s[i + 1..], sep);
      assert s == s[..i] + [sep] + s[i + 1..];
      assert Split(s, sep)[1..] == Split(s[i + 1..], sep);
    }
  }

  lemma SplitAt(x: string, sep: char, y: string)
    requires sep !in x
    ensures Split(x + [sep] + y, sep) == [x] + Split(y, sep)
  {
    var s := x + [sep] + y;
    IndexAfter(x, sep, y);
    assert s[..|x|] == x && s[|x| + 1..] == y;
  }

  /** Splitting distributes over the separator. */
  lemma {:induction false} SplitConcat(a: string, sep: char, b: string)
    ensures Split(a + [sep] + b, sep) == Split(a, sep) + Split(b, sep)
    decreases |a|
  {
    hide Split;
    if sep !in a {
      SplitAt(a, sep, b);
      SplitFree(a, sep);
    } else {
      var i := Index(a, sep);
      var x, rest := a[..i], a[i + 1..];
      assert a == x + [sep] + rest;
      assert a + [sep] + b == x + [sep] + (rest + [sep] + b);
      SplitAt(x, sep, rest);
      SplitAt(x, sep, rest + [sep] + b);
      SplitConcat(rest, sep, b);
    }
  }

  lemma SplitFree(s: string, sep: char)
    requires sep !in s
    ensures Split(s, sep) == [s]
  {
  }

  lemma SplitSingle(s: string, sep: char)
    requires |Split(s, sep)| == 1
    ensures sep !in s && Split(s, sep) == [s]
  {
  }

  lemma {:induction false} SplitJoin(parts: seq<string>, sep: char)
    requires parts != [] && Free(parts, sep)
    ensures Split(Join(parts, sep), sep) == parts
  {
    hide Split;
    SplitFree(parts[0], sep);
    if |parts| == 1 {
      assert parts == [parts[0]];
    } else {
      SplitJoin(parts[1..], sep);
      SplitConcat(parts[0], sep, Join(parts[1..], sep));
      assert parts == [parts[0]] + parts[1..];
    }
  }

  lemma {:induction false} JoinConcat(p: seq<string>, q: seq<string>, sep: char)
    requires p != [] && q != []
    ensures Join(p + q, sep) == Join(p, sep) + [sep] + Join(q, sep)
  {
    if |p| == 1 {
      assert (p + q)[1..] == q;
    } else {
      assert (p + q)[1..] == p[1..] + q;
      JoinConcat(p[1..], q, sep);
      assert p[0] + [sep] + (Join(p[1..], sep) + [sep] + Join(q, sep))
          == p[0] + [sep] + Join(p[1..], sep) + [sep] + Join(q, sep);
    }
  }

  /** Byte order of UTF-8 is code-point order, so this is the order `sort.Strings` uses. */
  predicate LexLeq(a: string, b: string) {
    a == "" || (b != "" && (a[0] < b[0] || (a[0] == b[0] && LexLeq(a[1..], b[1..]))))
  }

  lemma {:induction false} LexTotal(a: string, b: string)
    ensures LexLeq(a, b) || LexLeq(b, a)
  {
    if a != "" && b != "" && a[0] == b[0] {
      LexTotal(a[1..], b[1..]);
    }
  }

  lemma {:induction false} LexAntisymmetric(a: string, b: string)
    requires LexLeq(a, b) && LexLeq(b, a)
    ensures a == b
  {
    if a != "" && b != "" {
      LexAntisymmetric(a[1..], b[1..]);
      assert a == [a[0]] + a[1..] && b == [b[0]] + b[1..];
    }
  }

  lemma {:induction false} LexTransitive(a: string, b: string, c: string)
    requires LexLeq(a, b) && LexLeq(b, c)
    ensures LexLeq(a, c)
  {
    if a != "" && a[0] == b[0] && b[0] == c[0] {
      LexTransitive(a[1..], b[1..], c[1..]);
    }
  }

  /** They agree up to this place, and there the first is less. */
  predicate LessAt(a: string, b: string, i: int) {
    0 <= i < |a| && i < |b| && a[i] < b[i] && a[..i] == b[..i]
  }

  lemma LessAtTail(a: string, b: string, i: int)
    requires a != "" && b != "" && a[0] == b[0]
    ensures LessAt(a, b, i + 1) <==> LessAt(a[1..], b[1..], i)
    ensures !LessAt(a, b, 0)
  {
    if 0 <= i < |a| - 1 && i < |b| - 1 {
      assert a[..i + 1] == [a[0]] + a[1..][..i] && b[..i + 1] == [b[0]] + b[1..][..i];
      assert a[1..][..i] == a[..i + 1][1..] && b[1..][..i] == b[..i + 1][1..];
    }
  }

  lemma LessAtFirst(a: string, b: string, i: int)
    requires a != "" && b != "" && a[0] != b[0]
    ensures LessAt(a, b, i) <==> i == 0 && a[0] < b[0]
  {
    if 0 < i < |a| && i < |b| {
      assert a[..i][0] == a[0] && b[..i][0] == b[0];
    }
  }

  /** A first part of the other, or less in the first place where they differ. */
  lemma {:induction false} LexMeaning(a: string, b: string)
    ensures LexLeq(a, b) <==> a <= b || exists i :: LessAt(a, b, i)
  {
    hide LessAt;
    if a != "" && b != "" {
      if a[0] == b[0] {
        LexMeaning(a[1..], b[1..]);
        assert a == [a[0]] + a[1..] && b == [b[0]] + b[1..];
        forall i ensures LessAt(a, b, i) <==> i != 0 && LessAt(a[1..], b[1..], i - 1) {
          LessAtTail(a, b, i - 1);
        }
        forall i | LessAt(a[1..], b[1..], i) ensures LessAt(a, b, i + 1) {
          LessAtTail(a, b, i);
        }
      } else {
        forall i ensures LessAt(a, b, i) <==> i == 0 && a[0] < b[0] {
          LessAtFirst(a, b, i);
        }
        assert LessAt(a, b, 0) <==> a[0] < b[0];
      }
    } else {
      forall i ensures !LessAt(a, b, i) {
        NeverLess(a, b, i);
      }
    }
  }

  lemma NeverLess(a: string, b: string, i: int)
    requires a == "" || b == ""
    ensures !LessAt(a, b, i)
  {
  }
}
