/** Character strings: prefixes, ASCII upper case, line/column positions and the binary ordering
  * that the database uses for ORDER BY on text columns. */
module Text {
  import opened Wrappers

  /** A string reference as Java's `+` and `String.format("%s", ...)` write it: null is `null`. */
  function JavaString(s: Option<string>): string {
    s.GetOr("null")
  }

  /** Java's `s.startsWith(prefix)`. */
  predicate StartsWith(s: string, prefix: string) {
    |prefix| <= |s| && s[..|prefix|] == prefix
  }

  /** Upper case of one character; only the ASCII letters a-z change. */
  function UpperChar(c: char): char {
    if 'a' <= c <= 'z' then (c as int - 32) as char else c
  }

  /** `s.toUpperCase()` restricted to ASCII letters. */
  function ToUpper(s: string): (r: string)
    ensures |r| == |s|
    ensures forall i :: 0 <= i < |s| ==> r[i] == UpperChar(s[i])
  {
    seq(|s|, i requires 0 <= i < |s| => UpperChar(s[i]))
  }

  /** Number of line breaks in `s`. */
  function NewlineCount(s: string): nat {
    if s == [] then 0 else NewlineCount(s[..|s| - 1]) + (if s[|s| - 1] == '\n' then 1 else 0)
  }

  /** Number of characters after the last line break of `s`. */
  function ColumnLength(s: string): nat {
    if s == [] then 0 else if s[|s| - 1] == '\n' then 0 else ColumnLength(s[..|s| - 1]) + 1
  }

  /** A 1-based line and column, as an XML parser reports them. */
  datatype Position = Position(line: int, column: int)

  /** The position of the character at offset `p` of `s` (or of the end, when `p == |s|`). */
  function PositionAt(s: string, p: nat): Position
    requires p <= |s|
  {
    Position(1 + NewlineCount(s[..p]), 1 + ColumnLength(s[..p]))
  }

  lemma {:induction false} NewlineCountAppend(a: string, b: string)
    ensures NewlineCount(a + b) == NewlineCount(a) + NewlineCount(b)
    decreases |b|
  {
    if b == [] {
      assert a + b == a;
    } else {
      NewlineCountAppend(a, b[..|b| - 1]);
      assert (a + b)[..|a + b| - 1] == a + b[..|b| - 1];
    }
  }

  lemma {:induction false} ColumnLengthAfterBreak(a: string, b: string)
    requires a != [] && a[|a| - 1] == '\n'
    ensures ColumnLength(a + b) == ColumnLength(b)
    decreases |b|
  {
    if b == [] {
      assert a + b == a;
    } else {
      ColumnLengthAfterBreak(a, b[..|b| - 1]);
      assert (a + b)[..|a + b| - 1] == a + b[..|b| - 1];
    }
  }

  /** Text placed after a `head` that ends in a line break keeps its columns, and its lines move
    * down by the number of line breaks in `head`. */
  lemma PositionAfterHead(head: string, body: string, p: nat)
    requires head != [] && head[|head| - 1] == '\n'
    requires p <= |body|
    ensures PositionAt(head + body, |head| + p)
         == Position(PositionAt(body, p).line + NewlineCount(head), PositionAt(body, p).column)
  {
    assert (head + body)[..|head| + p] == head + body[..p];
    NewlineCountAppend(head, body[..p]);
    ColumnLengthAfterBreak(head, body[..p]);
  }

  /** `s` is one line: it holds no line break. */
  predicate OneLine(s: string) {
    forall i :: 0 <= i < |s| ==> s[i] != '\n'
  }

  lemma {:induction false} OneLineHasNoBreak(s: string)
    requires OneLine(s)
    ensures NewlineCount(s) == 0
    decreases |s|
  {
    if s != [] {
      OneLineHasNoBreak(s[..|s| - 1]);
    }
  }

  /** Binary (code point by code point) ordering of strings, shorter prefix first. */
  predicate LexLe(a: string, b: string)
    decreases |a|
  {
    a == [] || (b != [] && (a[0] < b[0] || (a[0] == b[0] && LexLe(a[1..], b[1..]))))
  }

  lemma {:induction false} LexLeTotal(a: string, b: string)
    ensures LexLe(a, b) || LexLe(b, a)
    decreases |a|
  {
    if a != [] && b != [] && a[0] == b[0] {
      LexLeTotal(a[1..], b[1..]);
    }
  }

  lemma {:induction false} LexLeTransitive(a: string, b: string, c: string)
    requires LexLe(a, b) && LexLe(b, c)
    ensures LexLe(a, c)
    decreases |a|
  {
    if a != [] && a[0] == b[0] && b[0] == c[0] {
      LexLeTransitive(a[1..], b[1..], c[1..]);
    }
  }

  lemma {:induction false} LexLeAntisymmetric(a: string, b: string)
    requires LexLe(a, b) && LexLe(b, a)
    ensures a == b
    decreases |a|
  {
    if a != [] {
      LexLeAntisymmetric(a[1..], b[1..]);
      assert a == [a[0]] + a[1..];
      assert b == [b[0]] + b[1..];
    }
  }
}
