/**
 * The JavaScript string operations used by the modelled pages:
 * `indexOf`, `includes`, `split` with a non-empty separator, `trim` and
 * `toLowerCase`.  Strings are sequences of characters.
 */
module JsString {

  /** `p` occurs in `s` starting at index `i`. */
  predicate OccursAt(s: string, p: string, i: int) {
    0 <= i && i + |p| <= |s| && s[i..i + |p|] == p
  }

  /** `s.indexOf(p, from)`: the first index at or after `from` where `p` occurs, or -1. */
  function IndexOfFrom(s: string, p: string, from: nat): (r: int)
    decreases |s| - from
    ensures r == -1 || (from <= r && OccursAt(s, p, r))
    ensures forall i :: from <= i && (r == -1 || i < r) ==> !OccursAt(s, p, i)
  {
    if |s| < from + |p| then -1
    else if s[from..from + |p|] == p then from
    else IndexOfFrom(s, p, from + 1)
  }

  /** `s.indexOf(p)`. */
  function IndexOf(s: string, p: string): int {
    IndexOfFrom(s, p, 0)
  }

  /** `s.includes(p)`, which ECMAScript defines as `indexOf` not being -1. */
  predicate Includes(s: string, p: string) {
    IndexOf(s, p) != -1
  }

  /** An occurrence anywhere makes `includes` true. */
  lemma OccurrenceIncludes(s: string, p: string, i: int)
    requires OccursAt(s, p, i)
    ensures Includes(s, p)
  {
  }

  /** An occurrence inside a prefix of `s` is an occurrence in `s`. */
  lemma OccursInPrefix(s: string, p: string, k: nat, i: int)
    requires k <= |s| && OccursAt(s[..k], p, i)
    ensures OccursAt(s, p, i)
  {
    assert s[..k][i..i + |p|] == s[i..i + |p|];
  }

  /** An occurrence inside a suffix of `s` is an occurrence in `s`. */
  lemma OccursInSuffix(s: string, p: string, k: nat, i: int)
    requires k <= |s| && OccursAt(s[k..], p, i)
    ensures OccursAt(s, p, k + i)
  {
    assert s[k..][i..i + |p|] == s[k + i..k + i + |p|];
  }

  /** An occurrence of `q` inside an occurrence of `p` is an occurrence of `q` in `s`. */
  lemma OccursInOccurrence(s: string, p: string, q: string, i: int, j: int)
    requires OccursAt(s, p, i) && OccursAt(p, q, j)
    ensures OccursAt(s, q, i + j)
  {
    forall k | 0 <= k < |q| ensures s[i + j + k] == q[k] {
      assert s[i..i + |p|][j + k] == p[j + k];
    }
  }

  /** A prefix of a string without `p` has no `p` either. */
  lemma PrefixExcludes(s: string, p: string, k: nat)
    requires k <= |s| && !Includes(s, p)
    ensures !Includes(s[..k], p)
  {
    if Includes(s[..k], p) {
      OccursInPrefix(s, p, k, IndexOf(s[..k], p));
    }
  }

  /** The text before the first occurrence of `p` holds no `p`. */
  lemma BeforeFirstExcludes(s: string, p: string)
    requires p != "" && IndexOf(s, p) != -1
    ensures !Includes(s[..IndexOf(s, p)], p)
  {
    var i := IndexOf(s, p);
    if Includes(s[..i], p) {
      OccursInPrefix(s, p, i, IndexOf(s[..i], p));
    }
  }

  /** `parts.join(sep)`. */
  function Join(parts: seq<string>, sep: string): string
    requires |parts| >= 1
  {
    if |parts| == 1 then parts[0] else parts[0] + sep + Join(parts[1..], sep)
  }

  /** `s.split(sep)` for a non-empty separator: the pieces between occurrences of `sep`. */
  function Split(s: string, sep: string): (parts: seq<string>)
    requires sep != ""
    decreases |s|
    ensures |parts| >= 1
    ensures |parts| == 1 <==> !Includes(s, sep)
    ensures forall k :: 0 <= k < |parts| ==> !Includes(parts[k], sep)
    ensures Join(parts, sep) == s
  {
    var i := IndexOf(s, sep);
    if i == -1 then [s]
    else
      BeforeFirstExcludes(s, sep);
      assert s == s[..i] + sep + s[i + |sep|..];
      [s[..i]] + Split(s[i + |sep|..], sep)
  }

  /** The pieces of `split` are what lies between the first occurrences. */
  lemma SplitPieces(s: string, sep: string)
    requires sep != ""
    ensures IndexOf(s, sep) == -1 ==> Split(s, sep) == [s]
    ensures IndexOf(s, sep) != -1 ==>
      var i := IndexOf(s, sep);
      Split(s, sep)[0] == s[..i] && Split(s, sep)[1] == Split(s[i + |sep|..], sep)[0]
  {
  }

  /** The first piece of `split` is the longest prefix of `s` that stops at the first `sep` or at the end. */
  lemma FirstPiece(s: string, sep: string)
    requires sep != ""
    ensures var h := Split(s, sep)[0];
      |h| <= |s| && h == s[..|h|] && (|h| == |s| || OccursAt(s, sep, |h|))
  {
    SplitPieces(s, sep);
    if IndexOf(s, sep) == -1 {
      assert s[..|s|] == s;
    }
  }

  /** The second piece of `split` starts right after the first `sep` and is a first piece of the rest. */
  lemma SecondPiece(s: string, sep: string)
    requires sep != "" && Includes(s, sep)
    ensures var i := IndexOf(s, sep) + |sep|;
      i <= |s| && Split(s, sep)[1] == Split(s[i..], sep)[0]
  {
    SplitPieces(s, sep);
  }

  /** Position `j` of `s` ends a piece: the end of `s`, a `stop` character or the start of a `sep`. */
  predicate EndsPiece(s: string, sep: string, stop: char, j: int) {
    j == |s| || (0 <= j < |s| && s[j] == stop) || OccursAt(s, sep, j)
  }

  /**
   * `s.split(sep)[0].split(stop)[0]` is the prefix of `s` up to the first
   * `stop`, the first `sep` or the end.
   */
  lemma PieceBeforeFirst(s: string, sep: string, stop: char, piece: string, id: string)
    requires sep != "" && piece == Split(s, sep)[0] && id == Split(piece, [stop])[0]
    ensures |id| <= |s| && id == s[..|id|]
    ensures !Includes(id, [stop]) && !Includes(id, sep)
    ensures EndsPiece(s, sep, stop, |id|)
  {
    FirstPiece(s, sep);
    FirstPiece(piece, [stop]);
    PrefixExcludes(piece, sep, |id|);
    if |id| < |piece| {
      assert piece[|id|..|id| + 1][0] == stop;
    }
  }

  /**
   * `s.split(sep)[1].split(stop)[0]` is the text after the first `sep`, up to
   * the first `stop`, the next `sep` or the end.
   */
  lemma PieceAfterFirst(s: string, sep: string, stop: char, i: int, t: string, id: string)
    requires sep != "" && Includes(s, sep) && i == IndexOf(s, sep) + |sep|
    requires t == Split(s, sep)[1] && id == Split(t, [stop])[0]
    ensures AfterFirst(s, sep, i, id, stop)
  {
    SecondPiece(s, sep);
    PieceBeforeFirst(s[i..], sep, stop, t, id);
    ShiftPiece(s, sep, stop, i, id);
  }

  /** `id` is the text of `s` from `i` up to the next `stop`, `sep` or the end, and holds neither. */
  predicate AfterFirst(s: string, sep: string, i: int, id: string, stop: char) {
    0 <= i && i + |id| <= |s| && id == s[i..i + |id|]
    && !Includes(id, [stop]) && !Includes(id, sep)
    && EndsPiece(s, sep, stop, i + |id|)
  }

  /** A piece found in the suffix `s[i..]` is a piece of `s` starting at `i`. */
  lemma ShiftPiece(s: string, sep: string, stop: char, i: nat, id: string)
    requires i + |id| <= |s| && id == s[i..][..|id|] && EndsPiece(s[i..], sep, stop, |id|)
    ensures id == s[i..i + |id|] && EndsPiece(s, sep, stop, i + |id|)
  {
    if OccursAt(s[i..], sep, |id|) {
      OccursInSuffix(s, sep, i, |id|);
    }
  }

  /** A string whose first character is never `p[0]` in `a` holds `p` only where `b` does. */
  lemma NotAcross(a: string, b: string, p: string)
    requires p != "" && !Includes(b, p)
    requires forall i :: 0 <= i < |a| ==> a[i] != p[0]
    ensures !Includes(a + b, p)
  {
    var s := a + b;
    if Includes(s, p) {
      var k := IndexOf(s, p);
      assert OccursAt(s, p, k);
      assert s[k] == p[0] by {
        assert s[k..k + |p|][0] == s[k];
      }
      if k >= |a| {
        assert s[k..k + |p|] == b[k - |a|..k - |a| + |p|];
        OccurrenceIncludes(b, p, k - |a|);
      }
    }
  }

  /** A character that never starts an occurrence of itself before `k` is absent from `s[..k]`. */
  lemma AbsentBefore(s: string, c: char, k: nat)
    requires k <= |s|
    requires forall i :: 0 <= i < k ==> !OccursAt(s, [c], i)
    ensures multiset(s[..k])[c] == 0
  {
    forall i | 0 <= i < k ensures s[..k][i] != c {
      assert !OccursAt(s, [c], i);
      assert s[i..i + 1] == [s[i]];
      assert [s[i]] != [c];
    }
    assert c !in s[..k];
  }

  /** Splitting on one character gives one more piece than there are occurrences of it. */
  lemma {:induction false} SplitCount(s: string, c: char)
    decreases |s|
    ensures |Split(s, [c])| == multiset(s)[c] + 1
  {
    var i := IndexOf(s, [c]);
    if i == -1 {
      AbsentBefore(s, c, |s|);
      assert s[..|s|] == s;
    } else {
      var rest := s[i + 1..];
      SplitCount(rest, c);
      AbsentBefore(s, c, i);
      CountAround(s, c, i);
      assert Split(s, [c]) == [s[..i]] + Split(rest, [c]);
    }
  }

  /** Counting `c` in `s` around a position that holds `c`. */
  lemma CountAround(s: string, c: char, i: nat)
    requires OccursAt(s, [c], i)
    ensures multiset(s)[c] == multiset(s[..i])[c] + 1 + multiset(s[i + 1..])[c]
  {
    assert s[i] == c by { assert s[i..i + 1] == [c]; }
    assert s == s[..i] + [c] + s[i + 1..];
    calc {
      multiset(s);
      multiset(s[..i] + [c] + s[i + 1..]);
      multiset(s[..i]) + multiset([c]) + multiset(s[i + 1..]);
    }
  }

  /** ECMAScript WhiteSpace and LineTerminator code points, which `trim` removes. */
  predicate IsSpace(c: char) {
    c == '\t' || c == '\n' || c == '\U{B}' || c == '\U{C}' || c == '\r' || c == ' '
    || c == '\U{A0}' || c == '\U{1680}' || ('\U{2000}' <= c <= '\U{200A}')
    || c == '\U{2028}' || c == '\U{2029}' || c == '\U{202F}' || c == '\U{205F}'
    || c == '\U{3000}' || c == '\U{FEFF}'
  }

  /** `s.trimStart()`: the suffix left after dropping leading white space. */
  function TrimStart(s: string): (r: string)
    ensures |r| <= |s| && r == s[|s| - |r|..]
    ensures forall i :: 0 <= i < |s| - |r| ==> IsSpace(s[i])
    ensures r == [] || !IsSpace(r[0])
  {
    if s != [] && IsSpace(s[0]) then TrimStart(s[1..]) else s
  }

  /** `s.trimEnd()`: the prefix left after dropping trailing white space. */
  function TrimEnd(s: string): (r: string)
    ensures |r| <= |s| && r == s[..|r|]
    ensures forall i :: |r| <= i < |s| ==> IsSpace(s[i])
    ensures r == [] || !IsSpace(r[|r| - 1])
  {
    if s != [] && IsSpace(s[|s| - 1]) then TrimEnd(s[..|s| - 1]) else s
  }

  /** `s.trim()`: empty exactly when `s` is all white space, and otherwise framed by non-space. */
  function Trim(s: string): (r: string)
    ensures |r| <= |s|
    ensures r == [] <==> forall i :: 0 <= i < |s| ==> IsSpace(s[i])
    ensures r != [] ==> !IsSpace(r[0]) && !IsSpace(r[|r| - 1])
  {
    var t := TrimStart(s);
    var r := TrimEnd(t);
    assert r != [] ==> r[0] == t[0];
    r
  }

  /**
   * The trimmed string is a prefix of `s` with its leading white space
   * removed (itself the suffix of `s` that `TrimStart` describes).
   */
  lemma TrimIsSlice(s: string)
    ensures |Trim(s)| <= |TrimStart(s)| && Trim(s) == TrimStart(s)[..|Trim(s)|]
  {
    var t := TrimStart(s);
    assert Trim(s) == TrimEnd(t);
  }

  /** Trimming a trimmed string changes nothing. */
  lemma TrimIdempotent(s: string)
    ensures Trim(Trim(s)) == Trim(s)
  {
    var r := Trim(s);
    assert TrimStart(r) == r;
    assert TrimEnd(r) == r;
  }

  /** Lower-casing of one character (ASCII letters only). */
  function LowerChar(c: char): char {
    if 'A' <= c <= 'Z' then (c as int + 32) as char else c
  }

  /** `s.toLowerCase()`, restricted to ASCII letters. */
  function ToLower(s: string): (r: string)
    ensures |r| == |s|
    ensures forall i :: 0 <= i < |s| ==> r[i] == LowerChar(s[i])
  {
    if s == [] then [] else [LowerChar(s[0])] + ToLower(s[1..])
  }

  /** Lower-casing twice is lower-casing once. */
  lemma ToLowerIdempotent(s: string)
    ensures ToLower(ToLower(s)) == ToLower(s)
  {
  }
}
