/**
 * The JavaScript string built-ins that the account page calls (`split`,
 * `pop`, `trim`, `startsWith`), with `join` to state what `split` undoes and
 * `indexOf`/`lastIndexOf` to state what `split(...).pop()` picks out, over
 * strings as sequences of characters.
 */
module JsStrings {
  import opened Wrappers

  /** `s.startsWith(p)` */
  predicate StartsWith(s: string, p: string)
    ensures StartsWith(s, p) ==> |p| <= |s| && s == p + s[|p|..]
    ensures |p| == 0 ==> StartsWith(s, p)
  {
    |p| <= |s| && s[..|p|] == p
  }

  /** `s.startsWith(p)` holds exactly when `s` is `p` followed by something. */
  lemma StartsWithIsPrefix(s: string, p: string)
    ensures StartsWith(s, p) <==> exists t :: s == p + t
  {
    if StartsWith(s, p) {
      assert s == p + s[|p|..];
    }
    if exists t :: s == p + t {
      var t :| s == p + t;
      assert s[..|p|] == p;
    }
  }

  /** `p` occurs in `s` starting at index `i`. */
  predicate OccursAt(s: string, p: string, i: int) {
    0 <= i && i + |p| <= |s| && s[i..i + |p|] == p
  }

  /** The last element, as `xs.pop()` returns it. */
  function Last<T>(xs: seq<T>): T
    requires |xs| > 0
  {
    xs[|xs| - 1]
  }

  /** `parts.join(c)` */
  function Join(parts: seq<string>, c: char): string
  {
    if |parts| == 0 then ""
    else if |parts| == 1 then parts[0]
    else parts[0] + [c] + Join(parts[1..], c)
  }

  /**
   * `s.split(c)` for a one-character separator: the pieces between the
   * occurrences of `c`, in order.
   */
  function Split(s: string, c: char): (r: seq<string>)
    ensures |r| >= 1
    ensures forall i :: 0 <= i < |r| ==> c !in r[i]
    decreases |s|
  {
    if |s| == 0 then [""]
    else
      var rest := Split(s[1..], c);
      if s[0] == c then [""] + rest
      else [[s[0]] + rest[0]] + rest[1..]
  }

  /** Joining the pieces of `s.split(c)` with `c` gives back `s`. */
  lemma {:induction false} JoinSplit(s: string, c: char)
    ensures Join(Split(s, c), c) == s
    decreases |s|
  {
    if |s| > 0 {
      var t := s[1..];
      assert s == [s[0]] + t;
      SplitCons(s[0], t, c);
      JoinSplit(t, c);
      var rest := Split(t, c);
      if s[0] == c {
        assert ([""] + rest)[1..] == rest;
      } else {
        var r := [[s[0]] + rest[0]] + rest[1..];
        assert r[1..] == rest[1..];
        if |rest| > 1 {
          assert Join(rest, c) == rest[0] + [c] + Join(rest[1..], c);
        }
      }
    }
  }

  /** The first piece of `s.split(c)` is the prefix of `s` before the first `c`. */
  lemma {:induction false} SplitFirstPiece(s: string, c: char)
    ensures StartsWith(s, Split(s, c)[0])
    ensures c !in Split(s, c)[0]
    ensures |Split(s, c)[0]| < |s| ==> s[|Split(s, c)[0]|] == c
    decreases |s|
  {
    if |s| > 0 {
      var t := s[1..];
      assert s == [s[0]] + t;
      SplitCons(s[0], t, c);
      SplitFirstPiece(t, c);
      var p := Split(t, c)[0];
      if s[0] != c {
        assert Split(s, c)[0] == [s[0]] + p;
        assert s[..|p| + 1] == [s[0]] + t[..|p|];
      }
    }
  }

  /** One step of `split`: the first character either ends the first piece or joins it. */
  lemma SplitCons(ch: char, t: string, c: char)
    ensures Split([ch] + t, c) == if ch == c then [""] + Split(t, c)
                                  else [[ch] + Split(t, c)[0]] + Split(t, c)[1..]
  {
    var s := [ch] + t;
    assert s[0] == ch && s[1..] == t;
  }

  /** The list algebra of one `split` step, kept apart from `Split` itself. */
  lemma ExtendFirstPiece(ch: char, rt: seq<string>, sb: seq<string>)
    requires |rt| >= 1
    ensures [[ch] + (rt + sb)[0]] + (rt + sb)[1..] == ([[ch] + rt[0]] + rt[1..]) + sb
  {
    assert (rt + sb)[0] == rt[0];
    assert (rt + sb)[1..] == rt[1..] + sb;
  }

  /** Splitting `a + [c] + b` yields the pieces of `a` followed by the pieces of `b`. */
  lemma {:induction false} SplitConcat(a: string, c: char, b: string)
    ensures Split(a + [c] + b, c) == Split(a, c) + Split(b, c)
    decreases |a|
  {
    if |a| == 0 {
      assert a + [c] + b == [c] + b;
      SplitCons(c, b, c);
    } else {
      var t := a[1..];
      assert a == [a[0]] + t;
      assert a + [c] + b == [a[0]] + (t + [c] + b);
      SplitConcat(t, c, b);
      SplitCons(a[0], t + [c] + b, c);
      SplitCons(a[0], t, c);
      if a[0] != c {
        ExtendFirstPiece(a[0], Split(t, c), Split(b, c));
      }
    }
  }

  /** A string without `c` splits into itself alone. */
  lemma {:induction false} SplitWithoutSeparator(a: string, c: char)
    requires c !in a
    ensures Split(a, c) == [a]
    decreases |a|
  {
    if |a| > 0 {
      SplitWithoutSeparator(a[1..], c);
      assert [a[0]] + a[1..] == a;
    }
  }

  /** `split` undoes `join` when no part holds the separator. */
  lemma {:induction false} SplitJoin(parts: seq<string>, c: char)
    requires |parts| >= 1
    requires forall i :: 0 <= i < |parts| ==> c !in parts[i]
    ensures Split(Join(parts, c), c) == parts
    decreases |parts|
  {
    if |parts| == 1 {
      SplitWithoutSeparator(parts[0], c);
    } else {
      SplitJoin(parts[1..], c);
      SplitConcat(parts[0], c, Join(parts[1..], c));
      SplitWithoutSeparator(parts[0], c);
      assert [parts[0]] + parts[1..] == parts;
    }
  }

  /** An occurrence in a suffix is an occurrence in the whole string, shifted. */
  lemma OccursAtInSuffix(s: string, p: string, k: nat, j: int)
    requires k <= |s| && 0 <= j
    ensures OccursAt(s[k..], p, j) <==> OccursAt(s, p, j + k)
  {
    if 0 <= j && j + |p| <= |s| - k {
      assert s[k..][j..j + |p|] == s[j + k..j + k + |p|];
    }
  }

  /** The first index `j >= i` where `p` occurs in `s`, if any. */
  function IndexFrom(s: string, p: string, i: nat): (r: Option<nat>)
    ensures r.Some? ==> i <= r.value && OccursAt(s, p, r.value)
    ensures r.Some? ==> forall j :: i <= j < r.value ==> !OccursAt(s, p, j)
    ensures r.None? ==> forall j :: i <= j ==> !OccursAt(s, p, j)
    decreases |s| - i
  {
    if i + |p| > |s| then None
    else if OccursAt(s, p, i) then Some(i)
    else IndexFrom(s, p, i + 1)
  }

  /** `s.indexOf(p)`: the first index where `p` occurs, `None` for `-1`. */
  function IndexOf(s: string, p: string): (r: Option<nat>)
    ensures r.Some? ==> OccursAt(s, p, r.value)
    ensures r.Some? ==> forall j :: 0 <= j < r.value ==> !OccursAt(s, p, j)
    ensures r.None? ==> forall j :: !OccursAt(s, p, j)
  {
    IndexFrom(s, p, 0)
  }

  /** The last index `j < n` where `p` occurs in `s`, if any. */
  function LastIndexBelow(s: string, p: string, n: nat): (r: Option<nat>)
    ensures r.Some? ==> r.value < n && OccursAt(s, p, r.value)
    ensures r.Some? ==> forall j :: r.value < j < n ==> !OccursAt(s, p, j)
    ensures r.None? ==> forall j :: j < n ==> !OccursAt(s, p, j)
  {
    if n == 0 then None
    else if OccursAt(s, p, n - 1) then Some(n - 1)
    else LastIndexBelow(s, p, n - 1)
  }

  /** `s.lastIndexOf(p)`: the last index where `p` occurs, `None` for `-1`. */
  function LastIndexOf(s: string, p: string): (r: Option<nat>)
    ensures r.Some? ==> OccursAt(s, p, r.value)
    ensures r.Some? ==> forall j :: r.value < j ==> !OccursAt(s, p, j)
    ensures r.None? ==> forall j :: !OccursAt(s, p, j)
  {
    if |s| < |p| then None else LastIndexBelow(s, p, |s| - |p| + 1)
  }

  /** `s.split(sep)` for a non-empty separator string, scanning left to right. */
  function SplitOn(s: string, sep: string): (r: seq<string>)
    requires |sep| > 0
    ensures |r| >= 1
    ensures IndexOf(s, sep).None? ==> r == [s]
    ensures IndexOf(s, sep).Some? ==> |r| >= 2
    decreases |s|
  {
    match IndexOf(s, sep)
    case None => [s]
    case Some(i) => [s[..i]] + SplitOn(s[i + |sep|..], sep)
  }

  /** No piece of `s.split(sep)` holds `sep`. */
  lemma {:induction false} SplitOnPiecesLackSeparator(s: string, sep: string)
    requires |sep| > 0
    ensures forall k :: 0 <= k < |SplitOn(s, sep)| ==> IndexOf(SplitOn(s, sep)[k], sep).None?
    decreases |s|
  {
    match IndexOf(s, sep)
    case None =>
    case Some(i) =>
      var rest := SplitOn(s[i + |sep|..], sep);
      NothingBeforeFirst(s, sep, i);
      SplitOnPiecesLackSeparator(s[i + |sep|..], sep);
      assert SplitOn(s, sep) == [s[..i]] + rest;
  }

  /** The text before the first occurrence of `sep` holds no occurrence of it. */
  lemma NothingBeforeFirst(s: string, sep: string, i: nat)
    requires |sep| > 0 && IndexOf(s, sep) == Some(i)
    ensures IndexOf(s[..i], sep).None?
  {
    forall j | 0 <= j && j + |sep| <= i
      ensures OccursAt(s[..i], sep, j) == OccursAt(s, sep, j)
    {
      assert s[..i][j..j + |sep|] == s[j..j + |sep|];
    }
    assert forall j :: !OccursAt(s[..i], sep, j);
  }

  /** Two occurrences of a separator whose first character does not recur in it never overlap. */
  lemma NoOverlap(s: string, sep: string, i: int, j: int)
    requires |sep| > 0 && sep[0] !in sep[1..]
    requires OccursAt(s, sep, i) && OccursAt(s, sep, j) && i < j
    ensures i + |sep| <= j
  {
  }

  /** The text after the last occurrence of `sep` in `s`, or all of `s` when `sep` does not occur. */
  function AfterLastOccurrence(s: string, sep: string): string
  {
    match LastIndexOf(s, sep)
    case None => s
    case Some(q) => s[q + |sep|..]
  }

  /**
   * `s.split(sep).pop()` is the text after the LAST occurrence of `sep`
   * (all of `s` when there is none), provided occurrences of `sep` cannot
   * overlap.
   */
  lemma {:induction false} LastPieceFollowsLastOccurrence(s: string, sep: string)
    requires |sep| > 0 && sep[0] !in sep[1..]
    ensures Last(SplitOn(s, sep)) == AfterLastOccurrence(s, sep)
    decreases |s|
  {
    match IndexOf(s, sep)
    case None =>
      assert SplitOn(s, sep) == [s];
      assert LastIndexOf(s, sep).None?;
    case Some(i) =>
      var t := s[i + |sep|..];
      SplitOnFirst(s, sep, i);
      LastPieceFollowsLastOccurrence(t, sep);
      AfterLastSkipsFirst(s, sep, i);
  }

  /** `split` cuts at the first occurrence and goes on after it. */
  lemma SplitOnFirst(s: string, sep: string, i: nat)
    requires |sep| > 0 && IndexOf(s, sep) == Some(i)
    ensures Last(SplitOn(s, sep)) == Last(SplitOn(s[i + |sep|..], sep))
  {
    var rest := SplitOn(s[i + |sep|..], sep);
    assert SplitOn(s, sep) == [s[..i]] + rest;
    assert Last([s[..i]] + rest) == rest[|rest| - 1];
  }

  /** The text after the last occurrence does not change when the text up to the first occurrence is dropped. */
  lemma AfterLastSkipsFirst(s: string, sep: string, i: nat)
    requires |sep| > 0 && sep[0] !in sep[1..]
    requires OccursAt(s, sep, i)
    ensures AfterLastOccurrence(s, sep) == AfterLastOccurrence(s[i + |sep|..], sep)
  {
    var k := i + |sep|;
    match LastIndexOf(s[k..], sep)
    case Some(q) =>
      LastIndexOfShifted(s, sep, k, q);
      AfterLastAt(s[k..], sep, q);
      AfterLastAt(s, sep, q + k);
      assert s[k..][q + |sep|..] == s[q + k + |sep|..];
    case None =>
      LastIndexOfIsFirst(s, sep, i);
      AfterLastAt(s, sep, i);
  }

  /** The text after the last occurrence, once that occurrence is known. */
  lemma AfterLastAt(s: string, sep: string, q: nat)
    requires LastIndexOf(s, sep) == Some(q)
    ensures AfterLastOccurrence(s, sep) == s[q + |sep|..]
  {
  }

  /** When nothing follows the first occurrence, the first occurrence is also the last. */
  lemma LastIndexOfIsFirst(s: string, sep: string, i: nat)
    requires |sep| > 0 && sep[0] !in sep[1..]
    requires OccursAt(s, sep, i)
    requires LastIndexOf(s[i + |sep|..], sep).None?
    ensures LastIndexOf(s, sep) == Some(i)
  {
    var k := i + |sep|;
    forall j | i < j ensures !OccursAt(s, sep, j) {
      if OccursAt(s, sep, j) {
        NoOverlap(s, sep, i, j);
        OccursAtInSuffix(s, sep, k, j - k);
      }
    }
    LastIndexOfIs(s, sep, i);
  }

  /** An occurrence after index `k` is last in `s` when it is last in `s[k..]`. */
  lemma LastIndexOfShifted(s: string, sep: string, k: nat, q: nat)
    requires k <= |s|
    requires LastIndexOf(s[k..], sep) == Some(q)
    ensures LastIndexOf(s, sep) == Some(q + k)
  {
    OccursAtInSuffix(s, sep, k, q);
    forall j | q + k < j ensures !OccursAt(s, sep, j) {
      OccursAtInSuffix(s, sep, k, j - k);
    }
    LastIndexOfIs(s, sep, q + k);
  }

  /** An occurrence with none after it is what `lastIndexOf` finds. */
  lemma LastIndexOfIs(s: string, p: string, q: nat)
    requires OccursAt(s, p, q)
    requires forall j :: q < j ==> !OccursAt(s, p, j)
    ensures LastIndexOf(s, p) == Some(q)
  {
    var r := LastIndexOf(s, p);
    assert r.Some?;
    assert !(q < r.value);
  }

  /** JavaScript white space and line terminators, the characters `trim` removes. */
  predicate IsWhiteSpace(ch: char) {
    ch == '\t' || ch == '\n' || ch == '\U{B}' || ch == '\U{C}' || ch == '\r' || ch == ' '
    || ch == '\U{A0}' || ch == '\U{1680}' || ('\U{2000}' <= ch <= '\U{200A}')
    || ch == '\U{2028}' || ch == '\U{2029}' || ch == '\U{202F}' || ch == '\U{205F}'
    || ch == '\U{3000}' || ch == '\U{FEFF}'
  }

  /** `s.trimStart()` */
  function TrimStart(s: string): (r: string)
    ensures |r| <= |s| && r == s[|s| - |r|..]
    ensures forall i :: 0 <= i < |s| - |r| ==> IsWhiteSpace(s[i])
    ensures |r| > 0 ==> !IsWhiteSpace(r[0])
    decreases |s|
  {
    if |s| > 0 && IsWhiteSpace(s[0]) then TrimStart(s[1..]) else s
  }

  /** `s.trimEnd()` */
  function TrimEnd(s: string): (r: string)
    ensures |r| <= |s| && r == s[..|r|]
    ensures forall i :: |r| <= i < |s| ==> IsWhiteSpace(s[i])
    ensures |r| > 0 ==> !IsWhiteSpace(r[|r| - 1])
    decreases |s|
  {
    if |s| > 0 && IsWhiteSpace(s[|s| - 1]) then TrimEnd(s[..|s| - 1]) else s
  }

  /**
   * `s.trim()`: the part of `s` between its leading and its trailing white
   * space, which starts and ends with a non-space.
   */
  function Trim(s: string): (r: string)
    ensures exists k :: 0 <= k <= |s| - |r| && s[k..][..|r|] == r
    ensures |r| > 0 ==> !IsWhiteSpace(r[0]) && !IsWhiteSpace(r[|r| - 1])
  {
    var t := TrimStart(s);
    var u := TrimEnd(t);
    assert s[|s| - |t|..][..|u|] == u;
    u
  }

  /**
   * `r` is `s` without its first `k` characters and without those after
   * `k + |r|`, and every character removed is white space.
   */
  predicate StrippedAt(s: string, r: string, k: int) {
    && 0 <= k <= |s| - |r| && s[k..k + |r|] == r
    && (forall i :: 0 <= i < k ==> IsWhiteSpace(s[i]))
    && (forall i :: k + |r| <= i < |s| ==> IsWhiteSpace(s[i]))
  }

  /**
   * `s.trim()` removes white space from both ends and nothing else: what it
   * removes is white space, and what it keeps starts and ends with a
   * non-space.
   */
  lemma TrimStripsWhiteSpace(s: string)
    ensures exists k :: StrippedAt(s, Trim(s), k)
    ensures |Trim(s)| > 0 ==> !IsWhiteSpace(Trim(s)[0]) && !IsWhiteSpace(Trim(s)[|Trim(s)| - 1])
  {
    var t := TrimStart(s);
    var u := TrimEnd(t);
    var k := |s| - |t|;
    assert s[k..k + |u|] == t[..|u|] == u;
    forall i | k + |u| <= i < |s|
      ensures IsWhiteSpace(s[i])
    {
      assert s[i] == t[i - k];
    }
    assert Trim(s) == u && StrippedAt(s, u, k);
  }

  /**
   * A trimmed string starts with a prefix that ends in a non-space
   * character exactly when the string with its leading spaces removed does:
   * trailing spaces never matter to `trim().startsWith(p)`.
   */
  lemma TrimmedStartsWith(s: string, p: string)
    requires |p| > 0 && !IsWhiteSpace(p[|p| - 1])
    ensures StartsWith(Trim(s), p) <==> StartsWith(TrimStart(s), p)
  {
    var t := TrimStart(s);
    var u := TrimEnd(t);
    assert u == t[..|u|];
    if StartsWith(t, p) {
      if |u| >= |p| {
        assert u[..|p|] == t[..|p|];
      }
    }
    if StartsWith(u, p) {
      assert t[..|p|] == u[..|p|];
    }
  }
}
