/** Shared building blocks: optional values, results, and the character and
    string operations the PHP code relies on (explode/implode, str_replace,
    strtolower, substring search). Strings are sequences of characters; the
    source works on bytes and only ASCII behaviour is modelled. */
module Common {

  datatype Option<+T> = None | Some(value: T) {
    function GetOr(default: T): T {
      match this
      case Some(v) => v
      case None => default
    }
  }

  /** The two generator errors: a non-MySQL connection, and a table whose
      metadata the database did not return. */
  datatype Error = UnsupportedEngine(kind: string) | MetadataUnavailable(table: string)

  datatype Result<+T> = Ok(value: T) | Err(error: Error)

  /** The bytes PCRE's `\s` (and PHP's numeric-string scanner) treat as white
      space: space, tab, line feed, vertical tab, form feed, carriage return. */
  predicate IsSpace(c: char) {
    c == ' ' || c == '\t' || c == '\n' || c == '\U{0B}' || c == '\U{0C}' || c == '\r'
  }

  predicate IsDigit(c: char) { '0' <= c <= '9' }

  predicate IsUpper(c: char) { 'A' <= c <= 'Z' }

  predicate IsLower(c: char) { 'a' <= c <= 'z' }

  predicate IsLetter(c: char) { IsUpper(c) || IsLower(c) }

  predicate AllDigits(s: string) { forall i :: 0 <= i < |s| ==> IsDigit(s[i]) }

  predicate AllLetters(s: string) { forall i :: 0 <= i < |s| ==> IsLetter(s[i]) }

  /** strtolower on one byte: only ASCII A-Z change. */
  function LowerChar(c: char): (r: char)
    ensures !IsUpper(r)
    ensures IsUpper(c) ==> IsLower(r) && r as int == c as int + 32
    ensures !IsUpper(c) ==> r == c
  {
    if IsUpper(c) then (c as int + 32) as char else c
  }

  function UpperChar(c: char): char {
    if IsLower(c) then (c as int - 32) as char else c
  }

  function ToLower(s: string): (r: string)
    ensures |r| == |s|
    ensures forall i :: 0 <= i < |s| ==> r[i] == LowerChar(s[i])
  {
    seq(|s|, i requires 0 <= i < |s| => LowerChar(s[i]))
  }

  /** PHP's `empty()` on a string: true for "" and for "0". */
  predicate EmptyString(s: string) { s == "" || s == "0" }

  /** `needle` occurs in `s` starting at index `i`. */
  predicate OccursAt(s: string, i: nat, needle: string) {
    i + |needle| <= |s| && s[i..i + |needle|] == needle
  }

  predicate Contains(s: string, needle: string) {
    exists i: nat | i <= |s| :: OccursAt(s, i, needle)
  }

  /** Leftmost occurrence of a non-empty `needle` at or after `from`. */
  function IndexFrom(s: string, needle: string, from: nat): (r: Option<nat>)
    requires |needle| > 0
    decreases |s| - from
    ensures r.Some? ==> from <= r.value && OccursAt(s, r.value, needle)
    ensures r.Some? ==> forall k: nat :: from <= k < r.value ==> !OccursAt(s, k, needle)
    ensures r.None? ==> forall k: nat :: from <= k ==> !OccursAt(s, k, needle)
  {
    if from + |needle| > |s| then None
    else if OccursAt(s, from, needle) then Some(from)
    else IndexFrom(s, needle, from + 1)
  }

  /** PHP `explode($sep, $s)` for a non-empty separator: the pieces between
      successive leftmost occurrences of `sep`. */
  function Explode(s: string, sep: string): (r: seq<string>)
    requires |sep| > 0
    decreases |s|
    ensures |r| >= 1
  {
    match IndexFrom(s, sep, 0)
    case None => [s]
    case Some(k) => [s[..k]] + Explode(s[k + |sep|..], sep)
  }

  /** PHP `implode($sep, $parts)`. */
  function Join(parts: seq<string>, sep: string): string
    decreases |parts|
  {
    if |parts| == 0 then ""
    else if |parts| == 1 then parts[0]
    else parts[0] + sep + Join(parts[1..], sep)
  }

  /** PHP `str_replace($needle, $rep, $s)` for one needle: every leftmost,
      non-overlapping occurrence is replaced, scanning left to right. An empty
      needle leaves the subject unchanged. */
  function ReplaceAll(s: string, needle: string, rep: string): string
    decreases |s|
  {
    if |needle| == 0 then s
    else
      match IndexFrom(s, needle, 0)
      case None => s
      case Some(k) => s[..k] + rep + ReplaceAll(s[k + |needle|..], needle, rep)
  }

  /** The text before the leftmost occurrence holds no occurrence. */
  lemma PrefixBeforeFirst(s: string, sep: string, k: nat)
    requires |sep| > 0 && k <= |s|
    requires forall j: nat :: j < k ==> !OccursAt(s, j, sep)
    ensures !Contains(s[..k], sep)
  {
    forall i: nat | i <= k && OccursAt(s[..k], i, sep) ensures false {
      assert s[i..i + |sep|] == s[..k][i..i + |sep|];
      assert OccursAt(s, i, sep);
    }
  }

  lemma JoinCons(x: string, tail: seq<string>, sep: string)
    requires |tail| >= 1
    ensures Join([x] + tail, sep) == x + sep + Join(tail, sep)
  {
    assert ([x] + tail)[1..] == tail;
  }

  /** Cutting a string around an occurrence and gluing the parts back. */
  lemma SplitAround(s: string, k: nat, needle: string)
    requires OccursAt(s, k, needle)
    ensures s == s[..k] + needle + s[k + |needle|..]
  {
  }

  lemma {:induction false} ExplodeJoin(s: string, sep: string)
    requires |sep| > 0
    ensures Join(Explode(s, sep), sep) == s
    decreases |s|
  {
    match IndexFrom(s, sep, 0)
    case None =>
    case Some(k) =>
      var rest := s[k + |sep|..];
      ExplodeJoin(rest, sep);
      JoinCons(s[..k], Explode(rest, sep), sep);
      SplitAround(s, k, sep);
  }

  /** No piece produced by explode contains the separator. */
  lemma {:induction false} ExplodePiecesClean(s: string, sep: string)
    requires |sep| > 0
    ensures forall i :: 0 <= i < |Explode(s, sep)| ==> !Contains(Explode(s, sep)[i], sep)
    decreases |s|
  {
    match IndexFrom(s, sep, 0)
    case None =>
      PrefixBeforeFirst(s, sep, |s|);
      assert s[..|s|] == s;
    case Some(k) =>
      var rest := s[k + |sep|..];
      ExplodePiecesClean(rest, sep);
      PrefixBeforeFirst(s, sep, k);
      var r := Explode(s, sep);
      assert r == [s[..k]] + Explode(rest, sep);
      forall i | 0 <= i < |r| ensures !Contains(r[i], sep) {
        if i > 0 {
          assert r[i] == Explode(rest, sep)[i - 1];
        }
      }
  }

  /** str_replace is explode followed by implode with the replacement. */
  lemma {:induction false} ReplaceAllIsExplodeJoin(s: string, needle: string, rep: string)
    requires |needle| > 0
    ensures ReplaceAll(s, needle, rep) == Join(Explode(s, needle), rep)
    decreases |s|
  {
    match IndexFrom(s, needle, 0)
    case None =>
    case Some(k) =>
      var rest := s[k + |needle|..];
      ReplaceAllIsExplodeJoin(rest, needle, rep);
      var tail := Explode(rest, needle);
      assert |tail| >= 1;
  }

  /** Replacing a needle by itself changes nothing; a subject without the
      needle is returned unchanged. */
  lemma ReplaceAllIdentity(s: string, needle: string)
    ensures ReplaceAll(s, needle, needle) == s
  {
    if |needle| > 0 {
      ReplaceAllIsExplodeJoin(s, needle, needle);
      ExplodeJoin(s, needle);
    }
  }

  lemma ReplaceAllAbsent(s: string, needle: string, rep: string)
    requires !Contains(s, needle)
    ensures ReplaceAll(s, needle, rep) == s
  {
    if |needle| > 0 {
      var r := IndexFrom(s, needle, 0);
      if r.Some? {
        assert false;
      }
    }
  }

  /** The first occurrence of a one-character separator after a prefix
      that lacks it. */
  lemma FirstChar(a: string, c: char, b: string)
    requires c !in a
    ensures IndexFrom(a + [c] + b, [c], 0) == Some(|a|)
  {
    var s := a + [c] + b;
    assert s[|a|..|a| + 1] == [c];
    assert OccursAt(s, |a|, [c]);
    forall k: nat | k < |a| ensures !OccursAt(s, k, [c]) {
      assert s[k..k + 1] == [a[k]];
    }
    var r := IndexFrom(s, [c], 0);
    assert r.Some?;
    assert r.value >= |a|;
  }

  /** `explode` on a one-character separator cuts at its first occurrence. */
  lemma ExplodeChar(a: string, c: char, b: string)
    requires c !in a
    ensures Explode(a + [c] + b, [c]) == [a] + Explode(b, [c])
  {
    var s := a + [c] + b;
    FirstChar(a, c, b);
    assert s[..|a|] == a;
    assert s[|a| + 1..] == b;
  }

  /** Without the separator, `explode` returns the whole string. */
  lemma ExplodeNoChar(a: string, c: char)
    requires c !in a
    ensures Explode(a, [c]) == [a]
  {
    forall k: nat | k + 1 <= |a| ensures !OccursAt(a, k, [c]) {
      assert a[k..k + 1] == [a[k]];
    }
    assert IndexFrom(a, [c], 0).None?;
  }

  /** A string holding the separator explodes into at least two pieces. */
  lemma ExplodeHasTwo(s: string, c: char)
    requires c in s
    ensures |Explode(s, [c])| >= 2
  {
    var i :| 0 <= i < |s| && s[i] == c;
    assert OccursAt(s, i, [c]) by {
      assert s[i..i + 1] == [c];
    }
    assert IndexFrom(s, [c], 0).Some?;
  }

  // ---------------------------------------------------------------------
  // Order

  /** `a` is `b` with some elements left out: the elements of `a` occur in
      `b` in the same order. */
  predicate Subsequence<T(==)>(a: seq<T>, b: seq<T>)
    decreases |b|
  {
    |a| == 0 || (|b| > 0 && ((a[0] == b[0] && Subsequence(a[1..], b[1..])) || Subsequence(a, b[1..])))
  }

  /** Leaving out elements twice is leaving them out once. */
  lemma {:induction false} SubsequenceTrans<T>(a: seq<T>, b: seq<T>, c: seq<T>)
    requires Subsequence(a, b) && Subsequence(b, c)
    ensures Subsequence(a, c)
    decreases |c|
  {
    if |a| > 0 {
      if Subsequence(b, c[1..]) {
        SubsequenceTrans(a, b, c[1..]);
      } else if a[0] == b[0] && Subsequence(a[1..], b[1..]) {
        SubsequenceTrans(a[1..], b[1..], c[1..]);
      } else {
        SubsequenceTrans(a, b[1..], c[1..]);
      }
    }
  }

  /** An element added at the end of both sides keeps the order. */
  lemma {:induction false} SubsequenceSnoc<T>(a: seq<T>, b: seq<T>, x: T)
    requires Subsequence(a, b)
    ensures Subsequence(a + [x], b + [x])
    ensures Subsequence(a, b + [x])
    decreases |b|
  {
    if |b| == 0 {
      assert (a + [x])[1..] == [];
    } else {
      assert (b + [x])[1..] == b[1..] + [x];
      if |a| > 0 && a[0] == b[0] && Subsequence(a[1..], b[1..]) {
        SubsequenceSnoc(a[1..], b[1..], x);
        assert (a + [x])[1..] == a[1..] + [x];
      } else {
        SubsequenceSnoc(a, b[1..], x);
      }
    }
  }
}
