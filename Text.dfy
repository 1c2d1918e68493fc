/**
 * The JavaScript string built-ins the blog client relies on, over `seq<char>`:
 * the whitespace class of `\s` and `trim()`, `toLowerCase()`/`toUpperCase()`
 * (ASCII letters only), `includes`, `split` on one character and `split(/\s+/)`.
 */
module Text {

  /**
   * ECMAScript WhiteSpace and LineTerminator code points: the class `\s` and
   * what `trim()` removes. Tab to carriage return (U+0009..U+000D) and the
   * space are the ASCII ones; the others are at U+00A0 or above.
   */
  predicate IsSpace(c: char) {
    ('\t' <= c <= '\r') || c == ' ' || ('\U{A0}' <= c && IsWideSpace(c))
  }

  /** The non-ASCII members of `\s`: no-break space, the Unicode space separators, the line and paragraph separators and the byte-order mark. */
  predicate IsWideSpace(c: char) {
    c == '\U{A0}' || c == '\U{1680}' || ('\U{2000}' <= c <= '\U{200A}')
    || c == '\U{2028}' || c == '\U{2029}' || c == '\U{202F}' || c == '\U{205F}'
    || c == '\U{3000}' || c == '\U{FEFF}'
  }

  predicate AllSpace(s: string) {
    forall k :: 0 <= k < |s| ==> IsSpace(s[k])
  }

  predicate NoSpace(s: string) {
    forall k :: 0 <= k < |s| ==> !IsSpace(s[k])
  }

  // ---------------------------------------------------------------- case mapping

  predicate IsUpperLetter(c: char) { 'A' <= c <= 'Z' }
  predicate IsLowerLetter(c: char) { 'a' <= c <= 'z' }

  function LowerChar(c: char): char {
    if IsUpperLetter(c) then (c as int + 32) as char else c
  }

  function UpperChar(c: char): char {
    if IsLowerLetter(c) then (c as int - 32) as char else c
  }

  /** `toLowerCase()`, ASCII letters only. */
  function Lower(s: string): string {
    seq(|s|, k requires 0 <= k < |s| => LowerChar(s[k]))
  }

  /** `toUpperCase()`, ASCII letters only. */
  function Upper(s: string): string {
    seq(|s|, k requires 0 <= k < |s| => UpperChar(s[k]))
  }

  /** No lower-case letter is left. */
  predicate IsUpperCase(s: string) {
    forall k :: 0 <= k < |s| ==> !IsLowerLetter(s[k])
  }

  /** No upper-case letter is left. */
  predicate IsLowerCase(s: string) {
    forall k :: 0 <= k < |s| ==> !IsUpperLetter(s[k])
  }

  /** Upper-casing leaves nothing to upper-case, changes no whitespace, and undoes nothing of lower-casing. */
  lemma UpperFacts(s: string)
    ensures IsUpperCase(Upper(s))
    ensures Upper(Upper(s)) == Upper(s)
    ensures forall k :: 0 <= k < |s| ==> (IsSpace(Upper(s)[k]) <==> IsSpace(s[k]))
    ensures Lower(Upper(s)) == Lower(s)
  {
    assert Lower(Upper(s)) == Lower(s) by {
      forall k | 0 <= k < |s| ensures Lower(Upper(s))[k] == Lower(s)[k] {
        CaseRoundTrip(s[k]);
      }
    }
  }

  /**
   * Lower-casing leaves nothing to lower-case, is idempotent, changes no
   * whitespace, and undoes nothing of upper-casing: with no capital left and
   * the same upper-case form as `s`, every character of `Lower(s)` is fixed.
   */
  lemma LowerFacts(s: string)
    ensures IsLowerCase(Lower(s))
    ensures Lower(Lower(s)) == Lower(s)
    ensures forall k :: 0 <= k < |s| ==> (IsSpace(Lower(s)[k]) <==> IsSpace(s[k]))
    ensures Upper(Lower(s)) == Upper(s)
  {
    assert Upper(Lower(s)) == Upper(s) by {
      forall k | 0 <= k < |s| ensures Upper(Lower(s))[k] == Upper(s)[k] {
        CaseRoundTrip(s[k]);
      }
    }
  }

  lemma CaseRoundTrip(c: char)
    ensures LowerChar(UpperChar(c)) == LowerChar(c)
    ensures UpperChar(LowerChar(c)) == UpperChar(c)
  {
  }

  // ---------------------------------------------------------------- includes

  /** `s.includes(t)`: `t` occurs in `s` as a contiguous block. */
  predicate Includes(s: string, t: string)
    decreases |s|
  {
    t <= s || (|s| > 0 && Includes(s[1..], t))
  }

  /** `t` occurs in `s` starting at index `i`. */
  predicate OccursAt(s: string, t: string, i: int) {
    0 <= i <= |s| - |t| && s[i..i + |t|] == t
  }

  /** `Includes` agrees with the positional reading: `t` equals some slice of `s`. */
  lemma IncludesAt(s: string, t: string)
    ensures Includes(s, t) <==> exists i :: OccursAt(s, t, i)
  {
    if Includes(s, t) {
      var i := IncludesWitness(s, t);
    }
    if exists i :: OccursAt(s, t, i) {
      var i :| OccursAt(s, t, i);
      OccursIncludes(s, t, i);
    }
  }

  lemma {:induction false} IncludesWitness(s: string, t: string) returns (i: nat)
    requires Includes(s, t)
    ensures OccursAt(s, t, i)
    decreases |s|
  {
    if t <= s {
      i := 0;
    } else {
      var j := IncludesWitness(s[1..], t);
      assert s[1..][j..j + |t|] == s[j + 1..j + 1 + |t|];
      i := j + 1;
    }
  }

  lemma {:induction false} OccursIncludes(s: string, t: string, i: int)
    requires OccursAt(s, t, i)
    ensures Includes(s, t)
    decreases i
  {
    if i == 0 {
      assert t == s[..|t|];
    } else {
      assert s[1..][i - 1..i - 1 + |t|] == s[i..i + |t|];
      OccursIncludes(s[1..], t, i - 1);
    }
  }

  // ---------------------------------------------------------------- trim

  function TrimStart(s: string): (r: string)
    ensures |r| <= |s|
    ensures r == [] || !IsSpace(r[0])
    decreases |s|
  {
    if |s| > 0 && IsSpace(s[0]) then TrimStart(s[1..]) else s
  }

  function TrimEnd(s: string): (r: string)
    ensures |r| <= |s| && r == s[..|r|]
    ensures r == [] || !IsSpace(r[|r| - 1])
    decreases |s|
  {
    if |s| > 0 && IsSpace(s[|s| - 1]) then TrimEnd(s[..|s| - 1]) else s
  }

  /** `trim()`: drops the leading and the trailing whitespace. */
  function Trim(s: string): (r: string)
    ensures |r| <= |s|
    ensures r == [] || (!IsSpace(r[0]) && !IsSpace(r[|r| - 1]))
  {
    TrimEnd(TrimStart(s))
  }

  lemma {:induction false} TrimStartAt(s: string, i: nat)
    requires i <= |s| && AllSpace(s[..i]) && (i == |s| || !IsSpace(s[i]))
    ensures TrimStart(s) == s[i..]
    decreases i
  {
    if i == 0 {
      assert s[0..] == s;
    } else {
      assert s[..i][0] == s[0];
      assert TrimStart(s) == TrimStart(s[1..]);
      var t := s[1..];
      var u := t[..i - 1];
      assert AllSpace(u) by {
        forall k | 0 <= k < |u| ensures IsSpace(u[k]) {
          assert u[k] == s[..i][k + 1];
        }
      }
      assert i - 1 == |t| || t[i - 1] == s[i];
      TrimStartAt(t, i - 1);
      assert t[i - 1..] == s[i..];
    }
  }

  lemma {:induction false} TrimEndAt(s: string, j: nat)
    requires j <= |s| && AllSpace(s[j..]) && (j == 0 || !IsSpace(s[j - 1]))
    ensures TrimEnd(s) == s[..j]
    decreases |s| - j
  {
    if j < |s| {
      var p := s[..|s| - 1];
      assert p[j..] == s[j..][..|s| - 1 - j];
      TrimEndAt(p, j);
      assert p[..j] == s[..j];
    }
  }

  /**
   * `trim()` keeps exactly the block between the leading and the trailing
   * whitespace: whenever `s[..i]` and `s[j..]` are all whitespace and
   * `s[i..j]` neither starts nor ends with whitespace, `Trim(s)` is `s[i..j]`.
   */
  lemma TrimIsInnerBlock(s: string, i: nat, j: nat)
    requires i <= j <= |s| && AllSpace(s[..i]) && AllSpace(s[j..])
    requires i < j ==> !IsSpace(s[i]) && !IsSpace(s[j - 1])
    ensures Trim(s) == s[i..j]
  {
    if i == j {
      AllSpaceHalves(s, i);
      TrimAllSpace(s);
    } else {
      TrimInner(s, i, j);
    }
  }

  lemma TrimAllSpace(s: string)
    requires AllSpace(s[..|s|])
    ensures Trim(s) == []
  {
    TrimStartAt(s, |s|);
    assert TrimStart(s) == [];
  }

  lemma TrimInner(s: string, i: nat, j: nat)
    requires i < j <= |s| && AllSpace(s[..i]) && AllSpace(s[j..])
    requires !IsSpace(s[i]) && !IsSpace(s[j - 1])
    ensures Trim(s) == s[i..j]
  {
    TrimStartAt(s, i);
    var t := s[i..];
    assert TrimStart(s) == t;
    assert t[j - i..] == s[j..];
    TrimEndAt(t, j - i);
    assert t[..j - i] == s[i..j];
  }

  lemma AllSpaceHalves(s: string, i: nat)
    requires i <= |s| && AllSpace(s[..i]) && AllSpace(s[i..])
    ensures AllSpace(s[..|s|])
  {
    forall k | 0 <= k < |s| ensures IsSpace(s[k]) {
      if k < i {
        assert s[..i][k] == s[k];
      } else {
        assert s[i..][k - i] == s[k];
      }
    }
  }

  // ---------------------------------------------------------------- split on one character

  function Count(s: string, c: char): nat
    decreases |s|
  {
    if s == [] then 0 else (if s[0] == c then 1 else 0) + Count(s[1..], c)
  }

  /** `s.split(sep)` for a one-character separator: every separator ends a piece, the rest of the string is the last piece. */
  function Split(s: string, sep: char): (r: seq<string>)
    ensures |r| == Count(s, sep) + 1
    ensures forall k :: 0 <= k < |r| ==> sep !in r[k]
    decreases |s|
  {
    if s == [] then [[]]
    else
      var rest := Split(s[1..], sep);
      if s[0] == sep then [[]] + rest else [[s[0]] + rest[0]] + rest[1..]
  }

  /** `parts.join(sep)`. */
  function Join(parts: seq<string>, sep: char): string
    decreases |parts|
  {
    if parts == [] then []
    else if |parts| == 1 then parts[0]
    else parts[0] + [sep] + Join(parts[1..], sep)
  }

  /** Splitting loses nothing: joining the pieces back with the separator gives the input. */
  lemma {:induction false} JoinSplit(s: string, sep: char)
    ensures Join(Split(s, sep), sep) == s
    decreases |s|
  {
    if s != [] {
      var rest := Split(s[1..], sep);
      JoinSplit(s[1..], sep);
      if s[0] == sep {
        assert Split(s, sep)[1..] == rest;
      } else {
        var r := Split(s, sep);
        assert r[1..] == rest[1..];
        if |rest| > 1 {
          assert Join(rest, sep) == rest[0] + [sep] + Join(rest[1..], sep);
        }
      }
    }
  }

  /** Splitting is the inverse of joining pieces that do not hold the separator. */
  lemma {:induction false} SplitJoin(parts: seq<string>, sep: char)
    requires |parts| >= 1
    requires forall k :: 0 <= k < |parts| ==> sep !in parts[k]
    ensures Split(Join(parts, sep), sep) == parts
    decreases |parts|, |parts[0]|
  {
    var p := parts[0];
    if p == [] {
      if |parts| > 1 {
        var tail := parts[1..];
        SplitJoin(tail, sep);
        assert Join(parts, sep) == [sep] + Join(tail, sep);
        assert Join(parts, sep)[1..] == Join(tail, sep);
      }
    } else {
      var parts' := [p[1..]] + parts[1..];
      assert forall k :: 0 <= k < |parts'| ==> sep !in parts'[k] by {
        forall k | 0 <= k < |parts'| ensures sep !in parts'[k] {
          if k == 0 { assert forall c :: c in p[1..] ==> c in p; } else { assert parts'[k] == parts[k]; }
        }
      }
      SplitJoin(parts', sep);
      var s := Join(parts, sep);
      if |parts| == 1 {
        assert s == [p[0]] + Join(parts', sep);
      } else {
        assert parts'[1..] == parts[1..];
        assert s == [p[0]] + Join(parts', sep);
      }
      assert s[0] == p[0] && s[1..] == Join(parts', sep);
      assert p[0] != sep by { assert p[0] in p; }
      assert [p[0]] + p[1..] == p;
    }
  }

  // ---------------------------------------------------------------- split on whitespace runs

  /**
   * `s.split(/\s+/)`: the greedy pattern matches each maximal whitespace run,
   * and every match ends a piece; a leading or trailing run leaves an empty
   * first or last piece, and the empty string gives one empty piece.
   */
  function SplitWs(s: string): (r: seq<string>)
    ensures |r| >= 1
    ensures forall k :: 0 <= k < |r| ==> NoSpace(r[k])
    decreases |s|
  {
    if s == [] then [[]]
    else if IsSpace(s[0]) then [[]] + SplitWs(TrimStart(s))
    else
      var rest := SplitWs(s[1..]);
      [[s[0]] + rest[0]] + rest[1..]
  }

  /** Number of positions that end a non-whitespace character and start whitespace. */
  function RunEdges(s: string): nat
    decreases |s|
  {
    if |s| < 2 then 0
    else (if !IsSpace(s[0]) && IsSpace(s[1]) then 1 else 0) + RunEdges(s[1..])
  }

  /** Number of maximal whitespace runs in `s`. */
  function RunCount(s: string): nat {
    (if |s| > 0 && IsSpace(s[0]) then 1 else 0) + RunEdges(s)
  }

  lemma {:induction false} RunEdgesAfterSpace(s: string)
    requires |s| > 0 && IsSpace(s[0])
    ensures RunEdges(s) == RunCount(TrimStart(s))
    decreases |s|
  {
    var u := s[1..];
    if |u| > 0 && IsSpace(u[0]) {
      RunEdgesAfterSpace(u);
    }
  }

  /** `split(/\s+/)` yields one piece more than there are whitespace runs. */
  lemma {:induction false} SplitWsCount(s: string)
    ensures |SplitWs(s)| == RunCount(s) + 1
    decreases |s|
  {
    if s == [] {
    } else if IsSpace(s[0]) {
      SplitWsCount(TrimStart(s));
      RunEdgesAfterSpace(s);
    } else {
      SplitWsCount(s[1..]);
    }
  }

  function Concat(parts: seq<string>): string
    decreases |parts|
  {
    if parts == [] then [] else parts[0] + Concat(parts[1..])
  }

  /** `s` with every whitespace character removed. */
  function RemoveSpaces(s: string): string
    decreases |s|
  {
    if s == [] then [] else (if IsSpace(s[0]) then [] else [s[0]]) + RemoveSpaces(s[1..])
  }

  lemma {:induction false} RemoveLeadingSpaces(s: string)
    ensures RemoveSpaces(TrimStart(s)) == RemoveSpaces(s)
    decreases |s|
  {
    if |s| > 0 && IsSpace(s[0]) {
      RemoveLeadingSpaces(s[1..]);
    }
  }

  /** The pieces of `split(/\s+/)`, put side by side, are exactly the non-whitespace characters of `s`, in order. */
  lemma {:induction false} SplitWsKeepsText(s: string)
    ensures Concat(SplitWs(s)) == RemoveSpaces(s)
    decreases |s|
  {
    if s == [] {
    } else if IsSpace(s[0]) {
      var t := TrimStart(s);
      SplitWsKeepsText(t);
      RemoveLeadingSpaces(s);
      var r := SplitWs(s);
      assert r == [[]] + SplitWs(t);
      assert r[1..] == SplitWs(t);
      assert Concat(r) == r[0] + Concat(r[1..]);
    } else {
      var rest := SplitWs(s[1..]);
      SplitWsKeepsText(s[1..]);
      var r := SplitWs(s);
      assert r == [[s[0]] + rest[0]] + rest[1..];
      assert r[1..] == rest[1..];
      assert Concat(rest) == rest[0] + Concat(rest[1..]);
      assert Concat(r) == r[0] + Concat(r[1..]);
      assert RemoveSpaces(s) == [s[0]] + RemoveSpaces(s[1..]);
    }
  }

  /** A text without whitespace is a single piece, itself. */
  lemma {:induction false} NoSpaceSinglePiece(s: string)
    requires NoSpace(s)
    ensures SplitWs(s) == [s]
    decreases |s|
  {
    if s != [] {
      NoSpaceSinglePiece(s[1..]);
      assert [s[0]] + s[1..] == s;
    }
  }

  /**
   * A word followed by a maximal whitespace run ends the first piece there:
   * `split(/\s+/)` of `p + w + q` is `p` followed by the pieces of `q`. With
   * `NoSpaceSinglePiece` for the last word, this fixes every piece boundary.
   */
  lemma {:induction false} SplitWsAtRun(p: string, w: string, q: string)
    requires NoSpace(p) && w != [] && AllSpace(w)
    requires q == [] || !IsSpace(q[0])
    ensures SplitWs(p + w + q) == [p] + SplitWs(q)
    decreases |p|
  {
    var s := p + w + q;
    if p == [] {
      assert s == w + q;
      assert s[..|w|] == w;
      assert |w| == |s| || s[|w|] == q[0];
      TrimStartAt(s, |w|);
      assert s[|w|..] == q;
    } else {
      SplitWsAtRun(p[1..], w, q);
      assert s[1..] == p[1..] + w + q;
      assert [p[0]] + p[1..] == p;
    }
  }
}
