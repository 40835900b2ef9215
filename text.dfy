/**
 * The JavaScript string primitives the rendering core relies on:
 * `trim`, the regex class `\s`, global replacement of a literal token,
 * `split` on one character, ASCII lower-casing, and the leftmost match of
 * `<literal>([A-Za-z0-9_-]+)`.
 */
module Text {
  import opened Wrappers

  /** The characters removed by `String.prototype.trim` and matched by `\s`. */
  predicate IsWhite(c: char) {
    || c == ' ' || c == '\t' || c == '\n' || c == '\r' || c == '\U{B}' || c == '\U{C}'
    || c == '\U{A0}' || c == '\U{1680}' || ('\U{2000}' <= c <= '\U{200A}')
    || c == '\U{2028}' || c == '\U{2029}' || c == '\U{202F}' || c == '\U{205F}'
    || c == '\U{3000}' || c == '\U{FEFF}'
  }

  /** The class `[a-zA-Z0-9_-]` used by the file-id and sheet-id patterns. */
  predicate IsIdChar(c: char) {
    ('a' <= c <= 'z') || ('A' <= c <= 'Z') || ('0' <= c <= '9') || c == '_' || c == '-'
  }

  predicate IsUpper(c: char) { 'A' <= c <= 'Z' }

  predicate IsLowerAlnum(c: char) { ('a' <= c <= 'z') || ('0' <= c <= '9') }

  /** A string `trim` leaves as it is. */
  predicate Trimmed(s: string) {
    s == [] || (!IsWhite(s[0]) && !IsWhite(s[|s| - 1]))
  }

  function TrimStart(s: string): (r: string)
    ensures |r| <= |s| && r == s[|s| - |r|..]
    ensures forall k :: 0 <= k < |s| - |r| ==> IsWhite(s[k])
    ensures r == [] || !IsWhite(r[0])
  {
    if s != [] && IsWhite(s[0]) then TrimStart(s[1..]) else s
  }

  function TrimEnd(s: string): (r: string)
    ensures |r| <= |s| && r == s[..|r|]
    ensures forall k :: |r| <= k < |s| ==> IsWhite(s[k])
    ensures r == [] || !IsWhite(r[|r| - 1])
  {
    if s != [] && IsWhite(s[|s| - 1]) then TrimEnd(s[..|s| - 1]) else s
  }

  /** `r` is `s[i..i + |r|]` and every character of `s` around it is white space. */
  predicate CutFrom(s: string, r: string, i: int) {
    && 0 <= i <= |s| - |r|
    && r == s[i..i + |r|]
    && (forall k :: 0 <= k < i ==> IsWhite(s[k]))
    && (forall k :: i + |r| <= k < |s| ==> IsWhite(s[k]))
  }

  /** `String.prototype.trim`: the result is the input without its leading and trailing white space. */
  function Trim(s: string): (r: string)
    ensures Trimmed(r) && |r| <= |s|
  {
    var t := TrimStart(s);
    var r := TrimEnd(t);
    assert r == [] || r[0] == t[0];
    r
  }

  /** What `trim` removes is white space at both ends and nothing else. */
  lemma TrimCuts(s: string)
    ensures exists i :: CutFrom(s, Trim(s), i)
  {
    var t := TrimStart(s);
    assert Trim(s) == TrimEnd(t);
    assert CutFrom(s, TrimEnd(t), |s| - |t|);
  }

  lemma TrimOfTrimmed(s: string)
    requires Trimmed(s)
    ensures Trim(s) == s
  {
    assert TrimStart(s) == s;
  }

  /** Trimming twice is trimming once. */
  lemma TrimIdempotent(s: string)
    ensures Trim(Trim(s)) == Trim(s)
  {
    TrimOfTrimmed(Trim(s));
  }

  /** `p` occurs in `s` at index `i`. */
  predicate OccursAt(s: string, p: string, i: int) {
    0 <= i && i + |p| <= |s| && s[i..i + |p|] == p
  }

  /** `String.prototype.includes`. */
  predicate Contains(s: string, p: string) {
    exists i :: 0 <= i <= |s| - |p| && OccursAt(s, p, i)
  }

  // ---------------------------------------------------------------------------
  // Leftmost match of `<prefix>([a-zA-Z0-9_-]+)`

  /** The longest prefix of `s` made of id characters (the greedy `+`). */
  function IdRun(s: string): (r: string)
    ensures |r| <= |s| && r == s[..|r|]
    ensures forall k :: 0 <= k < |r| ==> IsIdChar(r[k])
    ensures |r| == |s| || !IsIdChar(s[|r|])
  {
    if s != [] && IsIdChar(s[0]) then [s[0]] + IdRun(s[1..]) else []
  }

  /** The pattern `<prefix>[a-zA-Z0-9_-]` matches `s` at index `j`. */
  predicate MatchesAt(s: string, prefix: string, j: int) {
    0 <= j && j + |prefix| < |s| && s[j..j + |prefix|] == prefix && IsIdChar(s[j + |prefix|])
  }

  /** The leftmost index at or after `i` where `<prefix>[a-zA-Z0-9_-]` matches. */
  function FindFrom(s: string, prefix: string, i: nat): (r: Option<nat>)
    decreases |s| - i
    ensures r.Some? ==> i <= r.value && MatchesAt(s, prefix, r.value)
    ensures r.Some? ==> forall j :: i <= j < r.value ==> !MatchesAt(s, prefix, j)
    ensures r.None? ==> forall j :: i <= j ==> !MatchesAt(s, prefix, j)
  {
    if i + |prefix| >= |s| then None
    else if MatchesAt(s, prefix, i) then Some(i)
    else FindFrom(s, prefix, i + 1)
  }

  /**
   * `s.match(/<prefix>([a-zA-Z0-9_-]+)/)[1]`: the id run after the leftmost
   * occurrence of `prefix` that is followed by at least one id character.
   */
  function FindIdAfter(s: string, prefix: string): (r: Option<string>)
    ensures r.Some? <==> exists j :: MatchesAt(s, prefix, j)
    ensures r.Some? ==> r.value != [] && forall k :: 0 <= k < |r.value| ==> IsIdChar(r.value[k])
    ensures r.Some? ==> (exists p :: MatchesAt(s, prefix, p) && (forall j :: 0 <= j < p ==> !MatchesAt(s, prefix, j))
                                    && r.value == IdRun(s[p + |prefix|..]))
  {
    match FindFrom(s, prefix, 0)
    case Some(p) => Some(IdRun(s[p + |prefix|..]))
    case None => None
  }

  /** A match of a longer pattern ending in `suffix` is also a match of `suffix`. */
  lemma MatchOfSuffix(s: string, pre: string, suffix: string, j: int)
    requires MatchesAt(s, pre + suffix, j)
    ensures MatchesAt(s, suffix, j + |pre|)
  {
    assert s[j + |pre|..j + |pre| + |suffix|] == (pre + suffix)[|pre|..];
  }

  // ---------------------------------------------------------------------------
  // Global replacement of a literal token: `s.replace(new RegExp(tok, 'g'), v)`

  /**
   * Replaces every occurrence of `tok`, scanning left to right without
   * overlap; the inserted text is never scanned again.
   */
  function ReplaceAll(s: string, tok: string, v: string): (r: string)
    requires tok != []
    decreases |s|
  {
    if |s| < |tok| then s
    else if s[..|tok|] == tok then v + ReplaceAll(s[|tok|..], tok, v)
    else [s[0]] + ReplaceAll(s[1..], tok, v)
  }

  /** Occurrences in `s[1..]` are the occurrences in `s` shifted by one. */
  lemma OccursShift(s: string, tok: string, i: int)
    requires s != [] && 0 <= i
    ensures OccursAt(s[1..], tok, i) <==> OccursAt(s, tok, i + 1)
  {
    if 0 <= i && i + |tok| <= |s| - 1 {
      assert s[1..][i..i + |tok|] == s[i + 1..i + 1 + |tok|];
    }
  }

  /** A string in which the token does not occur is left untouched. */
  lemma {:induction false} ReplaceAllAbsent(s: string, tok: string, v: string)
    requires tok != []
    requires forall i :: !OccursAt(s, tok, i)
    ensures ReplaceAll(s, tok, v) == s
    decreases |s|
  {
    if |s| >= |tok| {
      assert !OccursAt(s, tok, 0);
      forall i ensures !OccursAt(s[1..], tok, i) {
        if i >= 0 { OccursShift(s, tok, i); }
      }
      ReplaceAllAbsent(s[1..], tok, v);
    }
  }

  /**
   * The leftmost occurrence is replaced by `v` and scanning resumes after it:
   * text before the first occurrence is copied, `v` is inserted verbatim.
   */
  lemma {:induction false} ReplaceAllLeftmost(a: string, tok: string, b: string, v: string)
    requires tok != []
    requires forall i :: 0 <= i < |a| ==> !OccursAt(a + tok + b, tok, i)
    ensures ReplaceAll(a + tok + b, tok, v) == a + v + ReplaceAll(b, tok, v)
    decreases |a|
  {
    var s := a + tok + b;
    if a == [] {
      assert s == tok + b;
      assert s[..|tok|] == tok;
      assert s[|tok|..] == b;
    } else {
      assert !OccursAt(s, tok, 0);
      assert s[1..] == a[1..] + tok + b;
      forall i | 0 <= i < |a[1..]| ensures !OccursAt(a[1..] + tok + b, tok, i) {
        OccursShift(s, tok, i);
      }
      ReplaceAllLeftmost(a[1..], tok, b, v);
      assert ReplaceAll(s, tok, v) == [s[0]] + ReplaceAll(s[1..], tok, v);
    }
  }

  /** One differing character rules out an occurrence. */
  lemma MismatchAt(s: string, tok: string, i: int, k: int)
    requires 0 <= i && 0 <= k < |tok| && i + k < |s| && s[i + k] != tok[k]
    ensures !OccursAt(s, tok, i)
  {
    if i + |tok| <= |s| {
      assert s[i..i + |tok|][k] == s[i + k];
    }
  }

  /** Occurrences in a suffix are the occurrences in the whole string, shifted. */
  lemma OccursShiftBy(s: string, tok: string, k: int, i: int)
    requires 0 <= k <= |s| && 0 <= i
    ensures OccursAt(s[k..], tok, i) <==> OccursAt(s, tok, i + k)
  {
    if i + |tok| <= |s| - k {
      assert s[k..][i..i + |tok|] == s[i + k..i + k + |tok|];
    }
  }

  /** Text in front of the rest in which no occurrence starts is copied as it is. */
  lemma {:induction false} ReplaceAllCopy(a: string, rest: string, tok: string, v: string)
    requires tok != []
    requires forall i :: 0 <= i < |a| ==> !OccursAt(a + rest, tok, i)
    ensures ReplaceAll(a + rest, tok, v) == a + ReplaceAll(rest, tok, v)
    decreases |a|
  {
    var s := a + rest;
    if a != [] {
      assert !OccursAt(s, tok, 0);
      assert s[1..] == a[1..] + rest;
      forall i | 0 <= i < |a[1..]| ensures !OccursAt(a[1..] + rest, tok, i) {
        OccursShift(s, tok, i);
      }
      ReplaceAllCopy(a[1..], rest, tok, v);
      assert ReplaceAll(s, tok, v) == [s[0]] + ReplaceAll(s[1..], tok, v);
      assert a == [a[0]] + a[1..];
    } else {
      assert s == rest;
    }
  }

  /**
   * Replacing in `x + y` is replacing in each part when no occurrence of the
   * token straddles the boundary between them.
   */
  lemma {:induction false} ReplaceAllSplit(x: string, y: string, tok: string, v: string)
    requires tok != []
    requires forall i :: 0 <= i < |x| < i + |tok| ==> !OccursAt(x + y, tok, i)
    ensures ReplaceAll(x + y, tok, v) == ReplaceAll(x, tok, v) + ReplaceAll(y, tok, v)
    decreases |x|
  {
    var s := x + y;
    if |x| < |tok| {
      ReplaceAllCopy(x, y, tok, v);
    } else if x[..|tok|] == tok {
      var x' := x[|tok|..];
      assert s[..|tok|] == tok;
      assert s[|tok|..] == x' + y;
      forall i | 0 <= i < |x'| < i + |tok| ensures !OccursAt(x' + y, tok, i) {
        OccursShiftBy(s, tok, |tok|, i);
      }
      ReplaceAllSplit(x', y, tok, v);
      assert ReplaceAll(s, tok, v) == v + ReplaceAll(x' + y, tok, v);
      assert ReplaceAll(x, tok, v) == v + ReplaceAll(x', tok, v);
    } else {
      assert s[..|tok|] == x[..|tok|];
      assert s[1..] == x[1..] + y;
      forall i | 0 <= i < |x[1..]| < i + |tok| ensures !OccursAt(x[1..] + y, tok, i) {
        OccursShift(s, tok, i);
      }
      ReplaceAllSplit(x[1..], y, tok, v);
      assert ReplaceAll(s, tok, v) == [s[0]] + ReplaceAll(x[1..] + y, tok, v);
      assert ReplaceAll(x, tok, v) == [x[0]] + ReplaceAll(x[1..], tok, v);
    }
  }

  /** `s.replace(p, v)` with a string pattern: only the first occurrence. */
  function ReplaceFirst(s: string, p: string, v: string): (r: string)
    requires p != []
    decreases |s|
  {
    if |s| < |p| then s
    else if s[..|p|] == p then v + s[|p|..]
    else [s[0]] + ReplaceFirst(s[1..], p, v)
  }

  /** `replace` rewrites the leftmost occurrence of the pattern and keeps everything after it. */
  lemma {:induction false} ReplaceFirstLeftmost(a: string, p: string, b: string, v: string)
    requires p != []
    requires forall i :: 0 <= i < |a| ==> !OccursAt(a + p + b, p, i)
    ensures ReplaceFirst(a + p + b, p, v) == a + v + b
    decreases |a|
  {
    var s := a + p + b;
    if a == [] {
      assert s == p + b;
      assert s[..|p|] == p;
      assert s[|p|..] == b;
    } else {
      assert !OccursAt(s, p, 0);
      assert s[1..] == a[1..] + p + b;
      forall i | 0 <= i < |a[1..]| ensures !OccursAt(a[1..] + p + b, p, i) {
        OccursShift(s, p, i);
      }
      ReplaceFirstLeftmost(a[1..], p, b, v);
      assert ReplaceFirst(s, p, v) == [s[0]] + ReplaceFirst(s[1..], p, v);
    }
  }

  /** `replace` leaves a string without the pattern as it is. */
  lemma {:induction false} ReplaceFirstAbsent(s: string, p: string, v: string)
    requires p != [] && !Contains(s, p)
    ensures ReplaceFirst(s, p, v) == s
    decreases |s|
  {
    if |s| >= |p| {
      assert !OccursAt(s, p, 0);
      assert s[..|p|] != p;
      forall i | 0 <= i && i + |p| <= |s[1..]|
        ensures !OccursAt(s[1..], p, i)
      {
        assert !OccursAt(s, p, i + 1);
        assert s[1..][i..i + |p|] == s[i + 1..i + 1 + |p|];
      }
      ReplaceFirstAbsent(s[1..], p, v);
      assert s == [s[0]] + s[1..];
    }
  }

  // ---------------------------------------------------------------------------
  // split / join on one character

  /** `s.split(sep)` for a one-character separator. */
  function Split(s: string, sep: char): (r: seq<string>)
    ensures |r| >= 1
    ensures forall k, m :: 0 <= k < |r| && 0 <= m < |r[k]| ==> r[k][m] != sep
  {
    if s == [] then [[]]
    else
      var rest := Split(s[1..], sep);
      if s[0] == sep then [[]] + rest
      else [[s[0]] + rest[0]] + rest[1..]
  }

  /** `parts.join(sep)`. */
  function Join(parts: seq<string>, sep: string): string {
    if parts == [] then []
    else if |parts| == 1 then parts[0]
    else parts[0] + sep + Join(parts[1..], sep)
  }

  /** Splitting and joining again restores the input. */
  lemma {:induction false} JoinSplit(s: string, sep: char)
    ensures Join(Split(s, sep), [sep]) == s
  {
    if s != [] {
      JoinSplit(s[1..], sep);
      var rest := Split(s[1..], sep);
      if s[0] == sep {
        assert Split(s, sep) == [[]] + rest;
        assert ([[]] + rest)[1..] == rest;
      } else {
        var parts := [[s[0]] + rest[0]] + rest[1..];
        assert Split(s, sep) == parts;
        if |rest| == 1 {
          assert Join(rest, [sep]) == rest[0];
        } else {
          assert parts[1..] == rest[1..];
          assert Join(rest, [sep]) == rest[0] + [sep] + Join(rest[1..], [sep]);
        }
      }
    }
  }

  /** Splitting at the first separator: a part without the separator comes off whole. */
  lemma {:induction false} SplitAtFirst(a: string, b: string, sep: char)
    requires forall k :: 0 <= k < |a| ==> a[k] != sep
    ensures Split(a + [sep] + b, sep) == [a] + Split(b, sep)
  {
    var s := a + [sep] + b;
    if a == [] {
      assert s[1..] == b;
    } else {
      assert s[1..] == a[1..] + [sep] + b;
      SplitAtFirst(a[1..], b, sep);
      assert [a[0]] + a[1..] == a;
    }
  }

  // ---------------------------------------------------------------------------
  // toLowerCase (ASCII letters)

  function LowerChar(c: char): (r: char)
    ensures IsUpper(c) ==> 'a' <= r <= 'z' && r as int - 'a' as int == c as int - 'A' as int
    ensures !IsUpper(c) ==> r == c
  {
    if IsUpper(c) then (c as int + 32) as char else c
  }

  function UpperChar(c: char): (r: char)
    ensures 'a' <= c <= 'z' ==> IsUpper(r) && r as int - 'A' as int == c as int - 'a' as int
    ensures !('a' <= c <= 'z') ==> r == c
  {
    if 'a' <= c <= 'z' then (c as int - 32) as char else c
  }

  function ToLower(s: string): (r: string)
    ensures |r| == |s|
    ensures forall k {:trigger r[k]} :: 0 <= k < |s| ==> r[k] == LowerChar(s[k])
  {
    if s == [] then [] else [LowerChar(s[0])] + ToLower(s[1..])
  }

  // ---------------------------------------------------------------------------
  // Decimal printing of a natural number (`String(n)` for a non-negative integer)

  function DigitChar(d: nat): (c: char)
    requires d < 10
    ensures '0' <= c <= '9'
  {
    ('0' as int + d) as char
  }

  function NatText(n: nat): (r: string)
    ensures r != [] && forall k :: 0 <= k < |r| ==> '0' <= r[k] <= '9'
  {
    if n < 10 then [DigitChar(n)] else NatText(n / 10) + [DigitChar(n % 10)]
  }
}
