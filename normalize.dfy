/**
 * Column-key canonicalisation of fetched sheet rows: every key is lowered,
 * trimmed, has its white-space runs turned into `_`, loses every character
 * outside `[a-z0-9_]` and its leading and trailing `_`, and is finally
 * camel-cased (`_x` becomes `X`). Values are carried over untouched.
 */
module Normalize {
  import opened Wrappers
  import Text
  import opened Values

  /** `.replace(/\s+/g, '_')`: every maximal white-space run becomes one `_`. */
  function CollapseWhite(s: string): string
    decreases |s|
  {
    if s == [] then []
    else if Text.IsWhite(s[0]) then ['_'] + CollapseWhite(Text.TrimStart(s[1..]))
    else [s[0]] + CollapseWhite(s[1..])
  }

  /** No white space survives the collapse, and the result is never longer than the input. */
  lemma {:induction false} CollapseLeavesNoWhite(s: string)
    decreases |s|
    ensures var r := CollapseWhite(s);
      |r| <= |s| && forall k :: 0 <= k < |r| ==> !Text.IsWhite(r[k])
  {
    if s != [] {
      var c, rest := if Text.IsWhite(s[0]) then '_' else s[0], if Text.IsWhite(s[0]) then Text.TrimStart(s[1..]) else s[1..];
      assert CollapseWhite(s) == [c] + CollapseWhite(rest);
      assert !Text.IsWhite(c);
      CollapseLeavesNoWhite(rest);
    }
  }

  /** `s + c` loses the same leading white space as `s` when `s` ends in a non-white character. */
  lemma {:induction false} TrimStartAppend(s: string, c: string)
    requires s != [] && !Text.IsWhite(s[|s| - 1])
    ensures Text.TrimStart(s + c) == Text.TrimStart(s) + c
    decreases |s|
  {
    if Text.IsWhite(s[0]) {
      Uncons(s, c);
      TrimStartAppend(s[1..], c);
    }
  }

  /** A white-space run before a part that does not start with white space is trimmed away entirely. */
  lemma {:induction false} TrimStartOfRun(w: string, b: string)
    requires forall k :: 0 <= k < |w| ==> Text.IsWhite(w[k])
    requires b == [] || !Text.IsWhite(b[0])
    ensures Text.TrimStart(w + b) == b
    decreases |w|
  {
    if w != [] {
      Uncons(w, b);
      TrimStartOfRun(w[1..], b);
    } else {
      assert w + b == b;
    }
  }

  /** A non-empty text is its first character followed by the rest, also when more text follows. */
  lemma Uncons(s: string, c: string)
    requires s != []
    ensures s == [s[0]] + s[1..] && s + c == [s[0]] + (s[1..] + c)
  {
  }

  /** Concatenation of four parts regroups. */
  lemma Assoc3(w: string, x: string, y: string, z: string)
    ensures w + (x + y + z) == w + x + y + z
  {
  }

  /** Concatenation regroups. */
  lemma Assoc(x: string, y: string, z: string)
    ensures x + (y + z) == x + y + z
  {
  }

  /** One step of the collapse at a character that is kept. */
  lemma CollapseKeptStep(c: char, s: string)
    requires !Text.IsWhite(c)
    ensures CollapseWhite([c] + s) == [c] + CollapseWhite(s)
  {
    assert ([c] + s)[1..] == s;
  }

  /** One step of the collapse at a white-space character: the run it starts becomes `_`. */
  lemma CollapseRunStep(c: char, s: string)
    requires Text.IsWhite(c)
    ensures CollapseWhite([c] + s) == ['_'] + CollapseWhite(Text.TrimStart(s))
  {
    assert ([c] + s)[1..] == s;
  }

  /** A key that does not end in white space collapses independently of what follows it. */
  lemma {:induction false} CollapseAppend(a: string, c: string)
    requires a == [] || !Text.IsWhite(a[|a| - 1])
    ensures CollapseWhite(a + c) == CollapseWhite(a) + CollapseWhite(c)
    decreases |a|
  {
    if a == [] {
      assert a + c == c;
      assert CollapseWhite(a) == [];
    } else {
      var u := a[1..];
      Uncons(a, c);
      if Text.IsWhite(a[0]) {
        var t := Text.TrimStart(u);
        assert t != [] && t[|t| - 1] == a[|a| - 1] by {
          assert !Text.IsWhite(u[|u| - 1]);
          assert t == u[|u| - |t|..];
        }
        TrimStartAppend(u, c);
        CollapseRunStep(a[0], u + c);
        CollapseRunStep(a[0], u);
        CollapseAppend(t, c);
        Assoc(['_'], CollapseWhite(t), CollapseWhite(c));
      } else {
        CollapseKeptStep(a[0], u + c);
        CollapseKeptStep(a[0], u);
        CollapseAppend(u, c);
        Assoc([a[0]], CollapseWhite(u), CollapseWhite(c));
      }
    }
  }

  /**
   * Each maximal white-space run `w` is replaced by exactly one `_`, and the
   * text on either side of it is collapsed on its own.
   */
  lemma CollapseRun(a: string, w: string, b: string)
    requires a == [] || !Text.IsWhite(a[|a| - 1])
    requires w != [] && forall k :: 0 <= k < |w| ==> Text.IsWhite(w[k])
    requires b == [] || !Text.IsWhite(b[0])
    ensures CollapseWhite(a + w + b) == CollapseWhite(a) + "_" + CollapseWhite(b)
  {
    Assoc(a, w, b);
    CollapseAppend(a, w + b);
    CollapseOfRun(w, b);
    Assoc(CollapseWhite(a), "_", CollapseWhite(b));
  }

  /** A white-space run followed by a non-white character collapses to one `_`. */
  lemma CollapseOfRun(w: string, b: string)
    requires w != [] && forall k :: 0 <= k < |w| ==> Text.IsWhite(w[k])
    requires b == [] || !Text.IsWhite(b[0])
    ensures CollapseWhite(w + b) == "_" + CollapseWhite(b)
  {
    Uncons(w, b);
    CollapseRunStep(w[0], w[1..] + b);
    TrimStartOfRun(w[1..], b);
  }

  /** A character of `[a-z0-9_]`. */
  predicate IsWordChar(c: char) {
    Text.IsLowerAlnum(c) || c == '_'
  }

  /** `.replace(/[^a-z0-9_]/g, '')`. */
  function KeepWordChars(s: string): (r: string)
    ensures |r| <= |s|
    ensures forall k :: 0 <= k < |r| ==> IsWordChar(r[k])
    ensures (forall k :: 0 <= k < |s| ==> IsWordChar(s[k])) ==> r == s
  {
    if s == [] then []
    else if IsWordChar(s[0]) then [s[0]] + KeepWordChars(s[1..])
    else KeepWordChars(s[1..])
  }

  /** Filtering works character by character: the parts of a key are filtered independently. */
  lemma {:induction false} KeepWordCharsAppend(a: string, b: string)
    ensures KeepWordChars(a + b) == KeepWordChars(a) + KeepWordChars(b)
    decreases |a|
  {
    if a == [] {
      assert a + b == b;
    } else {
      assert (a + b)[1..] == a[1..] + b;
      KeepWordCharsAppend(a[1..], b);
    }
  }

  /** A single character survives the filter exactly when it is one of `[a-z0-9_]`. */
  lemma KeepWordCharsAt(a: string, c: char, b: string)
    ensures KeepWordChars(a + [c] + b) == KeepWordChars(a) + (if IsWordChar(c) then [c] else []) + KeepWordChars(b)
  {
    KeepWordCharsAppend(a + [c], b);
    KeepWordCharsAppend(a, [c]);
    assert KeepWordChars([c]) == if IsWordChar(c) then [c] else [] by {
      assert [c][1..] == [];
    }
  }

  function DropLeadingUnderscores(s: string): (r: string)
    ensures |r| <= |s| && r == s[|s| - |r|..]
    ensures forall k :: 0 <= k < |s| - |r| ==> s[k] == '_'
    ensures r == [] || r[0] != '_'
  {
    if s != [] && s[0] == '_' then DropLeadingUnderscores(s[1..]) else s
  }

  function DropTrailingUnderscores(s: string): (r: string)
    ensures |r| <= |s| && r == s[..|r|]
    ensures forall k :: |r| <= k < |s| ==> s[k] == '_'
    ensures r == [] || r[|r| - 1] != '_'
  {
    if s != [] && s[|s| - 1] == '_' then DropTrailingUnderscores(s[..|s| - 1]) else s
  }

  /** `.replace(/^_+|_+$/g, '')`: the key without its leading and trailing `_`. */
  function StripUnderscores(s: string): (r: string)
    ensures r == [] || (r[0] != '_' && r[|r| - 1] != '_')
    ensures (forall k :: 0 <= k < |s| ==> IsWordChar(s[k])) ==> forall k :: 0 <= k < |r| ==> IsWordChar(r[k])
  {
    var t := DropLeadingUnderscores(s);
    var r := DropTrailingUnderscores(t);
    assert r == s[|s| - |t|..|s| - |t| + |r|] by {
      assert t == s[|s| - |t|..];
      assert r == t[..|r|];
    }
    r
  }

  /**
   * Stripping removes a run of `_` at each end and nothing else: the result
   * is a slice of the key with only `_` before and after it.
   */
  lemma StripUnderscoresSlice(s: string)
    ensures var r := StripUnderscores(s);
      exists i, j ::
        && 0 <= i <= j <= |s| && r == s[i..j]
        && (forall k :: 0 <= k < i ==> s[k] == '_')
        && (forall k :: j <= k < |s| ==> s[k] == '_')
  {
    var t := DropLeadingUnderscores(s);
    var r := DropTrailingUnderscores(t);
    var i, j := |s| - |t|, |s| - |t| + |r|;
    assert r == s[i..j] by {
      assert t == s[i..];
      assert r == t[..|r|];
    }
    forall k | j <= k < |s| ensures s[k] == '_' {
      assert s[k] == t[k - i];
    }
  }

  /** `.replace(/_([a-z])/g, (_, letter) => letter.toUpperCase())`, matching left to right. */
  function CamelCase(s: string): (r: string)
    ensures |r| <= |s|
    ensures (forall k :: 0 <= k < |s| ==> IsWordChar(s[k])) ==>
      forall k :: 0 <= k < |r| ==> IsWordChar(r[k]) || Text.IsUpper(r[k])
    ensures s != [] && s[0] != '_' ==> r != [] && r[0] == s[0]
    ensures s != [] && s[|s| - 1] != '_' ==> r != [] && r[|r| - 1] != '_'
  {
    if s == [] then []
    else if |s| >= 2 && s[0] == '_' && 'a' <= s[1] <= 'z' then [Text.UpperChar(s[1])] + CamelCase(s[2..])
    else [s[0]] + CamelCase(s[1..])
  }

  /**
   * An `_` followed by a lower-case letter becomes that letter in upper case,
   * and camel-casing the text around the pair is unaffected by it.
   */
  lemma {:induction false} CamelCaseUnderscoreLetter(a: string, x: char, b: string)
    requires 'a' <= x <= 'z'
    ensures CamelCase(a + ['_', x] + b) == CamelCase(a) + [Text.UpperChar(x)] + CamelCase(b)
    decreases |a|
  {
    var pair: string := ['_', x];
    if a == [] {
      assert a + pair + b == pair + b;
      assert CamelCase(a) == [];
      CamelCasePair(x, b);
    } else if |a| >= 2 && a[0] == '_' && 'a' <= a[1] <= 'z' {
      var head: string := ['_', a[1]];
      var rest := a[2..];
      assert a == head + rest;
      Assoc(head, rest, pair);
      Assoc(head, rest + pair, b);
      CamelCasePair(a[1], rest + pair + b);
      CamelCasePair(a[1], rest);
      CamelCaseUnderscoreLetter(rest, x, b);
      Assoc3([Text.UpperChar(a[1])], CamelCase(rest), [Text.UpperChar(x)], CamelCase(b));
    } else {
      var rest := a[1..];
      Uncons(a, pair);
      Assoc([a[0]], rest + pair, b);
      assert (rest + pair + b)[0] == if rest == [] then '_' else a[1];
      CamelCaseKept(a[0], rest + pair + b);
      CamelCaseKept(a[0], rest);
      CamelCaseUnderscoreLetter(rest, x, b);
      Assoc3([a[0]], CamelCase(rest), [Text.UpperChar(x)], CamelCase(b));
    }
  }

  /** One step of camel-casing at an `_` followed by a lower-case letter. */
  lemma CamelCasePair(x: char, s: string)
    requires 'a' <= x <= 'z'
    ensures CamelCase(['_', x] + s) == [Text.UpperChar(x)] + CamelCase(s)
  {
    assert (['_', x] + s)[2..] == s;
  }

  /** One step of camel-casing at a character that does not start an `_`-letter pair. */
  lemma CamelCaseKept(c: char, s: string)
    requires c == '_' ==> s == [] || !('a' <= s[0] <= 'z')
    ensures CamelCase([c] + s) == [c] + CamelCase(s)
  {
    assert ([c] + s)[1..] == s;
  }

  /** The key lowered, trimmed, with white-space runs as `_` and only `[a-z0-9_]` kept. */
  function Cleaned(key: string): (w: string)
    ensures forall k :: 0 <= k < |w| ==> IsWordChar(w[k])
  {
    KeepWordChars(CollapseWhite(Text.Trim(Text.ToLower(key))))
  }

  /** The normalised form of a column key; empty when nothing survives. */
  function NormalizeKey(key: string): string {
    CamelCase(StripUnderscores(Cleaned(key)))
  }

  /** Stripping and camel-casing a string of `[a-z0-9_]`. */
  lemma FinishShape(w: string)
    requires forall k :: 0 <= k < |w| ==> IsWordChar(w[k])
    ensures var r := CamelCase(StripUnderscores(w));
      && (forall k :: 0 <= k < |r| ==> IsWordChar(r[k]) || Text.IsUpper(r[k]))
      && (r != [] ==> r[0] != '_' && r[|r| - 1] != '_' && !Text.IsUpper(r[0]))
  {
    var s := StripUnderscores(w);
    if s != [] {
      assert IsWordChar(s[0]);
    }
  }

  /**
   * A normalised key holds only `[A-Za-z0-9_]`, neither starts nor ends
   * with `_`, and never starts with an upper-case letter.
   */
  lemma NormalizeKeyShape(key: string)
    ensures var r := NormalizeKey(key);
      && (forall k :: 0 <= k < |r| ==> IsWordChar(r[k]) || Text.IsUpper(r[k]))
      && (r != [] ==> r[0] != '_' && r[|r| - 1] != '_' && !Text.IsUpper(r[0]))
  {
    FinishShape(Cleaned(key));
  }

  /** A key that already consists of lower-case letters and digits only is kept as it is. */
  lemma PlainKeyUnchanged(key: string)
    requires forall k :: 0 <= k < |key| ==> Text.IsLowerAlnum(key[k])
    ensures NormalizeKey(key) == key
  {
    calc {
      NormalizeKey(key);
      CamelCase(StripUnderscores(Cleaned(key)));
      { PlainKeyCleaned(key); }
      CamelCase(StripUnderscores(key));
      { PlainKeyStripped(key); }
      CamelCase(key);
      { CamelCaseWithoutUnderscore(key); }
      key;
    }
  }

  lemma PlainKeyStripped(key: string)
    requires forall k :: 0 <= k < |key| ==> Text.IsLowerAlnum(key[k])
    ensures StripUnderscores(key) == key
  {
    assert DropLeadingUnderscores(key) == key;
    assert DropTrailingUnderscores(key) == key;
  }

  lemma PlainKeyCleaned(key: string)
    requires forall k :: 0 <= k < |key| ==> Text.IsLowerAlnum(key[k])
    ensures Cleaned(key) == key
  {
    LowerOfLowerAlnum(key);
    PlainKeyTrimmed(key);
    CollapseWithoutWhite(key);
  }

  lemma PlainKeyTrimmed(key: string)
    requires forall k :: 0 <= k < |key| ==> Text.IsLowerAlnum(key[k])
    ensures Text.Trim(key) == key
  {
    Text.TrimOfTrimmed(key);
  }

  lemma {:induction false} LowerOfLowerAlnum(s: string)
    requires forall k :: 0 <= k < |s| ==> Text.IsLowerAlnum(s[k])
    ensures Text.ToLower(s) == s
  {
    if s != [] {
      LowerOfLowerAlnum(s[1..]);
    }
  }

  lemma {:induction false} CollapseWithoutWhite(s: string)
    requires forall k :: 0 <= k < |s| ==> Text.IsLowerAlnum(s[k])
    ensures CollapseWhite(s) == s
  {
    if s != [] {
      CollapseWithoutWhite(s[1..]);
    }
  }

  lemma {:induction false} CamelCaseWithoutUnderscore(s: string)
    requires forall k :: 0 <= k < |s| ==> s[k] != '_'
    ensures CamelCase(s) == s
  {
    if s != [] {
      CamelCaseWithoutUnderscore(s[1..]);
    }
  }

  /** The key a column gets from its normalised form: that form, or `field_` and a random suffix when it is empty. */
  function KeyFor(normalized: string, suffix: string): (r: string)
    ensures r != []
    ensures normalized != [] ==> r == normalized
    ensures normalized == [] ==> r == "field_" + suffix
  {
    if normalized == [] then "field_" + suffix else normalized
  }

  /**
   * The keys row `i`'s entries get, with `norm` the key normaliser and
   * `suffix(i, j)` the random suffix drawn for entry `j`.
   */
  function RowKeys(row: Record, i: int, norm: string -> string, suffix: (int, int) -> string): (keys: seq<string>)
    ensures |keys| == |row|
    ensures forall j :: 0 <= j < |row| ==> keys[j] == KeyFor(norm(row[j].0), suffix(i, j))
  {
    seq(|row|, j requires 0 <= j < |row| => KeyFor(norm(row[j].0), suffix(i, j)))
  }

  /** The object built by assigning the first `n` values of `row` under `keys`, in order. */
  function AssignAll(row: Record, keys: seq<string>, n: nat): Record
    requires n <= |row| == |keys|
  {
    if n == 0 then [] else Assign(AssignAll(row, keys, n - 1), keys[n - 1], row[n - 1].1)
  }

  /** One row of `normalizeFields`. */
  function NormalizedRow(row: Record, i: int, norm: string -> string, suffix: (int, int) -> string): Record {
    AssignAll(row, RowKeys(row, i, norm, suffix), |row|)
  }

  /** `normalizeFields` with key normaliser `norm`: no rows for a missing, non-array or empty input. */
  function NormalizedRowsWith(data: Option<seq<Record>>, norm: string -> string, suffix: (int, int) -> string): (rows: seq<Record>)
    ensures data.None? ==> rows == []
    ensures data.Some? ==> |rows| == |data.value|
  {
    if data.None? || data.value == [] then []
    else seq(|data.value|, i requires 0 <= i < |data.value| => NormalizedRow(data.value[i], i, norm, suffix))
  }

  /** `normalizeFields`: one output row per input row, keys normalised by `NormalizeKey`. */
  function NormalizedRows(data: Option<seq<Record>>, suffix: (int, int) -> string): seq<Record> {
    NormalizedRowsWith(data, NormalizeKey, suffix)
  }

  /** Assigning key after key keeps the keys of a row distinct. */
  lemma {:induction false} AssignAllUnique(row: Record, keys: seq<string>, n: nat)
    requires n <= |row| == |keys|
    ensures UniqueKeys(AssignAll(row, keys, n))
  {
    if n > 0 {
      AssignAllUnique(row, keys, n - 1);
      AssignGet(AssignAll(row, keys, n - 1), keys[n - 1], row[n - 1].1);
    }
  }

  /** Every entry of the result is an input value under the key given to it. */
  lemma {:induction false} AssignAllOrigin(row: Record, keys: seq<string>, n: nat, e: nat)
    requires n <= |row| == |keys| && e < |AssignAll(row, keys, n)|
    ensures exists j :: 0 <= j < n && AssignAll(row, keys, n)[e] == (keys[j], row[j].1)
  {
    var prev := AssignAll(row, keys, n - 1);
    var out := Assign(prev, keys[n - 1], row[n - 1].1);
    if out[e] != (keys[n - 1], row[n - 1].1) {
      assert e < |prev| && out[e] == prev[e];
      AssignAllOrigin(row, keys, n - 1, e);
    }
  }

  /** A key holds the value of the last entry assigned under it: later entries overwrite earlier ones. */
  lemma {:induction false} AssignAllLastWins(row: Record, keys: seq<string>, n: nat, j: nat)
    requires j < n <= |row| == |keys|
    requires forall l :: j < l < n ==> keys[l] != keys[j]
    ensures Get(AssignAll(row, keys, n), keys[j]) == Some(row[j].1)
  {
    AssignAllUnique(row, keys, n - 1);
    AssignGet(AssignAll(row, keys, n - 1), keys[n - 1], row[n - 1].1);
    if j < n - 1 {
      AssignAllLastWins(row, keys, n - 1, j);
    }
  }

  /**
   * Each normalised row has distinct keys; every entry is an input value
   * under the key of its column; and a key holds the value of the last
   * column that gets it.
   */
  lemma NormalizedRowContents(data: Option<seq<Record>>, suffix: (int, int) -> string, i: nat)
    requires data.Some? && i < |data.value|
    ensures var row := data.value[i]; var out := NormalizedRows(data, suffix)[i];
      var keys := RowKeys(row, i, NormalizeKey, suffix);
      && UniqueKeys(out)
      && (forall e :: 0 <= e < |out| ==> exists j :: 0 <= j < |row| && out[e] == (keys[j], row[j].1))
      && (forall j :: 0 <= j < |row| && (forall l :: j < l < |row| ==> keys[l] != keys[j]) ==>
            Get(out, keys[j]) == Some(row[j].1))
  {
    var row := data.value[i];
    var keys := RowKeys(row, i, NormalizeKey, suffix);
    var out := NormalizedRows(data, suffix)[i];
    assert out == AssignAll(row, keys, |row|);
    AssignAllUnique(row, keys, |row|);
    forall e | 0 <= e < |out| ensures exists j :: 0 <= j < |row| && out[e] == (keys[j], row[j].1) {
      AssignAllOrigin(row, keys, |row|, e);
    }
    forall j | 0 <= j < |row| && (forall l :: j < l < |row| ==> keys[l] != keys[j])
      ensures Get(out, keys[j]) == Some(row[j].1)
    {
      AssignAllLastWins(row, keys, |row|, j);
    }
  }

  /** The keys of row `i`, entry by entry. */
  method NormalizeKeys(row: Record, i: int, norm: string -> string, suffix: (int, int) -> string) returns (keys: seq<string>)
    ensures keys == RowKeys(row, i, norm, suffix)
  {
    keys := [];
    var j := 0;
    while j < |row|
      invariant 0 <= j <= |row|
      invariant |keys| == j
      invariant forall l :: 0 <= l < j ==> keys[l] == KeyFor(norm(row[l].0), suffix(i, l))
    {
      keys := keys + [KeyFor(norm(row[j].0), suffix(i, j))];
      j := j + 1;
    }
  }

  /** The values of a row, assigned one by one under their keys. */
  method AssignRow(row: Record, keys: seq<string>) returns (out: Record)
    requires |keys| == |row|
    ensures out == AssignAll(row, keys, |row|)
  {
    out := [];
    var j := 0;
    while j < |row|
      invariant 0 <= j <= |row|
      invariant out == AssignAll(row, keys, j)
    {
      out := Assign(out, keys[j], row[j].1);
      j := j + 1;
    }
  }

  /** `normalizeFields`: `data.map(...)` as a loop over the rows. */
  method NormalizeFields(data: Option<seq<Record>>, suffix: (int, int) -> string) returns (rows: seq<Record>)
    ensures rows == NormalizedRows(data, suffix)
  {
    rows := NormalizeFieldsWith(data, NormalizeKey, suffix);
  }

  /** The row loop, for any key normaliser. */
  method NormalizeFieldsWith(data: Option<seq<Record>>, norm: string -> string, suffix: (int, int) -> string)
    returns (rows: seq<Record>)
    ensures rows == NormalizedRowsWith(data, norm, suffix)
  {
    if data.None? || data.value == [] {
      return [];
    }
    var input := data.value;
    rows := [];
    var i := 0;
    while i < |input|
      invariant 0 <= i <= |input|
      invariant |rows| == i
      invariant forall k :: 0 <= k < i ==> rows[k] == NormalizedRow(input[k], k, norm, suffix)
    {
      var keys := NormalizeKeys(input[i], i, norm, suffix);
      var out := AssignRow(input[i], keys);
      rows := rows + [out];
      i := i + 1;
    }
  }
}
